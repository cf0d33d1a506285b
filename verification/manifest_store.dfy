/** Loading the previous run's manifest and reading provenance out of it. */
module ManifestStore {
  import opened Wrappers
  import opened Models

  /**
    The state of `ai/generated/manifest.json` under the target: missing,
    present but not a valid manifest, or parsed.  The JSON and schema
    decoding itself is not part of this model.
   */
  datatype ManifestFile = Missing | Unparsable | Parsed(manifest: Manifest)

  /** A missing or corrupt manifest degrades to "no provenance"; it never fails the run. */
  function LoadPreviousManifest(f: ManifestFile): (r: Option<Manifest>)
    ensures r.Some? <==> f.Parsed?
    ensures f.Parsed? ==> r.value == f.manifest
  {
    match f
    case Parsed(m) => Some(m)
    case _ => None
  }

  /** Every path some stage of the manifest recorded as written. */
  function CollectAllWrotePaths(m: Manifest): (r: set<Path>)
    ensures forall k, p :: k in m.stages && p in m.stages[k].wrote ==> p in r
    ensures forall p :: p in r ==> exists k :: k in m.stages && p in m.stages[k].wrote
  {
    set k, p | k in m.stages && p in m.stages[k].wrote :: p
  }

  /** The collected set is the union of the stages' sets: splitting the stages splits the set. */
  lemma CollectAllWrotePathsUnion(m1: Manifest, m2: Manifest)
    requires m1.stages.Keys !! m2.stages.Keys
    ensures CollectAllWrotePaths(Manifest(m1.stages + m2.stages))
         == CollectAllWrotePaths(m1) + CollectAllWrotePaths(m2)
  {
    var both := Manifest(m1.stages + m2.stages);
    forall p | p in CollectAllWrotePaths(both)
      ensures p in CollectAllWrotePaths(m1) + CollectAllWrotePaths(m2)
    {
      var k :| k in both.stages && p in both.stages[k].wrote;
      if k in m2.stages {
        assert p in m2.stages[k].wrote;
      } else {
        assert p in m1.stages[k].wrote;
      }
    }
  }

  /** A one-stage manifest collects exactly that stage's paths. */
  lemma CollectAllWrotePathsSingle(name: StageName, wrote: seq<Path>)
    ensures CollectAllWrotePaths(Manifest(map[name := StageResult(wrote)])) == set p | p in wrote
  {
    var m := Manifest(map[name := StageResult(wrote)]);
    forall p | p in wrote
      ensures p in CollectAllWrotePaths(m)
    {
      assert name in m.stages && p in m.stages[name].wrote;
    }
  }
}
