/** Paths a previous run wrote that the current generation no longer produces. */
module Orphans {
  import opened Wrappers
  import opened Models
  import opened ManifestStore
  import opened Order

  /**
    `sorted(previous union - current)`, or nothing without a previous
    manifest.  Orphans are only reported, never deleted.
   */
  method DetectOrphans(previous: Option<Manifest>, current: set<Path>) returns (r: seq<Path>)
    ensures previous.None? ==> r == []
    ensures StrictlySorted(r)
    ensures previous.Some? ==> forall p :: p in r <==> p in CollectAllWrotePaths(previous.value) && p !in current
  {
    if previous.None? {
      return [];
    }
    var prevFiles := CollectAllWrotePaths(previous.value);
    r := SortedList(prevFiles - current);
  }

  /** The orphan list is fully determined: any strictly sorted listing of the difference equals it. */
  lemma OrphansDetermined(previous: Manifest, current: set<Path>, r: seq<Path>, s: seq<Path>)
    requires StrictlySorted(r) && StrictlySorted(s)
    requires forall p :: p in r <==> p in CollectAllWrotePaths(previous) && p !in current
    requires forall p :: p in s <==> p in CollectAllWrotePaths(previous) && p !in current
    ensures r == s
  {
    SortedUnique(r, s);
  }

  /** One stage wrote a.md, b.md and c.md; the current run produces a.md and c.md: b.md alone is orphaned. */
  lemma OrphansExample(r: seq<Path>)
    requires StrictlySorted(r)
    requires forall p :: p in r <==>
      p in CollectAllWrotePaths(Manifest(map["scaffold" := StageResult(["a.md", "b.md", "c.md"])])) && p !in {"a.md", "c.md"}
    ensures r == ["b.md"]
  {
    CollectAllWrotePathsSingle("scaffold", ["a.md", "b.md", "c.md"]);
    SortedUnique(r, ["b.md"]);
  }
}
