/**
  The tree comparator: classifies every generated file against the target
  tree and attaches a provenance reason to each file whose content differs.
 */
module Compare {
  import opened Wrappers
  import opened Models
  import opened ManifestStore

  const SidecarSuffix: string := ".foundry-new"

  /** The sidecar written beside a conflicting file. */
  function SidecarName(rel: Path): Path
  {
    rel + SidecarSuffix
  }

  /** `rel` is the sidecar name of some generated file, so a conflict on that file writes to `rel`. */
  predicate IsSidecarOf(rel: Path, generated: Tree)
  {
    |rel| >= |SidecarSuffix|
    && rel[|rel| - |SidecarSuffix|..] == SidecarSuffix
    && rel[..|rel| - |SidecarSuffix|] in generated
  }

  lemma SidecarNameInjective(p: Path, q: Path)
    ensures SidecarName(p) == SidecarName(q) ==> p == q
  {
    assert p == SidecarName(p)[..|p|];
    assert q == SidecarName(q)[..|q|];
  }

  lemma SidecarNameIsSidecarOf(q: Path, generated: Tree)
    requires q in generated
    ensures IsSidecarOf(SidecarName(q), generated)
  {
    var s := SidecarName(q);
    assert s[..|s| - |SidecarSuffix|] == q;
  }

  /**
    The enumeration of a generated tree: every regular file exactly once.
    `compare_trees` walks a sorted recursive glob. The model keeps one fact
    of that order: a file comes before its sidecar name, because in sorted
    path order `q` precedes `q.foundry-new` (their last components differ
    only by the added suffix). The rest of the order is taken as given.
   */
  predicate IsWalk(walk: seq<Path>, generated: Tree)
  {
    && (forall i, j :: 0 <= i < j < |walk| ==> walk[i] != walk[j])
    && (forall p :: p in walk ==> p in generated)
    && (forall p :: p in generated ==> p in walk)
    && (forall i, j :: 0 <= i < |walk| && 0 <= j < |walk| && walk[j] == SidecarName(walk[i]) ==> i < j)
  }

  /** Byte-for-byte equality of two file contents. */
  function FilesIdentical(a: Bytes, b: Bytes): (r: bool)
    ensures r <==> |a| == |b| && forall i :: 0 <= i < |a| ==> a[i] == b[i]
  {
    a == b
  }

  const PriorRunReason: string := "File was generated by Foundry in a prior run but has been modified since."
  const UnmanagedReason: string := "File exists in the overlay-managed scope but was not generated by Foundry."
  const NoManifestReason: string := "File exists (no prior manifest available to determine origin)."

  /** Provenance text for a file whose target copy differs; total and pure. */
  function ConflictReason(rel: Path, prevFiles: set<Path>, previous: Option<Manifest>): (r: string)
    ensures r == NoManifestReason <==> previous.None?
    ensures r == PriorRunReason <==> previous.Some? && rel in prevFiles
    ensures r == UnmanagedReason <==> previous.Some? && rel !in prevFiles
  {
    if previous.Some? then
      if rel in prevFiles then PriorRunReason else UnmanagedReason
    else
      NoManifestReason
  }

  /** The verdict for one generated file. */
  function Classify(rel: Path, generated: Tree, target: Tree, prevFiles: set<Path>,
                    previous: Option<Manifest>, force: bool): (a: FileAction)
    requires rel in generated
    ensures a.relPath == rel
    ensures a.kind == Create <==> rel !in target
    ensures a.kind == Unchanged <==> rel in target && target[rel] == generated[rel]
    ensures a.kind == Conflict <==> rel in target && target[rel] != generated[rel] && !force
    ensures a.kind == ForceOverwrite <==> rel in target && target[rel] != generated[rel] && force
    ensures a.sidecarPath.Some? <==> a.kind == Conflict
    ensures a.sidecarPath.Some? ==> a.sidecarPath.value == SidecarName(rel)
    ensures a.kind == Conflict || a.kind == ForceOverwrite ==> a.reason == ConflictReason(rel, prevFiles, previous)
  {
    if rel !in target then
      FileAction(rel, Create, "New file", None)
    else if FilesIdentical(generated[rel], target[rel]) then
      FileAction(rel, Unchanged, "Content identical", None)
    else if force then
      FileAction(rel, ForceOverwrite, ConflictReason(rel, prevFiles, previous), None)
    else
      FileAction(rel, Conflict, ConflictReason(rel, prevFiles, previous), Some(SidecarName(rel)))
  }

  function ClassifyAll(walk: seq<Path>, generated: Tree, target: Tree, prevFiles: set<Path>,
                       previous: Option<Manifest>, force: bool): (r: seq<FileAction>)
    requires forall p :: p in walk ==> p in generated
    ensures |r| == |walk|
    ensures forall i :: 0 <= i < |walk| ==> r[i] == Classify(walk[i], generated, target, prevFiles, previous, force)
    decreases |walk|
  {
    if |walk| == 0 then []
    else
      [Classify(walk[0], generated, target, prevFiles, previous, force)]
      + ClassifyAll(walk[1..], generated, target, prevFiles, previous, force)
  }

  /** The provenance set a comparison uses: empty without a manifest. */
  function PreviousFiles(previous: Option<Manifest>): set<Path>
  {
    if previous.Some? then CollectAllWrotePaths(previous.value) else {}
  }

  /**
    Classifies every file of the generated tree, in walk order.  The plan's
    orphans are left empty: the caller fills them in.
   */
  function CompareTrees(generated: Tree, walk: seq<Path>, targetDir: string, target: Tree,
                        previous: Option<Manifest>, force: bool): (plan: OverlayPlan)
    requires IsWalk(walk, generated)
    ensures plan.targetDir == targetDir && plan.orphans == []
    ensures |plan.actions| == |walk|
    ensures forall i :: 0 <= i < |walk| ==>
      plan.actions[i] == Classify(walk[i], generated, target, PreviousFiles(previous), previous, force)
    ensures forall i, j :: 0 <= i < j < |plan.actions| ==> plan.actions[i].relPath != plan.actions[j].relPath
    ensures forall p :: p in generated <==> exists i :: 0 <= i < |plan.actions| && plan.actions[i].relPath == p
  {
    var actions := ClassifyAll(walk, generated, target, PreviousFiles(previous), previous, force);
    assert forall p :: p in generated ==> exists i :: 0 <= i < |actions| && actions[i].relPath == p by {
      forall p | p in generated
        ensures exists i :: 0 <= i < |actions| && actions[i].relPath == p
      {
        var i :| 0 <= i < |walk| && walk[i] == p;
        assert actions[i].relPath == p;
      }
    }
    OverlayPlan(targetDir, actions, [])
  }
}
