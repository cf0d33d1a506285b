/**
  The records the overlay engine exchanges: generated and target trees,
  the generation manifest, file actions, the overlay plan with its
  per-kind views, and the overlay summary.
 */
module Models {
  import opened Wrappers

  /** A POSIX-style path relative to the root of a tree. */
  type Path = string

  type Bytes = seq<bv8>

  /** A directory tree holding regular files only: relative path to content. */
  type Tree = map<Path, Bytes>

  type StageName = string

  /** What one generation stage recorded as written. */
  datatype StageResult = StageResult(wrote: seq<Path>)

  /** The record a completed run leaves for the next one. */
  datatype Manifest = Manifest(stages: map<StageName, StageResult>)

  datatype ActionKind = Create | Unchanged | Conflict | ForceOverwrite

  /** The verdict for one generated file. */
  datatype FileAction = FileAction(relPath: Path, kind: ActionKind, reason: string, sidecarPath: Option<Path>)

  /** The actions of one kind, in plan order. */
  function OfKind(actions: seq<FileAction>, k: ActionKind): (r: seq<FileAction>)
    ensures forall a :: a in r <==> a in actions && a.kind == k
    ensures |r| <= |actions|
    decreases |actions|
  {
    if |actions| == 0 then []
    else (if actions[0].kind == k then [actions[0]] else []) + OfKind(actions[1..], k)
  }

  /** Every action has exactly one kind, so the four views split the plan. */
  lemma {:induction false} OfKindPartition(actions: seq<FileAction>)
    ensures |OfKind(actions, Create)| + |OfKind(actions, Unchanged)|
          + |OfKind(actions, Conflict)| + |OfKind(actions, ForceOverwrite)| == |actions|
    decreases |actions|
  {
    if |actions| > 0 {
      OfKindPartition(actions[1..]);
    }
  }

  datatype OverlayPlan = OverlayPlan(targetDir: string, actions: seq<FileAction>, orphans: seq<Path>)
  {
    function Creates(): seq<FileAction> { OfKind(actions, Create) }

    function UnchangedActions(): seq<FileAction> { OfKind(actions, Unchanged) }

    function Conflicts(): seq<FileAction> { OfKind(actions, Conflict) }

    function ForceOverwrites(): seq<FileAction> { OfKind(actions, ForceOverwrite) }

    predicate HasConflicts() { |Conflicts()| > 0 }
  }

  datatype Mode = Overlay | DryRun

  /** What an apply run reports back for the next manifest. */
  datatype OverlaySummary = OverlaySummary(
    mode: Mode,
    targetDir: string,
    filesCreated: nat,
    filesUnchanged: nat,
    filesConflicted: nat,
    filesForceOverwritten: nat,
    sidecarsWritten: seq<Path>,
    orphanedFiles: seq<Path>)
}
