/**
  The plan executor: applies an overlay plan to the target tree one action
  at a time.  Each copy either succeeds in full or leaves its destination
  as it was, and a failed copy never stops the remaining actions.  Which
  copies fail is an input: `unwritable` holds the destinations whose write
  raises an OS error.  A copy whose source file is missing from the
  generated tree fails the same way.
 */
module Apply {
  import opened Wrappers
  import opened Models
  import opened Order

  /** Where an action copies its generated file, if anywhere. */
  function Dest(a: FileAction): Option<Path>
  {
    match a.kind
    case Create => Some(a.relPath)
    case ForceOverwrite => Some(a.relPath)
    case Unchanged => None
    case Conflict =>
      // Only a non-empty sidecar path is acted on (Python truthiness).
      if a.sidecarPath.Some? && a.sidecarPath.value != "" then a.sidecarPath else None
  }

  /** The action's copy goes through. */
  predicate WriteOk(a: FileAction, generated: Tree, unwritable: set<Path>)
  {
    Dest(a).Some? && a.relPath in generated && Dest(a).value !in unwritable
  }

  /** The actions whose copy goes through, in plan order. */
  function Succeeded(actions: seq<FileAction>, generated: Tree, unwritable: set<Path>): (r: seq<FileAction>)
    ensures forall a :: a in r <==> a in actions && WriteOk(a, generated, unwritable)
    decreases |actions|
  {
    if |actions| == 0 then []
    else
      (if WriteOk(actions[0], generated, unwritable) then [actions[0]] else [])
      + Succeeded(actions[1..], generated, unwritable)
  }

  /** The destinations of the actions that write, in order. */
  function Destinations(actions: seq<FileAction>): (r: seq<Path>)
    ensures forall p :: p in r <==> exists a :: a in actions && Dest(a) == Some(p)
    ensures (forall a :: a in actions ==> Dest(a).Some?) ==> |r| == |actions|
    decreases |actions|
  {
    if |actions| == 0 then []
    else
      (if Dest(actions[0]).Some? then [Dest(actions[0]).value] else [])
      + Destinations(actions[1..])
  }

  datatype ApplyState = ApplyState(target: Tree, summary: OverlaySummary)

  /** One iteration of the executor's loop. */
  function Step(st: ApplyState, a: FileAction, generated: Tree, unwritable: set<Path>): ApplyState
  {
    var s := st.summary;
    match a.kind
    case Create =>
      if WriteOk(a, generated, unwritable) then
        ApplyState(st.target[a.relPath := generated[a.relPath]], s.(filesCreated := s.filesCreated + 1))
      else st
    case Unchanged =>
      ApplyState(st.target, s.(filesUnchanged := s.filesUnchanged + 1))
    case Conflict =>
      var counted := s.(filesConflicted := s.filesConflicted + 1);
      if WriteOk(a, generated, unwritable) then
        var sidecar := Dest(a).value;
        ApplyState(st.target[sidecar := generated[a.relPath]], counted.(sidecarsWritten := counted.sidecarsWritten + [sidecar]))
      else ApplyState(st.target, counted)
    case ForceOverwrite =>
      if WriteOk(a, generated, unwritable) then
        ApplyState(st.target[a.relPath := generated[a.relPath]], s.(filesForceOverwritten := s.filesForceOverwritten + 1))
      else st
  }

  /** Runs the actions left to right from state `st`: the executor's loop as a fold. */
  function ApplyActions(st: ApplyState, actions: seq<FileAction>, generated: Tree, unwritable: set<Path>): ApplyState
    decreases |actions|
  {
    if |actions| == 0 then st
    else ApplyActions(Step(st, actions[0], generated, unwritable), actions[1..], generated, unwritable)
  }

  lemma {:induction false} OfKindAppend(xs: seq<FileAction>, ys: seq<FileAction>, k: ActionKind)
    ensures OfKind(xs + ys, k) == OfKind(xs, k) + OfKind(ys, k)
    decreases |xs|
  {
    if |xs| > 0 {
      assert (xs + ys)[1..] == xs[1..] + ys;
      OfKindAppend(xs[1..], ys, k);
    } else {
      assert xs + ys == ys;
    }
  }

  lemma {:induction false} DestinationsAppend(xs: seq<FileAction>, ys: seq<FileAction>)
    ensures Destinations(xs + ys) == Destinations(xs) + Destinations(ys)
    decreases |xs|
  {
    if |xs| > 0 {
      var head := if Dest(xs[0]).Some? then [Dest(xs[0]).value] else [];
      assert (xs + ys)[0] == xs[0];
      assert (xs + ys)[1..] == xs[1..] + ys;
      assert Destinations(xs + ys) == head + Destinations(xs[1..] + ys);
      assert Destinations(xs) == head + Destinations(xs[1..]);
      DestinationsAppend(xs[1..], ys);
    } else {
      assert xs + ys == ys;
    }
  }

  /** The first action's share of the successful copies, then the rest's. */
  lemma SucceededUnfold(actions: seq<FileAction>, generated: Tree, unwritable: set<Path>)
    requires |actions| > 0
    ensures Succeeded(actions, generated, unwritable)
         == Succeeded([actions[0]], generated, unwritable) + Succeeded(actions[1..], generated, unwritable)
  {
    assert [actions[0]][1..] == [];
  }

  /** One step's effect on the target, in terms of the step's own successful copies. */
  lemma StepTarget(st: ApplyState, a: FileAction, generated: Tree, unwritable: set<Path>)
    ensures var first := Destinations(Succeeded([a], generated, unwritable));
      && Step(st, a, generated, unwritable).target.Keys == st.target.Keys + (set p | p in first)
      && (forall p :: p in st.target && p !in first ==> Step(st, a, generated, unwritable).target[p] == st.target[p])
      && (WriteOk(a, generated, unwritable) ==>
            Step(st, a, generated, unwritable).target[Dest(a).value] == generated[a.relPath])
  {
    assert [a][1..] == [];
    if WriteOk(a, generated, unwritable) {
      assert Destinations(Succeeded([a], generated, unwritable)) == [Dest(a).value];
    } else {
      assert Destinations(Succeeded([a], generated, unwritable)) == [];
    }
  }

  /** One step's effect on the summary. */
  lemma StepSummary(st: ApplyState, a: FileAction, generated: Tree, unwritable: set<Path>)
    ensures var first := Succeeded([a], generated, unwritable);
      var r := Step(st, a, generated, unwritable).summary;
      && r.filesCreated == st.summary.filesCreated + |OfKind(first, Create)|
      && r.filesForceOverwritten == st.summary.filesForceOverwritten + |OfKind(first, ForceOverwrite)|
      && r.filesUnchanged == st.summary.filesUnchanged + |OfKind([a], Unchanged)|
      && r.filesConflicted == st.summary.filesConflicted + |OfKind([a], Conflict)|
      && r.sidecarsWritten == st.summary.sidecarsWritten + Destinations(OfKind(first, Conflict))
      && r.mode == st.summary.mode
      && r.targetDir == st.summary.targetDir
      && r.orphanedFiles == st.summary.orphanedFiles
  {
    assert [a][1..] == [];
    assert Succeeded([], generated, unwritable) == [];
    var first := Succeeded([a], generated, unwritable);
    if WriteOk(a, generated, unwritable) {
      assert first == [a];
    } else {
      assert first == [];
    }
  }

  /**
    Applying a sequence of actions adds exactly the destinations of the
    successful copies to the target, removes nothing, and leaves every
    other path's content as it was.
   */
  lemma {:induction false} ApplyActionsTarget(st: ApplyState, actions: seq<FileAction>, generated: Tree, unwritable: set<Path>)
    ensures ApplyActions(st, actions, generated, unwritable).target.Keys
         == st.target.Keys + (set p | p in Destinations(Succeeded(actions, generated, unwritable)))
    ensures forall p :: p in st.target && p !in Destinations(Succeeded(actions, generated, unwritable)) ==>
      ApplyActions(st, actions, generated, unwritable).target[p] == st.target[p]
    decreases |actions|
  {
    if |actions| > 0 {
      var a, rest := actions[0], actions[1..];
      var next := Step(st, a, generated, unwritable);
      ApplyActionsTarget(next, rest, generated, unwritable);
      StepTarget(st, a, generated, unwritable);
      SucceededUnfold(actions, generated, unwritable);
      DestinationsAppend(Succeeded([a], generated, unwritable), Succeeded(rest, generated, unwritable));
      assert ApplyActions(st, actions, generated, unwritable) == ApplyActions(next, rest, generated, unwritable);
    }
  }

  /**
    The counters grow by the successful copies of each kind, except that
    every unchanged file and every conflict is counted whatever happens to
    its sidecar.
   */
  lemma {:induction false} ApplyActionsCounters(st: ApplyState, actions: seq<FileAction>, generated: Tree, unwritable: set<Path>)
    ensures var r := ApplyActions(st, actions, generated, unwritable).summary;
      && r.filesCreated == st.summary.filesCreated + |OfKind(Succeeded(actions, generated, unwritable), Create)|
      && r.filesForceOverwritten
         == st.summary.filesForceOverwritten + |OfKind(Succeeded(actions, generated, unwritable), ForceOverwrite)|
      && r.filesUnchanged == st.summary.filesUnchanged + |OfKind(actions, Unchanged)|
      && r.filesConflicted == st.summary.filesConflicted + |OfKind(actions, Conflict)|
    decreases |actions|
  {
    if |actions| > 0 {
      var a, rest := actions[0], actions[1..];
      var next := Step(st, a, generated, unwritable);
      ApplyActionsCounters(next, rest, generated, unwritable);
      StepSummary(st, a, generated, unwritable);
      SucceededUnfold(actions, generated, unwritable);
      var first := Succeeded([a], generated, unwritable);
      var later := Succeeded(rest, generated, unwritable);
      OfKindAppend(first, later, Create);
      OfKindAppend(first, later, ForceOverwrite);
      assert actions == [a] + rest;
      OfKindAppend([a], rest, Unchanged);
      OfKindAppend([a], rest, Conflict);
      assert ApplyActions(st, actions, generated, unwritable) == ApplyActions(next, rest, generated, unwritable);
    }
  }

  /**
    The sidecar list grows by the sidecars actually written, in plan order;
    the mode, directory and orphans are carried through unchanged.
   */
  lemma {:induction false} ApplyActionsSidecars(st: ApplyState, actions: seq<FileAction>, generated: Tree, unwritable: set<Path>)
    ensures var r := ApplyActions(st, actions, generated, unwritable).summary;
      && r.sidecarsWritten
         == st.summary.sidecarsWritten + Destinations(OfKind(Succeeded(actions, generated, unwritable), Conflict))
      && r.mode == st.summary.mode
      && r.targetDir == st.summary.targetDir
      && r.orphanedFiles == st.summary.orphanedFiles
    decreases |actions|
  {
    if |actions| > 0 {
      var a, rest := actions[0], actions[1..];
      var next := Step(st, a, generated, unwritable);
      ApplyActionsSidecars(next, rest, generated, unwritable);
      StepSummary(st, a, generated, unwritable);
      SucceededUnfold(actions, generated, unwritable);
      var first := Succeeded([a], generated, unwritable);
      var later := Succeeded(rest, generated, unwritable);
      OfKindAppend(first, later, Conflict);
      DestinationsAppend(OfKind(first, Conflict), OfKind(later, Conflict));
      assert ApplyActions(st, actions, generated, unwritable) == ApplyActions(next, rest, generated, unwritable);
    }
  }

  /**
    When a copy succeeds and no later action of the plan aims at its
    destination, the destination ends up holding exactly the generated
    file: the last successful writer wins.
   */
  lemma {:induction false} LastWriterWins(st: ApplyState, actions: seq<FileAction>, generated: Tree,
                                          unwritable: set<Path>, i: nat)
    requires i < |actions|
    requires WriteOk(actions[i], generated, unwritable)
    requires forall j :: i < j < |actions| ==> Dest(actions[j]) != Dest(actions[i])
    ensures Dest(actions[i]).value in ApplyActions(st, actions, generated, unwritable).target
    ensures ApplyActions(st, actions, generated, unwritable).target[Dest(actions[i]).value]
         == generated[actions[i].relPath]
    decreases |actions|
  {
    var a, rest := actions[0], actions[1..];
    var next := Step(st, a, generated, unwritable);
    assert ApplyActions(st, actions, generated, unwritable) == ApplyActions(next, rest, generated, unwritable);
    if i == 0 {
      var d := Dest(a).value;
      StepTarget(st, a, generated, unwritable);
      assert d in Destinations(Succeeded([a], generated, unwritable)) by {
        assert a in Succeeded([a], generated, unwritable);
      }
      assert d !in Destinations(Succeeded(rest, generated, unwritable)) by {
        forall b | b in Succeeded(rest, generated, unwritable)
          ensures Dest(b) != Some(d)
        {
          var j :| 0 <= j < |rest| && rest[j] == b;
          assert actions[j + 1] == b;
        }
      }
      ApplyActionsTarget(next, rest, generated, unwritable);
    } else {
      assert forall j :: i - 1 < j < |rest| ==> Dest(rest[j]) != Dest(rest[i - 1]) by {
        forall j | i - 1 < j < |rest|
          ensures Dest(rest[j]) != Dest(rest[i - 1])
        {
          assert rest[j] == actions[j + 1];
        }
      }
      LastWriterWins(next, rest, generated, unwritable, i - 1);
    }
  }

  /** A path that no successful copy of the plan writes to keeps its presence and content. */
  lemma UntargetedPathKept(st: ApplyState, actions: seq<FileAction>, generated: Tree, unwritable: set<Path>, p: Path)
    requires p !in Destinations(Succeeded(actions, generated, unwritable))
    ensures p in ApplyActions(st, actions, generated, unwritable).target <==> p in st.target
    ensures p in st.target ==> ApplyActions(st, actions, generated, unwritable).target[p] == st.target[p]
  {
    ApplyActionsTarget(st, actions, generated, unwritable);
  }

  /** Every successful copy is either a create, a forced overwrite or a written sidecar. */
  lemma SucceededCounted(actions: seq<FileAction>, generated: Tree, unwritable: set<Path>)
    ensures var ok := Succeeded(actions, generated, unwritable);
      |OfKind(ok, Create)| + |OfKind(ok, ForceOverwrite)| + |Destinations(OfKind(ok, Conflict))| == |ok|
  {
    var ok := Succeeded(actions, generated, unwritable);
    OfKindPartition(ok);
    HeadIsMember(OfKind(ok, Unchanged));
  }

  /**
    `apply_plan`: runs every action of the plan against the target.  The
    summary is in overlay mode and carries the plan's orphans.  The target
    never loses a path, gains exactly the destinations of successful
    copies, and keeps every other path's content.  Creates and forced
    overwrites are counted only when their copy succeeds, every unchanged
    file and every conflict is counted, and the sidecar list names the
    sidecars actually written, in plan order; so each successful copy is
    counted exactly once.
   */
  function ApplyPlan(plan: OverlayPlan, generated: Tree, targetDir: string, target: Tree,
                     unwritable: set<Path>): (r: (Tree, OverlaySummary))
    ensures r.1.mode == Overlay && r.1.targetDir == targetDir && r.1.orphanedFiles == plan.orphans
    ensures target.Keys <= r.0.Keys
    ensures r.0.Keys == target.Keys + (set p | p in Destinations(Succeeded(plan.actions, generated, unwritable)))
    ensures forall p :: p in target && p !in Destinations(Succeeded(plan.actions, generated, unwritable)) ==>
      r.0[p] == target[p]
    ensures r.1.filesCreated == |OfKind(Succeeded(plan.actions, generated, unwritable), Create)|
    ensures r.1.filesForceOverwritten == |OfKind(Succeeded(plan.actions, generated, unwritable), ForceOverwrite)|
    ensures r.1.filesUnchanged == |plan.UnchangedActions()|
    ensures r.1.filesConflicted == |plan.Conflicts()|
    ensures r.1.sidecarsWritten == Destinations(OfKind(Succeeded(plan.actions, generated, unwritable), Conflict))
    ensures |r.1.sidecarsWritten| <= r.1.filesConflicted
    ensures r.1.filesCreated + r.1.filesForceOverwritten + |r.1.sidecarsWritten|
         == |Succeeded(plan.actions, generated, unwritable)|
  {
    var init := ApplyState(target, OverlaySummary(Overlay, targetDir, 0, 0, 0, 0, [], plan.orphans));
    ApplyActionsTarget(init, plan.actions, generated, unwritable);
    ApplyActionsCounters(init, plan.actions, generated, unwritable);
    ApplyActionsSidecars(init, plan.actions, generated, unwritable);
    SucceededCounted(plan.actions, generated, unwritable);
    SucceededConflictsBounded(plan.actions, generated, unwritable);
    var final := ApplyActions(init, plan.actions, generated, unwritable);
    (final.target, final.summary)
  }

  /** No more sidecars are written than there are conflicts. */
  lemma {:induction false} SucceededConflictsBounded(actions: seq<FileAction>, generated: Tree, unwritable: set<Path>)
    ensures |Destinations(OfKind(Succeeded(actions, generated, unwritable), Conflict))| <= |OfKind(actions, Conflict)|
    decreases |actions|
  {
    if |actions| > 0 {
      SucceededConflictsBounded(actions[1..], generated, unwritable);
      SucceededUnfold(actions, generated, unwritable);
      var first := Succeeded([actions[0]], generated, unwritable);
      var later := Succeeded(actions[1..], generated, unwritable);
      assert [actions[0]][1..] == [];
      assert Succeeded([], generated, unwritable) == [];
      OfKindAppend(first, later, Conflict);
      DestinationsAppend(OfKind(first, Conflict), OfKind(later, Conflict));
    }
  }
}
