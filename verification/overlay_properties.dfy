/**
  Guarantees of the whole overlay flow: what applying a compared plan does
  to each file of the target, what a second comparison after a clean apply
  finds, and how provenance reaches conflict reasons.

  A conflict on `q` writes `q.foundry-new`; if the generator also produces
  `q.foundry-new`, that file's own action and `q`'s sidecar aim at the same
  destination. The walk visits `q` first, so a create or forced overwrite
  of `q.foundry-new` still has the last word, but a file that is left alone
  (unchanged, or a conflict) loses the user's content to the sidecar
  (`SidecarClobbersUserFile`, `SidecarOverwritesUnchangedFile`). The
  guarantees for files left alone therefore assume no conflict's sidecar
  lands on them (`SidecarLandsOn`).
 */
module OverlayProperties {
  import opened Wrappers
  import opened Models
  import opened ManifestStore
  import opened Compare
  import opened Apply
  import opened Order

  /** Some generated file whose sidecar name is `walk[i]` is a conflict, so its sidecar copy is aimed at `walk[i]`. */
  predicate SidecarLandsOn(generated: Tree, walk: seq<Path>, targetDir: string, target: Tree,
                           previous: Option<Manifest>, force: bool, i: nat)
    requires IsWalk(walk, generated)
    requires i < |walk|
  {
    var actions := CompareTrees(generated, walk, targetDir, target, previous, force).actions;
    exists j :: 0 <= j < |walk| && SidecarName(walk[j]) == walk[i] && actions[j].kind == Conflict
  }

  /** A plan without conflicts lands no sidecar anywhere. */
  lemma NoConflictsLandNothing(generated: Tree, walk: seq<Path>, targetDir: string, target: Tree,
                               previous: Option<Manifest>, force: bool)
    requires IsWalk(walk, generated)
    ensures !CompareTrees(generated, walk, targetDir, target, previous, force).HasConflicts() ==>
      forall i :: 0 <= i < |walk| ==> !SidecarLandsOn(generated, walk, targetDir, target, previous, force, i)
  {
    var plan := CompareTrees(generated, walk, targetDir, target, previous, force);
    forall j | 0 <= j < |walk| && plan.actions[j].kind == Conflict
      ensures plan.HasConflicts()
    {
      assert plan.actions[j] in plan.Conflicts();
    }
  }

  /**
    No later action aims at the own path of a file that is not a conflict:
    a later file has another name, and a later conflict's sidecar name
    would have to come after its stem in the walk.
   */
  lemma NoLaterWriter(generated: Tree, walk: seq<Path>, targetDir: string, target: Tree,
                      previous: Option<Manifest>, force: bool, i: nat)
    requires IsWalk(walk, generated)
    requires i < |walk|
    ensures var actions := CompareTrees(generated, walk, targetDir, target, previous, force).actions;
      forall j :: i < j < |actions| ==> Dest(actions[j]) != Some(walk[i])
  {
    var actions := CompareTrees(generated, walk, targetDir, target, previous, force).actions;
    forall j | i < j < |actions|
      ensures Dest(actions[j]) != Some(walk[i])
    {
      var q := walk[j];
      assert q in generated && q != walk[i];
      assert SidecarName(q) != walk[i];
      assert actions[j] == Classify(q, generated, target, PreviousFiles(previous), previous, force);
      ClassifiedDest(q, generated, target, PreviousFiles(previous), previous, force);
    }
  }

  /**
    In a compared plan the only action aimed at a generated file's own path
    is that file's action, and the only action aimed at its sidecar name is
    that file's conflict, when the name is not itself generated.
   */
  lemma NoOtherWriter(generated: Tree, walk: seq<Path>, targetDir: string, target: Tree,
                      previous: Option<Manifest>, force: bool, i: nat, d: Path)
    requires IsWalk(walk, generated)
    requires i < |walk|
    requires (d == walk[i] && !SidecarLandsOn(generated, walk, targetDir, target, previous, force, i))
          || (d == SidecarName(walk[i]) && d !in generated)
    ensures var actions := CompareTrees(generated, walk, targetDir, target, previous, force).actions;
      forall j :: 0 <= j < |actions| && j != i ==> Dest(actions[j]) != Some(d)
  {
    var plan := CompareTrees(generated, walk, targetDir, target, previous, force);
    var actions := plan.actions;
    forall j | 0 <= j < |actions| && j != i
      ensures Dest(actions[j]) != Some(d)
    {
      var q := walk[j];
      assert q in generated;
      assert q != walk[i] by {
        if j < i {
          assert walk[j] != walk[i];
        } else {
          assert walk[i] != walk[j];
        }
      }
      assert actions[j] == Classify(q, generated, target, PreviousFiles(previous), previous, force);
      ClassifiedDest(q, generated, target, PreviousFiles(previous), previous, force);
      SidecarNameIsSidecarOf(q, generated);
      SidecarNameInjective(q, walk[i]);
    }
  }

  /** A classified file is copied nowhere or onto its own path, except a conflict, which goes to its sidecar name outside force mode. */
  lemma ClassifiedDest(rel: Path, generated: Tree, target: Tree, prevFiles: set<Path>,
                       previous: Option<Manifest>, force: bool)
    requires rel in generated
    ensures var a := Classify(rel, generated, target, prevFiles, previous, force);
      && (a.kind != Conflict ==> Dest(a) == None || Dest(a) == Some(rel))
      && (a.kind == Conflict ==> !force && Dest(a) == Some(SidecarName(rel)))
  {
  }

  /** A path that is neither generated nor the sidecar name of a generated file is never written. */
  lemma NoWriterOutsidePlan(generated: Tree, walk: seq<Path>, targetDir: string, target: Tree,
                            previous: Option<Manifest>, force: bool, p: Path)
    requires IsWalk(walk, generated)
    requires p !in generated && !IsSidecarOf(p, generated)
    ensures forall a :: a in CompareTrees(generated, walk, targetDir, target, previous, force).actions ==> Dest(a) != Some(p)
  {
    var actions := CompareTrees(generated, walk, targetDir, target, previous, force).actions;
    forall a | a in actions
      ensures Dest(a) != Some(p)
    {
      var j :| 0 <= j < |actions| && actions[j] == a;
      var q := walk[j];
      assert q in generated;
      assert a == Classify(q, generated, target, PreviousFiles(previous), previous, force);
      ClassifiedDest(q, generated, target, PreviousFiles(previous), previous, force);
      SidecarNameIsSidecarOf(q, generated);
    }
  }

  /** The state `apply_plan` starts from. */
  function InitialState(plan: OverlayPlan, targetDir: string, target: Tree): ApplyState
  {
    ApplyState(target, OverlaySummary(Overlay, targetDir, 0, 0, 0, 0, [], plan.orphans))
  }

  lemma ApplyPlanIsFold(plan: OverlayPlan, generated: Tree, targetDir: string, target: Tree, unwritable: set<Path>)
    ensures ApplyPlan(plan, generated, targetDir, target, unwritable).0
         == ApplyActions(InitialState(plan, targetDir, target), plan.actions, generated, unwritable).target
  {
  }

  /**
    A new file lands with exactly the generated content, or stays absent if
    its copy fails. An earlier conflict's sidecar aimed at the same path is
    overwritten by the create, or fails with it.
   */
  lemma ApplyCreate(generated: Tree, walk: seq<Path>, targetDir: string, target: Tree,
                    previous: Option<Manifest>, force: bool, unwritable: set<Path>, i: nat)
    requires IsWalk(walk, generated)
    requires i < |walk|
    requires CompareTrees(generated, walk, targetDir, target, previous, force).actions[i].kind == Create
    ensures var after := ApplyPlan(CompareTrees(generated, walk, targetDir, target, previous, force),
                                   generated, targetDir, target, unwritable).0;
      && (walk[i] !in unwritable ==> walk[i] in after && after[walk[i]] == generated[walk[i]])
      && (walk[i] in unwritable ==> walk[i] !in after)
  {
    var plan := CompareTrees(generated, walk, targetDir, target, previous, force);
    var rel := walk[i];
    NoLaterWriter(generated, walk, targetDir, target, previous, force, i);
    ApplyPlanIsFold(plan, generated, targetDir, target, unwritable);
    if rel !in unwritable {
      LastWriterWins(InitialState(plan, targetDir, target), plan.actions, generated, unwritable, i);
    } else {
      assert rel !in Destinations(Succeeded(plan.actions, generated, unwritable));
    }
  }

  /** An identical file is not written, unless a conflict's sidecar lands on it. */
  lemma ApplyUnchanged(generated: Tree, walk: seq<Path>, targetDir: string, target: Tree,
                       previous: Option<Manifest>, force: bool, unwritable: set<Path>, i: nat)
    requires IsWalk(walk, generated)
    requires i < |walk|
    requires CompareTrees(generated, walk, targetDir, target, previous, force).actions[i].kind == Unchanged
    requires !SidecarLandsOn(generated, walk, targetDir, target, previous, force, i)
    ensures var after := ApplyPlan(CompareTrees(generated, walk, targetDir, target, previous, force),
                                   generated, targetDir, target, unwritable).0;
      walk[i] in after && after[walk[i]] == target[walk[i]] == generated[walk[i]]
  {
    var plan := CompareTrees(generated, walk, targetDir, target, previous, force);
    var rel := walk[i];
    NoOtherWriter(generated, walk, targetDir, target, previous, force, i, rel);
    assert Dest(plan.actions[i]) == None;
    NoActionAims(plan.actions, i, rel);
    ApplyPlanIsFold(plan, generated, targetDir, target, unwritable);
    UntargetedPathKept(InitialState(plan, targetDir, target), plan.actions, generated, unwritable, rel);
  }

  /** The index-wise "no other writer" fact, restated over the members of the action list. */
  lemma NoActionAims(actions: seq<FileAction>, i: nat, p: Path)
    requires i < |actions|
    requires Dest(actions[i]) != Some(p)
    requires forall j :: 0 <= j < |actions| && j != i ==> Dest(actions[j]) != Some(p)
    ensures forall a :: a in actions ==> Dest(a) != Some(p)
  {
    forall a | a in actions
      ensures Dest(a) != Some(p)
    {
      var j :| 0 <= j < |actions| && actions[j] == a;
    }
  }

  /**
    A conflicting file keeps the user's content unless another conflict's
    sidecar lands on it; its sidecar, when the copy succeeds and no
    generated file has that name, holds the generated content.
   */
  lemma ApplyConflict(generated: Tree, walk: seq<Path>, targetDir: string, target: Tree,
                      previous: Option<Manifest>, force: bool, unwritable: set<Path>, i: nat)
    requires IsWalk(walk, generated)
    requires i < |walk|
    requires CompareTrees(generated, walk, targetDir, target, previous, force).actions[i].kind == Conflict
    requires !SidecarLandsOn(generated, walk, targetDir, target, previous, force, i)
    ensures var after := ApplyPlan(CompareTrees(generated, walk, targetDir, target, previous, force),
                                   generated, targetDir, target, unwritable).0;
      && walk[i] in after && after[walk[i]] == target[walk[i]]
      && (SidecarName(walk[i]) !in generated && SidecarName(walk[i]) !in unwritable ==>
            SidecarName(walk[i]) in after && after[SidecarName(walk[i])] == generated[walk[i]])
  {
    var plan := CompareTrees(generated, walk, targetDir, target, previous, force);
    var rel := walk[i];
    ApplyPlanIsFold(plan, generated, targetDir, target, unwritable);
    NoOtherWriter(generated, walk, targetDir, target, previous, force, i, rel);
    assert Dest(plan.actions[i]) == Some(SidecarName(rel));
    assert SidecarName(rel) != rel;
    NoActionAims(plan.actions, i, rel);
    UntargetedPathKept(InitialState(plan, targetDir, target), plan.actions, generated, unwritable, rel);
    if SidecarName(rel) !in generated && SidecarName(rel) !in unwritable {
      NoOtherWriter(generated, walk, targetDir, target, previous, force, i, SidecarName(rel));
      LastWriterWins(InitialState(plan, targetDir, target), plan.actions, generated, unwritable, i);
    }
  }

  /** A generated tree holding both `q` and its sidecar name, and a target where the user edited both. */
  const ClashGenerated: Tree := map["q" := [1 as bv8], "q.foundry-new" := [2 as bv8]]
  const ClashTarget: Tree := map["q" := [3 as bv8], "q.foundry-new" := [4 as bv8]]
  const ClashWalk: seq<Path> := ["q", "q.foundry-new"]

  /** The walk is the sorted listing of the generated tree, `q` first. */
  lemma ClashWalkIsSorted()
    ensures StrictlySorted(ClashWalk) && IsWalk(ClashWalk, ClashGenerated)
  {
    assert Below("q", "q.foundry-new") by {
      assert "q"[1..] == "" && "q.foundry-new"[1..] == ".foundry-new";
    }
    assert "q" != "q.foundry-new" by {
      assert |"q"| != |"q.foundry-new"|;
    }
    assert SidecarName("q") == "q.foundry-new";
    assert |ClashWalk[0]| == 1 && |ClashWalk[1]| == 13;
    assert |SidecarName(ClashWalk[0])| == 13 && |SidecarName(ClashWalk[1])| == 25;
    forall i, j | 0 <= i < |ClashWalk| && 0 <= j < |ClashWalk| && ClashWalk[j] == SidecarName(ClashWalk[i])
      ensures i < j
    {
    }
  }

  /** Both files are conflicts; only the first one's sidecar aims at `q.foundry-new`. */
  lemma ClashPlan()
    ensures IsWalk(ClashWalk, ClashGenerated)
    ensures var plan := CompareTrees(ClashGenerated, ClashWalk, "", ClashTarget, None, false);
      && plan.actions[0].kind == Conflict && Dest(plan.actions[0]) == Some("q.foundry-new")
      && plan.actions[1].kind == Conflict && Dest(plan.actions[1]) != Some("q.foundry-new")
  {
    ClashWalkIsSorted();
    var plan := CompareTrees(ClashGenerated, ClashWalk, "", ClashTarget, None, false);
    assert SidecarName("q") == "q.foundry-new";
    assert SidecarName("q.foundry-new") != "q.foundry-new" by {
      assert |SidecarName("q.foundry-new")| != |"q.foundry-new"|;
    }
    assert plan.actions[0] == Classify("q", ClashGenerated, ClashTarget, {}, None, false);
    assert plan.actions[1] == Classify("q.foundry-new", ClashGenerated, ClashTarget, {}, None, false);
  }

  /**
    The sidecar clash as the code stands. The generator produces `q` and
    `q.foundry-new`, and the user has edited both. The sorted walk visits
    `q` first. `q` is a conflict, so its sidecar copy lands on
    `q.foundry-new`. That replaces the user's edited file, although
    `q.foundry-new` is itself classified as a conflict, whose original
    should be kept.
   */
  lemma SidecarClobbersUserFile()
    ensures StrictlySorted(ClashWalk) && IsWalk(ClashWalk, ClashGenerated)
    ensures CompareTrees(ClashGenerated, ClashWalk, "", ClashTarget, None, false).actions[1].kind == Conflict
    ensures var after := ApplyPlan(CompareTrees(ClashGenerated, ClashWalk, "", ClashTarget, None, false),
                                   ClashGenerated, "", ClashTarget, {}).0;
      && "q.foundry-new" in after
      && after["q.foundry-new"] == ClashGenerated["q"]
      && after["q.foundry-new"] != ClashTarget["q.foundry-new"]
  {
    ClashWalkIsSorted();
    ClashPlan();
    var plan := CompareTrees(ClashGenerated, ClashWalk, "", ClashTarget, None, false);
    assert plan.actions[0].relPath == "q";
    SecondAimsElsewhere(plan, ClashGenerated, "", ClashTarget, {});
  }

  /** A target where the user edited `q` and left `q.foundry-new` as generated. */
  const UnchangedClashTarget: Tree := map["q" := [3 as bv8], "q.foundry-new" := [2 as bv8]]

  /** `q` is a conflict whose sidecar aims at `q.foundry-new`, which is itself unchanged and not written. */
  lemma UnchangedClashPlan()
    ensures IsWalk(ClashWalk, ClashGenerated)
    ensures var plan := CompareTrees(ClashGenerated, ClashWalk, "", UnchangedClashTarget, None, false);
      && plan.actions[0].kind == Conflict && Dest(plan.actions[0]) == Some("q.foundry-new")
      && plan.actions[1].kind == Unchanged && Dest(plan.actions[1]) == None
  {
    ClashWalkIsSorted();
    var plan := CompareTrees(ClashGenerated, ClashWalk, "", UnchangedClashTarget, None, false);
    assert SidecarName("q") == "q.foundry-new";
    assert plan.actions[0] == Classify("q", ClashGenerated, UnchangedClashTarget, {}, None, false);
    assert plan.actions[1] == Classify("q.foundry-new", ClashGenerated, UnchangedClashTarget, {}, None, false);
  }

  /**
    The sidecar clash on an unchanged file. The user edited `q` but left
    `q.foundry-new` byte-identical to the generated one, so it is classified
    unchanged and counted as such; yet `q`'s sidecar copy replaces its
    content with the generated `q`.
   */
  lemma SidecarOverwritesUnchangedFile()
    ensures CompareTrees(ClashGenerated, ClashWalk, "", UnchangedClashTarget, None, false).actions[1].kind == Unchanged
    ensures var after := ApplyPlan(CompareTrees(ClashGenerated, ClashWalk, "", UnchangedClashTarget, None, false),
                                   ClashGenerated, "", UnchangedClashTarget, {}).0;
      && "q.foundry-new" in after
      && after["q.foundry-new"] == ClashGenerated["q"]
      && after["q.foundry-new"] != UnchangedClashTarget["q.foundry-new"]
  {
    UnchangedClashPlan();
    var plan := CompareTrees(ClashGenerated, ClashWalk, "", UnchangedClashTarget, None, false);
    assert plan.actions[0].relPath == "q";
    SecondAimsElsewhere(plan, ClashGenerated, "", UnchangedClashTarget, {});
  }

  /** In a two-action plan whose second action aims elsewhere, the first action's successful write is what stays. */
  lemma SecondAimsElsewhere(plan: OverlayPlan, generated: Tree, targetDir: string, target: Tree, unwritable: set<Path>)
    requires |plan.actions| == 2
    requires WriteOk(plan.actions[0], generated, unwritable)
    requires Dest(plan.actions[1]) != Dest(plan.actions[0])
    ensures var after := ApplyPlan(plan, generated, targetDir, target, unwritable).0;
      && Dest(plan.actions[0]).value in after
      && after[Dest(plan.actions[0]).value] == generated[plan.actions[0].relPath]
  {
    ApplyPlanIsFold(plan, generated, targetDir, target, unwritable);
    LastWriterWins(InitialState(plan, targetDir, target), plan.actions, generated, unwritable, 0);
  }

  /** A differing file in force mode takes the generated content, unless its copy fails. */
  lemma ApplyForceOverwrite(generated: Tree, walk: seq<Path>, targetDir: string, target: Tree,
                            previous: Option<Manifest>, force: bool, unwritable: set<Path>, i: nat)
    requires IsWalk(walk, generated)
    requires i < |walk|
    requires CompareTrees(generated, walk, targetDir, target, previous, force).actions[i].kind == ForceOverwrite
    ensures var after := ApplyPlan(CompareTrees(generated, walk, targetDir, target, previous, force),
                                   generated, targetDir, target, unwritable).0;
      walk[i] in after && after[walk[i]] == (if walk[i] in unwritable then target[walk[i]] else generated[walk[i]])
  {
    var plan := CompareTrees(generated, walk, targetDir, target, previous, force);
    var rel := walk[i];
    NoLaterWriter(generated, walk, targetDir, target, previous, force, i);
    ApplyPlanIsFold(plan, generated, targetDir, target, unwritable);
    if rel !in unwritable {
      LastWriterWins(InitialState(plan, targetDir, target), plan.actions, generated, unwritable, i);
    } else {
      assert rel !in Destinations(Succeeded(plan.actions, generated, unwritable));
    }
  }

  /** Paths outside the plan's reach keep their presence and content. */
  lemma ApplyLeavesOtherPaths(generated: Tree, walk: seq<Path>, targetDir: string, target: Tree,
                              previous: Option<Manifest>, force: bool, unwritable: set<Path>, p: Path)
    requires IsWalk(walk, generated)
    requires p !in generated && !IsSidecarOf(p, generated)
    ensures var after := ApplyPlan(CompareTrees(generated, walk, targetDir, target, previous, force),
                                   generated, targetDir, target, unwritable).0;
      && (p in after <==> p in target)
      && (p in target ==> after[p] == target[p])
  {
    var plan := CompareTrees(generated, walk, targetDir, target, previous, force);
    NoWriterOutsidePlan(generated, walk, targetDir, target, previous, force, p);
    ApplyPlanIsFold(plan, generated, targetDir, target, unwritable);
    UntargetedPathKept(InitialState(plan, targetDir, target), plan.actions, generated, unwritable, p);
  }

  /** After an apply in which no copy fails, every generated file is present in the target. */
  lemma CleanApplyCoversGenerated(generated: Tree, walk: seq<Path>, targetDir: string, target: Tree,
                                  previous: Option<Manifest>, force: bool)
    requires IsWalk(walk, generated)
    ensures var after := ApplyPlan(CompareTrees(generated, walk, targetDir, target, previous, force),
                                   generated, targetDir, target, {}).0;
      forall p :: p in generated ==> p in after
  {
    var plan := CompareTrees(generated, walk, targetDir, target, previous, force);
    var written := Destinations(Succeeded(plan.actions, generated, {}));
    var after := ApplyPlan(plan, generated, targetDir, target, {}).0;
    assert after.Keys == target.Keys + (set p | p in written);
    forall p | p in generated
      ensures p in after
    {
      var i :| 0 <= i < |walk| && walk[i] == p;
      if p !in target {
        var a := plan.actions[i];
        assert a.kind == Create && a.relPath == p;
        assert WriteOk(a, generated, {});
        assert a in Succeeded(plan.actions, generated, {});
        assert p in written;
      }
    }
  }

  /** A second comparison after a clean apply finds nothing left to create. */
  lemma SecondRunHasNoCreates(generated: Tree, walk: seq<Path>, targetDir: string, target: Tree,
                              previous: Option<Manifest>, force: bool, force2: bool)
    requires IsWalk(walk, generated)
    ensures var after := ApplyPlan(CompareTrees(generated, walk, targetDir, target, previous, force),
                                   generated, targetDir, target, {}).0;
      |CompareTrees(generated, walk, targetDir, after, previous, force2).Creates()| == 0
  {
    var after := ApplyPlan(CompareTrees(generated, walk, targetDir, target, previous, force),
                           generated, targetDir, target, {}).0;
    CleanApplyCoversGenerated(generated, walk, targetDir, target, previous, force);
    NoCreatesWhenCovered(generated, walk, targetDir, after, previous, force2);
  }

  /** A target holding every generated file yields a plan without creates. */
  lemma NoCreatesWhenCovered(generated: Tree, walk: seq<Path>, targetDir: string, target: Tree,
                             previous: Option<Manifest>, force: bool)
    requires IsWalk(walk, generated)
    requires forall p :: p in generated ==> p in target
    ensures |CompareTrees(generated, walk, targetDir, target, previous, force).Creates()| == 0
  {
    var plan := CompareTrees(generated, walk, targetDir, target, previous, force);
    forall j | 0 <= j < |plan.actions|
      ensures plan.actions[j].kind != Create
    {
      assert walk[j] in generated;
    }
    NoneOfKind(plan.actions, Create);
  }

  lemma {:induction false} NoneOfKind(actions: seq<FileAction>, k: ActionKind)
    requires forall i :: 0 <= i < |actions| ==> actions[i].kind != k
    ensures OfKind(actions, k) == []
    decreases |actions|
  {
    if |actions| > 0 {
      NoneOfKind(actions[1..], k);
    }
  }

  /**
    What a second comparison after a clean apply finds for one file:
    created, overwritten and unchanged files are now unchanged, and a
    conflict is still a conflict (or a forced overwrite in force mode).
    A file left alone must not have a conflict's sidecar land on it.
   */
  lemma SecondRunSettles(generated: Tree, walk: seq<Path>, targetDir: string, target: Tree,
                         previous: Option<Manifest>, force: bool, force2: bool, i: nat)
    requires IsWalk(walk, generated)
    requires i < |walk|
    requires CompareTrees(generated, walk, targetDir, target, previous, force).actions[i].kind != Create ==>
      !SidecarLandsOn(generated, walk, targetDir, target, previous, force, i)
    ensures var first := CompareTrees(generated, walk, targetDir, target, previous, force);
      var after := ApplyPlan(first, generated, targetDir, target, {}).0;
      var second := CompareTrees(generated, walk, targetDir, after, previous, force2);
      && (first.actions[i].kind != Conflict ==> second.actions[i].kind == Unchanged)
      && (first.actions[i].kind == Conflict ==>
            second.actions[i].kind == (if force2 then ForceOverwrite else Conflict))
  {
    var first := CompareTrees(generated, walk, targetDir, target, previous, force);
    match first.actions[i].kind
    case Create => ApplyCreate(generated, walk, targetDir, target, previous, force, {}, i);
    case Unchanged => ApplyUnchanged(generated, walk, targetDir, target, previous, force, {}, i);
    case Conflict =>
      assert first.actions[i] in first.Conflicts();
      ApplyConflict(generated, walk, targetDir, target, previous, force, {}, i);
    case ForceOverwrite => ApplyForceOverwrite(generated, walk, targetDir, target, previous, force, {}, i);
  }

  /**
    Idempotence: when the first run had no conflicts and nothing failed,
    a second run in the same mode creates nothing and finds no
    conflicts: every file is unchanged.
   */
  lemma SecondRunIsIdle(generated: Tree, walk: seq<Path>, targetDir: string, target: Tree,
                        previous: Option<Manifest>, force: bool)
    requires IsWalk(walk, generated)
    requires !CompareTrees(generated, walk, targetDir, target, previous, force).HasConflicts()
    ensures var after := ApplyPlan(CompareTrees(generated, walk, targetDir, target, previous, force),
                                   generated, targetDir, target, {}).0;
      var second := CompareTrees(generated, walk, targetDir, after, previous, force);
      && |second.Creates()| == 0
      && |second.Conflicts()| == 0
      && |second.UnchangedActions()| == |walk|
  {
    var first := CompareTrees(generated, walk, targetDir, target, previous, force);
    var after := ApplyPlan(first, generated, targetDir, target, {}).0;
    var second := CompareTrees(generated, walk, targetDir, after, previous, force);
    NoConflictsLandNothing(generated, walk, targetDir, target, previous, force);
    forall i | 0 <= i < |walk|
      ensures second.actions[i].kind == Unchanged
    {
      assert walk[i] in generated;
      SecondRunSettles(generated, walk, targetDir, target, previous, force, force, i);
    }
    AllOfKind(second.actions, Unchanged);
  }

  /** When every action has kind `k`, the view of kind `k` is the whole sequence and the others are empty. */
  lemma {:induction false} AllOfKind(actions: seq<FileAction>, k: ActionKind)
    requires forall i :: 0 <= i < |actions| ==> actions[i].kind == k
    ensures OfKind(actions, k) == actions
    ensures forall k' :: k' != k ==> OfKind(actions, k') == []
    decreases |actions|
  {
    if |actions| > 0 {
      AllOfKind(actions[1..], k);
      assert actions[0].kind == k;
      assert OfKind(actions, k) == [actions[0]] + OfKind(actions[1..], k);
      assert [actions[0]] + actions[1..] == actions;
      forall k' | k' != k
        ensures OfKind(actions, k') == []
      {
        assert OfKind(actions, k') == OfKind(actions[1..], k');
      }
    }
  }

  /** Provenance of a differing file: "prior run" exactly when some stage of the manifest recorded it. */
  lemma ReasonFromManifest(generated: Tree, walk: seq<Path>, targetDir: string, target: Tree,
                           m: Manifest, force: bool, i: nat)
    requires IsWalk(walk, generated)
    requires i < |walk|
    requires walk[i] in generated && walk[i] in target && generated[walk[i]] != target[walk[i]]
    ensures var reason := CompareTrees(generated, walk, targetDir, target, Some(m), force).actions[i].reason;
      && (reason == PriorRunReason <==> exists k :: k in m.stages && walk[i] in m.stages[k].wrote)
      && (reason == UnmanagedReason <==> !exists k :: k in m.stages && walk[i] in m.stages[k].wrote)
  {
  }

  /** A corrupt manifest still lets the comparison run; differing files then say no manifest was available. */
  lemma CorruptManifestFallback(generated: Tree, walk: seq<Path>, targetDir: string, target: Tree, force: bool)
    requires IsWalk(walk, generated)
    ensures var plan := CompareTrees(generated, walk, targetDir, target, LoadPreviousManifest(Unparsable), force);
      forall a :: a in plan.actions && (a.kind == Conflict || a.kind == ForceOverwrite) ==> a.reason == NoManifestReason
  {
    var plan := CompareTrees(generated, walk, targetDir, target, LoadPreviousManifest(Unparsable), force);
    forall a | a in plan.actions && (a.kind == Conflict || a.kind == ForceOverwrite)
      ensures a.reason == NoManifestReason
    {
      var i :| 0 <= i < |plan.actions| && plan.actions[i] == a;
    }
  }
}
