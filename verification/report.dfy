/**
  The report renderer: the text printed after an applied overlay and the
  text printed instead of applying in dry-run mode.  Both are pure
  functions of the plan.
 */
module Report {
  import opened Wrappers
  import opened Models
  import opened Text

  const ForceHeader: string := "Overlay applied (force mode):"
  const PlainHeader: string := "Overlay applied:"
  const NoneLine: string := "  (none)"
  const DryRunFooter: string := "No files were written (dry-run mode)."
  const OrphanTip: string := "    Tip: This file was generated by a prior run but is not in the current composition."

  /** An optional path as an f-string prints it. */
  function SidecarText(p: Option<Path>): string
  {
    if p.Some? then p.value else "None"
  }

  /** One line per item: the marker, then the item, then the tail. */
  function Bullets(marker: string, items: seq<string>, tail: string): (r: seq<string>)
    ensures |r| == |items|
    ensures forall i :: 0 <= i < |items| ==> r[i] == marker + items[i] + tail
    ensures forall x :: x in items ==> marker + x + tail in r
  {
    seq(|items|, i requires 0 <= i < |items| => marker + items[i] + tail)
  }

  function RelPaths(actions: seq<FileAction>): (r: seq<Path>)
    ensures |r| == |actions|
    ensures forall i :: 0 <= i < |actions| ==> r[i] == actions[i].relPath
  {
    seq(|actions|, i requires 0 <= i < |actions| => actions[i].relPath)
  }

  function Count(n: nat): string
  {
    NatToString(n) + " file(s)"
  }

  // ---------------------------------------------------------------------
  // Applied report
  // ---------------------------------------------------------------------

  function ConflictArrows(conflicts: seq<FileAction>): (r: seq<string>)
    ensures |r| == |conflicts|
    ensures forall c :: c in conflicts ==> "  ! " + c.relPath + " -> " + SidecarText(c.sidecarPath) in r
  {
    var r := seq(|conflicts|, i requires 0 <= i < |conflicts| =>
      "  ! " + conflicts[i].relPath + " -> " + SidecarText(conflicts[i].sidecarPath));
    assert forall i :: 0 <= i < |conflicts| ==>
      "  ! " + conflicts[i].relPath + " -> " + SidecarText(conflicts[i].sidecarPath) == r[i];
    r
  }

  function TotalLine(creates: nat, kept: nat, conflicts: nat, forced: nat): (r: string)
    ensures StartsWith(r, "Total files: " + NatToString(creates + kept + conflicts + forced) + " (")
  {
    var head := "Total files: " + NatToString(creates + kept + conflicts + forced) + " (";
    head + NatToString(creates) + " created, " + NatToString(kept) + " unchanged"
    + (if conflicts > 0 then ", " + NatToString(conflicts) + " conflicts" else "")
    + (if forced > 0 then ", " + NatToString(forced) + " overwritten" else "")
    + ")"
  }

  /** The count block at the top of the applied report. */
  function CountLines(plan: OverlayPlan): (r: seq<string>)
    ensures |r| >= 4
    ensures r[0] == (if |plan.ForceOverwrites()| > 0 then ForceHeader else PlainHeader)
    ensures r[1] == "  Created: " + Count(|plan.Creates()|)
    ensures r[2] == "  Unchanged: " + Count(|plan.UnchangedActions()|)
    ensures |plan.ForceOverwrites()| > 0 ==> r[3] == "  Overwritten: " + Count(|plan.ForceOverwrites()|)
    ensures |plan.ForceOverwrites()| == 0 ==> StartsWith(r[3], "  Conflicts: " + Count(|plan.Conflicts()|))
  {
    var forced := plan.ForceOverwrites();
    var conflicts := plan.Conflicts();
    [ if |forced| > 0 then ForceHeader else PlainHeader,
      "  Created: " + Count(|plan.Creates()|),
      "  Unchanged: " + Count(|plan.UnchangedActions()|),
      if |forced| > 0 then "  Overwritten: " + Count(|forced|)
      else "  Conflicts: " + Count(|conflicts|) + (if |conflicts| > 0 then " -- sidecars written as .foundry-new" else "")
    ]
    + (if |plan.orphans| > 0 then ["  Orphans: " + Count(|plan.orphans|)] else [])
  }

  /** The conflict, overwrite and orphan detail blocks of the applied report. */
  function DetailLines(plan: OverlayPlan): (r: seq<string>)
    ensures forall c :: c in plan.Conflicts() ==> "  ! " + c.relPath + " -> " + SidecarText(c.sidecarPath) in r
    ensures forall f :: f in plan.ForceOverwrites() ==> "  ! " + f.relPath + " (overwritten)" in r
    ensures forall o :: o in plan.orphans ==> "  ? " + o in r
  {
    var conflicts := plan.Conflicts();
    var forced := plan.ForceOverwrites();
    var conflictDetails := if |conflicts| > 0 then ["", "Conflict details:"] + ConflictArrows(conflicts) else [];
    var overwriteDetails :=
      if |forced| > 0 then ["", "Overwrite details:"] + Bullets("  ! ", RelPaths(forced), " (overwritten)") else [];
    var orphanDetails :=
      if |plan.orphans| > 0 then
        ["", "Orphaned files (from prior run, not in current composition):"] + Bullets("  ? ", plan.orphans, "")
      else [];
    assert forall o :: o in plan.orphans ==> "  ? " + o == "  ? " + o + "";
    assert forall f :: f in forced ==> f.relPath in RelPaths(forced) by {
      forall f | f in forced
        ensures f.relPath in RelPaths(forced)
      {
        var i :| 0 <= i < |forced| && forced[i] == f;
        assert RelPaths(forced)[i] == f.relPath;
      }
    }
    conflictDetails + overwriteDetails + orphanDetails
  }

  /**
    The lines of `format_overlay_report`.  The force-mode header and the
    "Overwritten" count replace the plain header and the "Conflicts" count
    exactly when the plan overwrites something; every conflict, overwrite
    and orphan gets its own line; the total counts every action of the plan.
   */
  function OverlayReportLines(plan: OverlayPlan): (lines: seq<string>)
    ensures |lines| >= 6
    ensures lines[0] == ForceHeader <==> |plan.ForceOverwrites()| > 0
    ensures lines[0] == PlainHeader <==> |plan.ForceOverwrites()| == 0
    ensures lines[1] == "  Created: " + Count(|plan.Creates()|)
    ensures lines[2] == "  Unchanged: " + Count(|plan.UnchangedActions()|)
    ensures |plan.ForceOverwrites()| > 0 ==> lines[3] == "  Overwritten: " + Count(|plan.ForceOverwrites()|)
    ensures |plan.ForceOverwrites()| == 0 ==> StartsWith(lines[3], "  Conflicts: " + Count(|plan.Conflicts()|))
    ensures forall c :: c in plan.Conflicts() ==> "  ! " + c.relPath + " -> " + SidecarText(c.sidecarPath) in lines
    ensures forall f :: f in plan.ForceOverwrites() ==> "  ! " + f.relPath + " (overwritten)" in lines
    ensures forall o :: o in plan.orphans ==> "  ? " + o in lines
    ensures StartsWith(lines[|lines| - 1], "Total files: " + NatToString(|plan.actions|) + " (")
    ensures lines[|lines| - 1]
      == TotalLine(|plan.Creates()|, |plan.UnchangedActions()|, |plan.Conflicts()|, |plan.ForceOverwrites()|)
  {
    var counts := CountLines(plan);
    var details := DetailLines(plan);
    var total := TotalLine(|plan.Creates()|, |plan.UnchangedActions()|, |plan.Conflicts()|, |plan.ForceOverwrites()|);
    OfKindPartition(plan.actions);
    assert ForceHeader != PlainHeader by {
      assert |ForceHeader| != |PlainHeader|;
    }
    var lines := counts + details + ["", total];
    Framed(counts, details, ["", total]);
    assert lines[0] == counts[0] && lines[1] == counts[1] && lines[2] == counts[2] && lines[3] == counts[3];
    lines
  }

  /** Lines framed by a head and a tail keep the head in front, the middle's lines, and the tail's last line last. */
  lemma Framed(head: seq<string>, middle: seq<string>, tail: seq<string>)
    ensures forall i :: 0 <= i < |head| ==> (head + middle + tail)[i] == head[i]
    ensures forall x :: x in middle ==> x in head + middle + tail
    ensures |tail| > 0 ==> (head + middle + tail)[|head + middle + tail| - 1] == tail[|tail| - 1]
  {
  }

  /**
    `format_overlay_report`: the lines joined by newlines. The text opens
    with the header of its mode and closes with the total line, whose
    count is the number of actions in the plan.
   */
  function FormatOverlayReport(plan: OverlayPlan): (r: string)
    ensures StartsWith(r, ForceHeader) <==> |plan.ForceOverwrites()| > 0
    ensures |plan.ForceOverwrites()| == 0 ==> StartsWith(r, PlainHeader)
    ensures EndsWith(r, TotalLine(|plan.Creates()|, |plan.UnchangedActions()|, |plan.Conflicts()|, |plan.ForceOverwrites()|))
    ensures |plan.Creates()| + |plan.UnchangedActions()| + |plan.Conflicts()| + |plan.ForceOverwrites()| == |plan.actions|
  {
    var lines := OverlayReportLines(plan);
    var text := JoinLines(lines);
    JoinLinesBounds(lines);
    HeaderDecidesMode(text, lines[0]);
    OfKindPartition(plan.actions);
    text
  }

  /** A text opening with the plain header does not open with the force header, and vice versa. */
  lemma HeaderDecidesMode(text: string, first: string)
    requires first == ForceHeader || first == PlainHeader
    requires StartsWith(text, first)
    ensures StartsWith(text, ForceHeader) <==> first == ForceHeader
  {
    if first == PlainHeader {
      assert text[|PlainHeader| - 1] == ':';
      assert ForceHeader[|PlainHeader| - 1] != ':';
    }
  }

  // ---------------------------------------------------------------------
  // Dry-run report
  // ---------------------------------------------------------------------

  /** A blank line, the header, then the body, or "(none)" when the body is empty. */
  function Section(header: string, body: seq<string>): (r: seq<string>)
    requires |body| > 0 ==> |body[0]| > 2 && body[0][2] != '('
    ensures |r| == 2 + (if |body| == 0 then 1 else |body|)
    ensures r[0] == "" && r[1] == header
    ensures r[2] == NoneLine <==> |body| == 0
    ensures |body| > 0 ==> r[2..] == body
  {
    if |body| == 0 then ["", header, NoneLine]
    else
      assert NoneLine[2] == '(';
      ["", header] + body
  }

  /** Three lines per conflict: the file, its reason, and the sidecar that would be written. */
  function ConflictEntries(conflicts: seq<FileAction>): (r: seq<string>)
    ensures |r| == 3 * |conflicts|
    ensures forall j :: 0 <= j < |conflicts| ==>
      && r[3 * j] == "  ! " + conflicts[j].relPath
      && r[3 * j + 1] == "    Reason: " + conflicts[j].reason
      && r[3 * j + 2] == "    Would write sidecar: " + SidecarText(conflicts[j].sidecarPath)
    decreases |conflicts|
  {
    if |conflicts| == 0 then []
    else
      var c := conflicts[0];
      ["  ! " + c.relPath, "    Reason: " + c.reason, "    Would write sidecar: " + SidecarText(c.sidecarPath)]
      + ConflictEntries(conflicts[1..])
  }

  /** Two lines per orphan: the path and the tip. */
  function OrphanEntries(orphans: seq<Path>): (r: seq<string>)
    ensures |r| == 2 * |orphans|
    ensures forall j :: 0 <= j < |orphans| ==> r[2 * j] == "  ? " + orphans[j] && r[2 * j + 1] == OrphanTip
    decreases |orphans|
  {
    if |orphans| == 0 then []
    else ["  ? " + orphans[0], OrphanTip] + OrphanEntries(orphans[1..])
  }

  /** The number of lines a section body takes, "(none)" included. */
  function BodySize(n: nat): nat
  {
    if n == 0 then 1 else n
  }

  function CreateSection(plan: OverlayPlan): (r: seq<string>)
    ensures |r| == 2 + BodySize(|plan.Creates()|)
    ensures r[1] == "Would create (" + Count(|plan.Creates()|) + "):"
    ensures r[2] == NoneLine <==> |plan.Creates()| == 0
    ensures forall a :: a in plan.Creates() ==> "  + " + a.relPath in r
  {
    var creates := plan.Creates();
    var body := Bullets("  + ", RelPaths(creates), "");
    assert |body| > 0 ==> body[0][2] == '+';
    assert forall a :: a in creates ==> "  + " + a.relPath in body by {
      forall a | a in creates
        ensures "  + " + a.relPath in body
      {
        var i :| 0 <= i < |creates| && creates[i] == a;
        assert body[i] == "  + " + a.relPath + "";
        assert "  + " + a.relPath + "" == "  + " + a.relPath;
      }
    }
    Section("Would create (" + Count(|creates|) + "):", body)
  }

  function SkipSection(plan: OverlayPlan): (r: seq<string>)
    ensures |r| == 2 + BodySize(|plan.UnchangedActions()|)
    ensures r[1] == "Would skip -- unchanged (" + Count(|plan.UnchangedActions()|) + "):"
    ensures r[2] == NoneLine <==> |plan.UnchangedActions()| == 0
    ensures forall a :: a in plan.UnchangedActions() ==> "  = " + a.relPath in r
  {
    var kept := plan.UnchangedActions();
    var body := Bullets("  = ", RelPaths(kept), "");
    assert |body| > 0 ==> body[0][2] == '=';
    assert forall a :: a in kept ==> "  = " + a.relPath in body by {
      forall a | a in kept
        ensures "  = " + a.relPath in body
      {
        var i :| 0 <= i < |kept| && kept[i] == a;
        assert body[i] == "  = " + a.relPath + "";
        assert "  = " + a.relPath + "" == "  = " + a.relPath;
      }
    }
    Section("Would skip -- unchanged (" + Count(|kept|) + "):", body)
  }

  function ConflictSection(plan: OverlayPlan): (r: seq<string>)
    ensures |r| == 2 + (if |plan.Conflicts()| == 0 then 1 else 3 * |plan.Conflicts()|)
    ensures r[1] == "Conflicts (" + Count(|plan.Conflicts()|) + "):"
    ensures r[2] == NoneLine <==> |plan.Conflicts()| == 0
    ensures forall j :: 0 <= j < |plan.Conflicts()| ==>
      && r[2 + 3 * j] == "  ! " + plan.Conflicts()[j].relPath
      && r[3 + 3 * j] == "    Reason: " + plan.Conflicts()[j].reason
      && r[4 + 3 * j] == "    Would write sidecar: " + SidecarText(plan.Conflicts()[j].sidecarPath)
  {
    var conflicts := plan.Conflicts();
    var body := ConflictEntries(conflicts);
    assert |body| > 0 ==> body[0][2] == '!';
    Section("Conflicts (" + Count(|conflicts|) + "):", body)
  }

  function OrphanSection(plan: OverlayPlan): (r: seq<string>)
    ensures |r| == 0 <==> |plan.orphans| == 0
    ensures forall o :: o in plan.orphans ==> "  ? " + o in r
  {
    if |plan.orphans| == 0 then []
    else
      var entries := OrphanEntries(plan.orphans);
      assert forall o :: o in plan.orphans ==> "  ? " + o in entries by {
        forall o | o in plan.orphans
          ensures "  ? " + o in entries
        {
          var j :| 0 <= j < |plan.orphans| && plan.orphans[j] == o;
          assert entries[2 * j] == "  ? " + o;
        }
      }
      ["", "Orphaned files (" + Count(|plan.orphans|) + "):"] + entries
  }

  function SummaryLine(plan: OverlayPlan): string
  {
    "Summary: " + NatToString(|plan.Creates()|) + " create, " + NatToString(|plan.UnchangedActions()|) + " unchanged"
    + ", " + NatToString(|plan.Conflicts()|) + " conflicts"
    + (if |plan.orphans| > 0 then ", " + NatToString(|plan.orphans|) + " orphan" else "")
  }

  /** A title line followed by three sections and a tail; each part is found at its own offset. */
  function Assemble(title: string, s1: seq<string>, s2: seq<string>, s3: seq<string>, tail: seq<string>): (r: seq<string>)
    ensures |r| == 1 + |s1| + |s2| + |s3| + |tail|
    ensures r[0] == title
    ensures forall k :: 0 <= k < |s1| ==> r[1 + k] == s1[k]
    ensures forall k :: 0 <= k < |s2| ==> r[1 + |s1| + k] == s2[k]
    ensures forall k :: 0 <= k < |s3| ==> r[1 + |s1| + |s2| + k] == s3[k]
    ensures forall k :: 0 <= k < |tail| ==> r[1 + |s1| + |s2| + |s3| + k] == tail[k]
  {
    [title] + (s1 + (s2 + (s3 + tail)))
  }

  /** The lines of `format_dry_run_report`, which always end by saying nothing was written. */
  function DryRunReportLines(plan: OverlayPlan): (lines: seq<string>)
    ensures |lines| >= 12
    ensures lines[0] == "Dry-run overlay report for: " + plan.targetDir
    ensures lines[|lines| - 1] == DryRunFooter
  {
    var tail := DryRunTail(plan);
    var lines := Assemble("Dry-run overlay report for: " + plan.targetDir,
                          CreateSection(plan), SkipSection(plan), ConflictSection(plan), tail);
    assert lines[|lines| - 1] == tail[|tail| - 1];
    lines
  }

  /** The orphan section, the summary line and the closing statement. */
  function DryRunTail(plan: OverlayPlan): (r: seq<string>)
    ensures |r| >= 3 && r[|r| - 1] == DryRunFooter
  {
    OrphanSection(plan) + ["", SummaryLine(plan), DryRunFooter]
  }

  /** The header and first body line of each assembled section, in terms of the sections alone. */
  lemma AssembledHeaders(title: string, s1: seq<string>, s2: seq<string>, s3: seq<string>, tail: seq<string>)
    requires |s1| >= 3 && |s2| >= 3 && |s3| >= 3
    ensures var r := Assemble(title, s1, s2, s3, tail);
      && r[2] == s1[1] && r[3] == s1[2]
      && r[1 + |s1| + 1] == s2[1] && r[1 + |s1| + 2] == s2[2]
      && r[1 + |s1| + |s2| + 1] == s3[1] && r[1 + |s1| + |s2| + 2] == s3[2]
  {
    var r := Assemble(title, s1, s2, s3, tail);
    assert r[1 + 1] == s1[1] && r[1 + 2] == s1[2];
  }

  /**
    Each of the three dry-run sections sits under its header and shows
    "(none)" exactly when it has no entries.
   */
  lemma DryRunMarksEmptySections(plan: OverlayPlan)
    ensures var lines := DryRunReportLines(plan);
      var c := BodySize(|plan.Creates()|);
      var u := BodySize(|plan.UnchangedActions()|);
      && lines[2] == "Would create (" + Count(|plan.Creates()|) + "):"
      && (lines[3] == NoneLine <==> |plan.Creates()| == 0)
      && lines[4 + c] == "Would skip -- unchanged (" + Count(|plan.UnchangedActions()|) + "):"
      && (lines[5 + c] == NoneLine <==> |plan.UnchangedActions()| == 0)
      && lines[6 + c + u] == "Conflicts (" + Count(|plan.Conflicts()|) + "):"
      && (lines[7 + c + u] == NoneLine <==> |plan.Conflicts()| == 0)
  {
    var title := "Dry-run overlay report for: " + plan.targetDir;
    AssembledHeaders(title, CreateSection(plan), SkipSection(plan), ConflictSection(plan), DryRunTail(plan));
  }

  /** A line of the third section, found at its offset in the assembled lines. */
  lemma AssembledThird(title: string, s1: seq<string>, s2: seq<string>, s3: seq<string>, tail: seq<string>, k: nat)
    requires k < |s3|
    ensures Assemble(title, s1, s2, s3, tail)[1 + |s1| + |s2| + k] == s3[k]
  {
  }

  /** Where the conflict section's entries land in the dry-run lines. */
  lemma ConflictSectionPlaced(plan: OverlayPlan, j: nat)
    requires j < |plan.Conflicts()|
    ensures var lines := DryRunReportLines(plan);
      var start := 7 + BodySize(|plan.Creates()|) + BodySize(|plan.UnchangedActions()|);
      && lines[start + 3 * j] == ConflictSection(plan)[2 + 3 * j]
      && lines[start + 3 * j + 1] == ConflictSection(plan)[3 + 3 * j]
      && lines[start + 3 * j + 2] == ConflictSection(plan)[4 + 3 * j]
  {
    var title := "Dry-run overlay report for: " + plan.targetDir;
    var s1, s2, s3, tail := CreateSection(plan), SkipSection(plan), ConflictSection(plan), DryRunTail(plan);
    assert DryRunReportLines(plan) == Assemble(title, s1, s2, s3, tail);
    assert 7 + BodySize(|plan.Creates()|) + BodySize(|plan.UnchangedActions()|) == 1 + |s1| + |s2| + 2;
    AssembledThird(title, s1, s2, s3, tail, 2 + 3 * j);
    AssembledThird(title, s1, s2, s3, tail, 3 + 3 * j);
    AssembledThird(title, s1, s2, s3, tail, 4 + 3 * j);
  }

  /** Every conflict is printed with its reason and the sidecar that would be written, in plan order. */
  lemma DryRunListsConflicts(plan: OverlayPlan)
    ensures var lines := DryRunReportLines(plan);
      var start := 7 + BodySize(|plan.Creates()|) + BodySize(|plan.UnchangedActions()|);
      forall j :: 0 <= j < |plan.Conflicts()| ==>
        && lines[start + 3 * j] == "  ! " + plan.Conflicts()[j].relPath
        && lines[start + 3 * j + 1] == "    Reason: " + plan.Conflicts()[j].reason
        && lines[start + 3 * j + 2] == "    Would write sidecar: " + SidecarText(plan.Conflicts()[j].sidecarPath)
  {
    forall j | 0 <= j < |plan.Conflicts()| {
      ConflictSectionPlaced(plan, j);
    }
  }

  /** Every file that would be created or skipped, and every orphan, has its own line. */
  lemma DryRunListsFiles(plan: OverlayPlan)
    ensures var lines := DryRunReportLines(plan);
      && (forall a :: a in plan.Creates() ==> "  + " + a.relPath in lines)
      && (forall a :: a in plan.UnchangedActions() ==> "  = " + a.relPath in lines)
      && (forall o :: o in plan.orphans ==> "  ? " + o in lines)
  {
  }

  /** `format_dry_run_report`: the lines joined by newlines; the text ends with the no-write statement. */
  function FormatDryRunReport(plan: OverlayPlan): (r: string)
    ensures EndsWith(r, DryRunFooter)
  {
    var lines := DryRunReportLines(plan);
    JoinLinesBounds(lines);
    JoinLines(lines)
  }
}
