# Overlay engine and resource paths, modelled in Dafny

This project models the overlay engine of Foundry's project generator
(`foundry_app/services/overlay.py`). It also models the resource-path rule in
`foundry_app/core/resources.py`.

In overlay mode, Foundry first generates a project into a temporary
directory. It then compares every generated file with the existing target
directory and classifies each one:

- **create**: the file is new;
- **unchanged**: the content is byte-identical;
- **conflict**: the content differs, so a `.foundry-new` sidecar is written
  next to the user's file;
- **force overwrite**: the content differs and force mode is on.

Differing files get a provenance reason taken from the previous run's
manifest. After the comparison, the plan is either applied or rendered as a
dry-run report. Files recorded by the previous manifest that the new
generation no longer produces are reported as orphans.

## How the model is built

- **Directory trees.** A tree is a finite map from relative path to byte
  content (`Models.Tree`). The generated tree comes with `walk`, the order in
  which the directory walk visits its files (`Compare.IsWalk`): every
  generated path appears once, and a file comes before its sidecar name
  (`q` before `q.foundry-new`), as in sorted path order.
- **Manifests.** A manifest maps stage names to the paths that stage wrote.
  Reading `ai/generated/manifest.json` is reduced to its three outcomes:
  missing, unparsable or parsed.
- **The plan and the summary.** These are immutable datatypes. The
  `creates`/`unchanged`/`conflicts`/`force_overwrites` views are filters on
  the action list (`Models.OfKind`).
- **Applying a plan.** `apply_plan` is a left fold over the actions
  (`Apply.ApplyActions`). It returns the new target tree and the summary.
- **Failed copies.** An `OSError` from `copy2` is modelled by a set
  `unwritable` of destination paths whose copy fails. A copy whose source is
  not in the generated tree fails too. A failed copy is not counted, as in
  `apply_plan`, and the model takes it to leave the destination untouched
  (see "Left out"). Because failure is keyed by destination, all copies
  to one path in a run share one outcome, whereas `copy2` can fail on one
  call and succeed on another.
- **Python truthiness.** A conflict without a sidecar path is still counted
  but writes nothing, matching the `if action.sidecar_path:` test.
- **Sorting.** `sorted` on strings is code-point lexicographic order
  (`Order.Below`). A sorted list of a set is unique (`Order.SortedUnique`).
- **Resource paths.** A filesystem path is its `PurePosixPath.parts`
  component list. The filesystem is the set of paths that are regular files.
  The project root and the bundled-resources directory are parameters.

**Sidecar clash.** A conflict on `q` writes `q.foundry-new`. If the generator
also produced a file named `q.foundry-new`, that file's own action and `q`'s
sidecar aim at the same target path. The walk visits `q` first. A create or
forced overwrite of `q.foundry-new` therefore comes last and still lands
its own generated bytes. A file that is left alone is different. If
`q.foundry-new` is a conflict, or is unchanged, the sidecar copy of `q`
replaces the user's content (see "Findings"). The guarantees for unchanged
and conflicting files therefore assume that no conflict's sidecar lands on
them (`OverlayProperties.SidecarLandsOn`). Created and force-overwritten
files and the idempotence lemma need no such assumption.

## Model

| member | source | states |
|---|---|---|
| ManifestStore.LoadPreviousManifest | foundry_app/services/overlay.py:30-43 | A manifest is returned exactly when the file exists and parses, and it is the parsed one; a missing or corrupt file gives None. |
| ManifestStore.CollectAllWrotePaths | foundry_app/services/overlay.py:46-51 | A path is in the result exactly when some stage of the manifest lists it in `wrote`. |
| ManifestStore.CollectAllWrotePathsUnion | foundry_app/services/overlay.py:46-51 | For manifests with disjoint stage names, collecting over the merged stages gives the union of the two collections. |
| ManifestStore.CollectAllWrotePathsSingle | foundry_app/services/overlay.py:46-51 | A one-stage manifest yields exactly the set of paths that stage wrote. |
| Compare.FilesIdentical | foundry_app/services/overlay.py:336-338 | True exactly when both byte strings have the same length and agree at every position. |
| Compare.ConflictReason | foundry_app/services/overlay.py:341-358 | Gives the "prior run" reason iff there is a manifest and it recorded the path, the "not generated by Foundry" reason iff there is a manifest that did not record it, and the "no prior manifest" reason iff there is no manifest. |
| Compare.Classify | foundry_app/services/overlay.py:85-112 | A path absent from the target is a create, identical content is unchanged, and differing content is a force overwrite in force mode and a conflict otherwise. A sidecar is present exactly for a conflict and is the path plus ".foundry-new". A differing file carries the provenance reason. |
| Compare.SidecarNameInjective | foundry_app/services/overlay.py:106 | Two different files never share a sidecar name. |
| Compare.CompareTrees | foundry_app/services/overlay.py:54-117 | The plan keeps the target directory, has no orphans, and has one action per walked file, in walk order, each classified against the target and the previous manifest's paths. No path gets two actions and every generated path gets one. |
| Orphans.DetectOrphans | foundry_app/services/overlay.py:120-136 | With no manifest there are no orphans. Otherwise the result is strictly sorted, and a path is in it exactly when the manifest recorded it and the current generation does not produce it. |
| Orphans.OrphansDetermined | foundry_app/services/overlay.py:136 | Any two results for the same manifest and file set are equal, so the sorted list is fully determined. |
| Orphans.OrphansExample | tests/test_overlay.py:355-366 | A stage that wrote a.md, b.md and c.md, with a.md and c.md still generated, yields exactly ["b.md"]. |
| Order.SortedList | foundry_app/services/overlay.py:136 | The result is strictly sorted and holds exactly the members of the set. |
| Order.SortedUnique | foundry_app/services/overlay.py:136 | Two strictly sorted lists with the same members are equal. |
| Order.BelowTotal | foundry_app/services/overlay.py:136 | Any two different strings are ordered one way or the other. |
| Order.BelowTransitive | foundry_app/services/overlay.py:136 | The string order is transitive. |
| Models.OfKindPartition | foundry_app/services/overlay.py:254 | The creates, unchanged, conflicts and force overwrites views together account for every action exactly once. |
| Apply.ApplyPlan | foundry_app/services/overlay.py:139-198 | The summary is in overlay mode, keeps the target directory and carries the plan's orphans. The target loses no path and gains exactly the destinations of successful copies; every other path keeps its content. Creates and overwrites are counted only when the copy succeeds, every unchanged file and conflict is counted, and the sidecar list is the sidecars actually written, in order. There are never more sidecars than conflicts, and every successful copy is counted once. |
| Apply.StepTarget | foundry_app/services/overlay.py:160-196 | One action writes the generated content to its destination when the copy succeeds and leaves the target unchanged otherwise. |
| Apply.LastWriterWins | foundry_app/services/overlay.py:160-196 | When an action's copy succeeds and no later action aims at its destination, the final target holds that action's generated content there. |
| Apply.UntargetedPathKept | foundry_app/services/overlay.py:160-196 | A path that no successful copy writes to keeps its presence and content, including a path whose only copies failed. |
| OverlayProperties.ApplyCreate | foundry_app/services/overlay.py:164-170 | After applying a compared plan, a new file holds exactly its generated content, or is still absent when its copy failed. This holds even when an earlier conflict's sidecar aims at the same path, because copies to one destination share their outcome in the model. |
| OverlayProperties.ApplyUnchanged | foundry_app/services/overlay.py:172-173 | An identical file is left with its content, which equals the generated content, provided no conflict's sidecar lands on it. |
| OverlayProperties.ApplyConflict | foundry_app/services/overlay.py:175-188 | A conflicting file on which no other conflict's sidecar lands keeps the user's content. Its sidecar holds the generated content when the copy succeeds and no generated file has the sidecar's name. |
| OverlayProperties.ApplyForceOverwrite | foundry_app/services/overlay.py:190-196 | A differing file in force mode holds the generated content, or keeps the user's content when the copy failed. |
| OverlayProperties.SidecarClobbersUserFile | foundry_app/services/overlay.py:106 | With generated files `q` and `q.foundry-new`, both edited by the user and not forced, both are conflicts. After the apply, the user's `q.foundry-new` holds the generated `q` instead of the user's content. |
| OverlayProperties.SidecarOverwritesUnchangedFile | foundry_app/services/overlay.py:106 | With generated files `q` and `q.foundry-new`, where the user edited `q` and left `q.foundry-new` as generated, `q.foundry-new` is classified unchanged. After the apply it nevertheless holds the generated `q`. |
| OverlayProperties.ApplyLeavesOtherPaths | tests/test_overlay.py:554-576 | A target file that is neither generated nor a sidecar name of a generated file keeps its presence and content. |
| OverlayProperties.CleanApplyCoversGenerated | tests/test_overlay.py:532-552 | After an apply in which no copy fails, every generated path exists in the target. |
| OverlayProperties.SecondRunHasNoCreates | tests/test_overlay.py:976-1006 | Comparing again after a clean apply, in any mode, finds nothing to create. |
| OverlayProperties.SecondRunSettles | tests/test_overlay.py:976-1006 | On a second comparison after a clean apply, created, unchanged and overwritten files are unchanged, and a conflict stays a conflict (or becomes a force overwrite in force mode). A file that is unchanged or a conflict must not have a conflict's sidecar land on it. |
| OverlayProperties.SecondRunIsIdle | tests/test_overlay.py:976-1006 | When the first run had no conflicts, the second run in the same mode creates nothing, finds no conflicts and classifies every file as unchanged. No assumption about sidecar names is needed. |
| OverlayProperties.ReasonFromManifest | foundry_app/services/overlay.py:347-357 | With a manifest, a differing file's reason is the "prior run" text iff some stage recorded the path, and the "not generated by Foundry" text iff none did. |
| OverlayProperties.CorruptManifestFallback | tests/test_overlay.py:1270-1309 | With a corrupt manifest, the comparison still runs and every differing file carries the "no prior manifest" reason. |
| Report.OverlayReportLines | foundry_app/services/overlay.py:201-262 | The force-mode header and the Overwritten count appear exactly when the plan overwrites something. Created and unchanged counts are on lines 1-2. Every conflict (with its sidecar), overwrite and orphan gets a line. The last line's total counts every action of the plan. |
| Report.FormatOverlayReport | foundry_app/services/overlay.py:201-264 | The text starts with the force-mode header exactly when the plan overwrites something, and with the plain header otherwise. It ends with the total line for the four counts, and those counts add up to the number of actions. |
| Report.DryRunMarksEmptySections | foundry_app/services/overlay.py:279-306 | Each of the create, skip and conflict sections has its header with the count, and its first line is "(none)" exactly when the section is empty. |
| Report.DryRunListsConflicts | foundry_app/services/overlay.py:297-304 | Every conflict is printed as three lines, in plan order: the path, the reason, and the sidecar that would be written. |
| Report.ConflictEntries | foundry_app/services/overlay.py:301-304 | Three lines per conflict, at positions 3j, 3j+1 and 3j+2. |
| Report.Assemble | foundry_app/services/overlay.py:272-326 | The title, each section and the tail are found at their offsets in the assembled report, and nothing else is in it. |
| Report.FormatDryRunReport | foundry_app/services/overlay.py:267-328 | The dry-run text always ends with the statement that no files were written. |
| Text.NatToStringRoundTrip | foundry_app/services/overlay.py:219 | The decimal rendering of a count is non-empty, consists of decimal digits only, starts with "0" exactly for zero (so no leading zeros), and reads back as the same number: it is the canonical `str(n)`. |
| Resources.SplitJoinRoundTrip | foundry_app/core/resources.py:20 | Splitting a text on slashes and joining the pieces with slashes gives the text back. |
| Resources.Parts | foundry_app/core/resources.py:20 | An absolute text starts with the root component; every other component is a non-empty name other than "." with no slash. |
| Resources.PartsOfNames | foundry_app/core/resources.py:20 | Joining non-empty names without slashes (other than ".") with "/" and parsing the text gives back exactly those names. |
| Resources.SplitOfJoin | foundry_app/core/resources.py:20 | Joining slash-free pieces with "/" and splitting on "/" gives back the pieces. |
| Resources.GetResourcePath | foundry_app/core/resources.py:15-26 | The dev path is returned when it is a file. Otherwise the bundled path, with exactly the first component dropped, is returned when the text starts with "resources" and that path is a file. Without the "resources" prefix the dev path is returned. The result is always the dev path or the bundled path, and a warning is logged exactly when the result is not a file. |
| Resources.ResolutionFindsFile | foundry_app/core/resources.py:15-26 | The returned path is a file exactly when one of the two candidates is; a warning means the dev path was returned. |
| Resources.AbsoluteTextIsDevOnly | foundry_app/core/resources.py:17-21 | An absolute text resolves to itself and never to the bundled directory. |
| Resources.FixedResource | foundry_app/core/resources.py:17-26 | For a fixed text "resources/<dir>/<file>": the project's resources/<dir>/<file> when it is a file, else the bundled <dir>/<file> when that is a file, else the project path with a warning. |
| Resources.SplashImagePath | foundry_app/core/resources.py:29-31 | The project's resources/images/foundry-splash.png when it is a file, else the bundled images/foundry-splash.png when that is a file, else the project path with a warning. |
| Resources.LogoIconPath | foundry_app/core/resources.py:34-36 | The project's resources/icons/foundry-logo.png when it is a file, else the bundled icons/foundry-logo.png when that is a file, else the project path with a warning. |

## Left out

- Reading and validating the manifest JSON is not modelled. `load_previous_manifest` is reduced to its three outcomes; which bytes parse is the data model's business, and `foundry_app/core/models.py` is not part of this model.
- `models.py` is not part of this model. The plan's `creates`, `unchanged`, `conflicts` and `force_overwrites` properties are modelled as filters that keep plan order, as their use in the report implies.
- The order of `sorted(temp_dir.rglob("*"))` is an input (`walk`); the model keeps only the fact that a file precedes its sidecar name. Directories and non-files are not in the model, because a tree holds only files.
- `mkdir(parents=True)`, file metadata copied by `copy2`, and the errors those raise are not modelled. A failed copy is the abstract `unwritable` set.
- Apply.ApplyPlan: a failed copy is modelled as leaving the destination untouched. Copies to the same destination all succeed or all fail together; per-call failures are not modelled. `shutil.copy2` does not guarantee this: the copy truncates the destination before writing, and copying metadata can raise after the bytes have landed. Partial writes are not modelled.
- Compare.CompareTrees: trees hold readable files only. In `compare_trees`, an unreadable target file makes `_files_identical` raise, and that aborts the whole comparison. The model has no such error path.
- Report.FormatOverlayReport: the joined text is described by its first and last lines. The count and detail lines in between are stated on `Report.OverlayReportLines`.
- Logging calls are not modelled. The only exception is the resource lookup's "Resource not found" warning, which is the `warned` flag.
- The dry-run flow that skips `apply_plan`, CLI flag validation and generation itself live outside these two files and are not part of this model.
- Absolute file paths are not modelled. The plan's `target_dir` is an uninterpreted string, and `temp_dir / rel` and `target_dir / rel` are lookups of `rel` in the two trees.
- Resources.Parts: does not model POSIX's rule that exactly two leading slashes form a separate root `//`. The model treats such a text like `/`.
- Resources.GetResourcePath: `Path.is_file` follows symbolic links; the model takes the set of file paths as given.
- Report.FormatDryRunReport: states only the footer about the joined text. The lines themselves are described by `Report.DryRunMarksEmptySections` and `Report.DryRunListsConflicts`.

## Findings

| source | as written | input that shows it | evidently intended | confidence | as-written member | corrected member |
|---|---|---|---|---|---|---|
| foundry_app/services/overlay.py:106 | A conflict on `rel` writes its sidecar to `rel + ".foundry-new"` (lines 178-183), even when the generator also produces a file of that name. | Generated `{q: G1, q.foundry-new: G2}`, target `{q: U1, q.foundry-new: U2}` with all four contents different, not forced: both files are conflicts, and `q`'s sidecar copy replaces the user's `q.foundry-new` with G1. | A conflicting file keeps the user's content, and its sidecar holds the generated content. | not executed | OverlayProperties.SidecarClobbersUserFile | OverlayProperties.ApplyConflict |
| foundry_app/services/overlay.py:172-183 | A conflict's sidecar is copied onto `rel + ".foundry-new"` (lines 178-183) even when that file is generated and classified unchanged, which promises that the file is not written. | Generated `{q: G1, q.foundry-new: G2}`, target `{q: U1, q.foundry-new: G2}` with G1, G2 and U1 different, not forced: `q.foundry-new` is counted unchanged, yet it ends up holding G1. | An unchanged file keeps its content. | not executed | OverlayProperties.SidecarOverwritesUnchangedFile | OverlayProperties.ApplyUnchanged |
