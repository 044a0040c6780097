# pandatool texture palettizer, Max egg importer and FLT instance reference, modelled in Dafny

This project models four pieces of pandatool.

- **TextureImage** (`src/egg-palettize/textureImage.cxx`) is one texture as the egg palettizer knows it across sessions. The model covers:
  - the egg files that use it;
  - the greedy cover that chooses its palette groups, with the groups named in the .txa file tried first;
  - the two-iterator merge that rebuilds its placement map;
  - its source images, with the preferred-source cache and the grayscale and unalpha probes;
  - the property reconciliation after the .txa file is read;
  - the differencing of the standalone copies ("dests") kept for placements that are not on a palette.
- **Palettizer** (`src/egg-palettize/palettizer.cxx`) covers:
  - the name-keyed get-or-create tables of egg files, palette groups and textures;
  - the session defaults;
  - the passes of a run (`process_all`, `process_command_line_eggs`, `read_txa_file`, `generate_images`, `read_stale_eggs`, `write_eggs`), with their call order and ok flags.
- **The 3D Studio Max egg importer** (`src/maxeggimport/maxEggImport.cxx`) covers:
  - the interning tables that hand out dense indices, and the capacity growth of the Max mesh arrays;
  - the ".verts" strip of mesh names;
  - the polygon fan;
  - the control-joint classification;
  - the de-duplicated bone list of the skin modifier.
- **FltInstanceRef** (`src/flt/fltInstanceRef.cxx`) is the OpenFlight instance-reference bead: two padding bytes, then a big-endian int16 index.

## Modules

| file | module | what it holds |
|---|---|---|
| `wrappers.dfy` | `Wrappers` | `Option` and `Result` |
| `ordering.dfy` | `Ordering` | Group ids ordered by `<`, which stands for the address order of the engine's `std::set`s. Names ordered like `std::string`'s `operator<`. Sorted enumerations of sets, which stand for walking a `std::set`/`std::map` in key order. |
| `group_cover.dfy` | `GroupCover` | `assign_groups` and `compute_egg_count` as functions, lemmas about them, and the loop methods proved against them. |
| `placements.dfy` | `Placements` | `assign_to_groups`' merge and `force_replace`, as values and event logs. |
| `dest_diff.dfy` | `DestDiff` | The dest differencing of `copy_unplaced` (`remove_old_dests`, `copy_new_dests`). |
| `texture_sources.dfy` | `TextureSources` | Properties, requests, pixels, source keys, the preferred-source rule and the pixel probes. |
| `source_cache.dfy` | `SourceCaches` | The source-image cache of a texture, as a value with transitions. |
| `texture_image.dfy` | `Textures` | The class `TextureImage`, whose methods are proved to make the transitions above. |
| `palettizer.dfy` | `Engine` | The class `Palettizer`, whose calls into collaborators are recorded in a log. |
| `max_tables.dfy` | `MaxTables` | The importer's object-free bookkeeping. |
| `max_import.dfy` | `MaxImport` | The classes `MaxEggImporter`, `MaxEggMesh` and `MaxEggJoint`. |
| `flt_instance.dfy` | `FltInstance` | `FltInstanceRef`, with a record reader and writer. |

## Modelling choices

- **Groups and address order.** Groups are natural numbers. Their order stands for the address order of the code's `std::set<PaletteGroup *>` (textureImage.cxx:722).
- **Egg files.** An egg file is a value with its set of complete groups. A texture's `_egg_files` is a set of addresses (textureImage.cxx:49); the model keeps a duplicate-free sequence of these values, so noting the same egg twice with different complete groups would keep two entries. One cross-link pass per session notes each egg once, so this does not arise.
- **Address order of command-line textures.** `_command_line_textures` is a `std::set<TextureImage *>` (palettizer.h:93-94), walked in address order. `ProcessCommandLineEggs` takes that order as a parameter `texOrder`: any duplicate-free enumeration of the textures the command-line eggs name.
- **Collaborators.** The state of other objects is given as function parameters:
  - a group's dependency level and egg count;
  - `make_bam_filename`;
  - `TextureProperties::fully_define`;
  - the dest filename of a placement;
  - what a read finds on disk;
  - the groups a .txa read declares, and the textures each egg names.
- **Effects on collaborators.** What a `TextureImage` or the `Palettizer` asks of other objects is appended to an event or call log. That covers `prepare`, `delete`, `force_replace`, `unlink`, `copy`, `copy_if_stale`, and the `EggFile`, `PaletteGroup` and `TxaFile` calls of a pass. The proofs state what those logs hold and in what order.
- **Placement identity.** Placements are values with a serial `id`. A kept placement keeps its id, which stands for the identity of the `TexturePlacement` object.
- **Hash-table iteration order.** The importer's hash tables are Dafny maps. The order in which `CreateSkinModifier` walks `_vert_tab` is a parameter `order`: any enumeration of the table.
- **Max SDK.** The calls that store faces and bones are kept as the sequences `faces` and `skinBones`.
- **Vertex keys.** `MEV_Compare` is taken as equality of vertex keys.
- **Texture coordinates.** The texture-coordinate transform of a corner is taken as already applied.
- **`exit(1)`.** The paths that call `exit(1)` in `read_txa_file` are a `Result` error.
- **FLT base bead.** The outcome of the FLT base bead (`FltBead::extract_record` and `build_record`) is the parameter `baseOk`.

## Model

| member | source | states |
|---|---|---|
| Ordering.SortedNatsSpec | src/egg-palettize/textureImage.cxx:716-720 | the group set is walked in increasing order, each group once |
| Ordering.MinNat | src/egg-palettize/textureImage.cxx:97-98 | the first element of a group set is its least element |
| Ordering.EnumerateNats | src/egg-palettize/textureImage.cxx:716-720 | the loop lists the set in increasing order |
| Ordering.StrLessIrreflexive | src/egg-palettize/textureImage.cxx:867-873 | no filename is below itself |
| Ordering.StrLessTransitive | src/egg-palettize/textureImage.cxx:867-873 | the filename order is transitive |
| Ordering.StrLessTotal | src/egg-palettize/textureImage.cxx:867-883 | of two different filenames one is below the other, so the merge's three branches cover every case |
| Ordering.SortedStrsSpec | src/egg-palettize/palettizer.cxx:166-169 | a name-keyed map is walked in increasing name order, each key once |
| Ordering.EnumerateStrs | src/egg-palettize/palettizer.cxx:166-169 | the loop lists the names in increasing order |
| GroupCover.UnsatisfiedSpec | src/egg-palettize/textureImage.cxx:152-160 | the eggs kept for the next round are exactly the needed eggs whose complete groups do not contain the chosen group |
| GroupCover.UnionOfSpec | src/egg-palettize/textureImage.cxx:113-116 | the candidate set holds every group of every needed egg and nothing else |
| GroupCover.CountPartition | src/egg-palettize/textureImage.cxx:683-696 | the eggs a group satisfies and the eggs it leaves needed add up to all the eggs |
| GroupCover.CountPositive | src/egg-palettize/textureImage.cxx:683-696 | a group satisfies some egg exactly when some egg names it |
| GroupCover.ComputeEggCount | src/egg-palettize/textureImage.cxx:683-696 | the count is the number of eggs whose complete groups contain the group, at most the number of eggs, and positive exactly when some egg names it |
| GroupCover.PrefersOrder | src/egg-palettize/textureImage.cxx:129-143 | the preference (more eggs, then lower dependency level, then fewer egg files sharing the group) is irreflexive, transitive and a strict weak order |
| GroupCover.FoldChoiceIsChoice | src/egg-palettize/textureImage.cxx:125-146 | the scan in set order ends on a group no candidate beats and that beats every earlier candidate |
| GroupCover.ChoiceSpec | src/egg-palettize/textureImage.cxx:125-146 | the chosen group is a candidate, unbeaten, and strictly better than every smaller candidate |
| GroupCover.ChoiceUnique | src/egg-palettize/textureImage.cxx:125-146 | only one candidate meets that description, so the choice is determined by the preference alone |
| GroupCover.ChooseBest | src/egg-palettize/textureImage.cxx:125-146 | the loop's best group is the unique unbeaten, first-of-its-kind candidate |
| GroupCover.ChoiceShrinks | src/egg-palettize/textureImage.cxx:109-161 | each round's chosen group satisfies at least one needed egg, so the needed list strictly shrinks and the greedy loop terminates |
| GroupCover.CoverSatisfies | src/egg-palettize/textureImage.cxx:109-161 | every egg that was needed shares a group with the greedy choices |
| GroupCover.CoverWithinUnion | src/egg-palettize/textureImage.cxx:109-161 | the greedy loop picks only groups some needed egg names |
| GroupCover.CoverSize | src/egg-palettize/textureImage.cxx:109-161 | the greedy loop picks at most one group per needed egg |
| GroupCover.NeededSpec | src/egg-palettize/textureImage.cxx:83-107 | the needed eggs are exactly those naming no explicit group |
| GroupCover.ExplicitPicksSpec | src/egg-palettize/textureImage.cxx:83-107 | an egg satisfied by the explicit groups contributes the first group of the intersection, and only explicit groups that eggs name are contributed |
| GroupCover.AssignedCoversEveryEgg | src/egg-palettize/textureImage.cxx:60-164 | after assign_groups every referencing egg's complete groups intersect the assigned groups |
| GroupCover.AssignedWithinRequested | src/egg-palettize/textureImage.cxx:60-164 | no group is assigned that no referencing egg names |
| GroupCover.ExplicitHonoured | src/egg-palettize/textureImage.cxx:83-107 | an egg naming an explicit group gets the first such group |
| GroupCover.ExplicitSuffices | src/egg-palettize/textureImage.cxx:83-161 | when the explicit groups satisfy every egg, nothing beyond them is assigned |
| GroupCover.NoExplicitGroups | src/egg-palettize/textureImage.cxx:76-80 | with no explicit groups every egg is needed and none contributes a group |
| GroupCover.SplitByExplicit | src/egg-palettize/textureImage.cxx:76-107 | the loop's definitely-in groups and needed eggs are the explicit picks and the needed filter |
| GroupCover.CollectGroups | src/egg-palettize/textureImage.cxx:113-116 | the union loop yields the union of the needed eggs' groups |
| GroupCover.DropSatisfied | src/egg-palettize/textureImage.cxx:152-160 | the filter loop keeps exactly the eggs the chosen group does not satisfy, in order |
| GroupCover.Cover | src/egg-palettize/textureImage.cxx:109-161 | the greedy loop adds exactly the greedy cover of the needed eggs to the definitely-in groups |
| GroupCover.ChooseGroups | src/egg-palettize/textureImage.cxx:60-164 | the groups computed are the assigned groups the lemmas above characterise |
| GroupCover.GreedyMayBeRedundant | src/egg-palettize/textureImage.cxx:109-161 | on four concrete eggs the loop assigns groups {1, 2, 3} although {1, 3} satisfies every egg: the cover is not irredundant |
| Placements.Reconcile | src/egg-palettize/textureImage.cxx:708-762 | the new placements are keyed by exactly the new groups; a group already held keeps its placement object, a new group gets a fresh unplaced placement; one prepare per new group and one delete per dropped placement, in increasing group order |
| Placements.MergeDone | src/egg-palettize/textureImage.cxx:716-760 | once both iterators are exhausted the merge has produced what Reconcile promises |
| Placements.StepNew | src/egg-palettize/textureImage.cxx:723-729 | a group below the next old placement's group is new: a placement is prepared for it |
| Placements.StepGone | src/egg-palettize/textureImage.cxx:731-735 | an old placement below the next group is no longer assigned: it is deleted |
| Placements.StepKept | src/egg-palettize/textureImage.cxx:737-743 | a group equal to the next old placement's group keeps that placement |
| Placements.ReassignSameGroups | src/egg-palettize/textureImage.cxx:708-762 | reassigning to the groups already held changes no placement and asks nothing of any group |
| Placements.ReassignNoGroups | src/egg-palettize/textureImage.cxx:62-68 | assigning no groups deletes every placement, in group order, and prepares none |
| Placements.ForceEventsSpec | src/egg-palettize/textureImage.cxx:211-216 | force_replace asks each placement, and only the placements, to replace itself, once each |
| DestDiff.UnlinksSpec | src/egg-palettize/textureImage.cxx:860-891 | the unlinks are exactly the old files that are not kept, at most one per old file |
| DestDiff.CopiesSpec | src/egg-palettize/textureImage.cxx:903-934 | each new file is copied once: copied if stale when the old dests name it, copied outright otherwise |
| DestDiff.UnlinksNone | src/egg-palettize/textureImage.cxx:860-891 | nothing is unlinked when every old file is kept |
| DestDiff.UnlinksDistinct | src/egg-palettize/textureImage.cxx:860-891 | walking the map in key order, no file is unlinked twice |
| DestDiff.CopiesDistinct | src/egg-palettize/textureImage.cxx:903-934 | walking the map in key order, no file is copied twice |
| DestDiff.RemoveOldDests | src/egg-palettize/textureImage.cxx:860-891 | the merge unlinks, in key order, every file named in b and not in a |
| DestDiff.CopyNewDests | src/egg-palettize/textureImage.cxx:903-934 | the merge copies, in key order, every file named in a: only if stale when b names it too |
| DestDiff.DiffDests | src/egg-palettize/textureImage.cxx:532-544 | the two merge calls of copy_unplaced, with and without redo_all |
| DestDiff.DestEventsIncremental | src/egg-palettize/textureImage.cxx:540-544 | without redo_all a file is unlinked iff only the old dests name it, copied iff only the new ones do, and copied if stale iff both do |
| DestDiff.DestEventsRedo | src/egg-palettize/textureImage.cxx:532-538 | with redo_all every old file is unlinked, every new file is copied, and nothing is copied only if stale |
| DestDiff.DestEventsUnchanged | src/egg-palettize/textureImage.cxx:540-544 | regenerating the same files as last session only copies each of them if stale |
| DestDiff.GeneratedCovers | src/egg-palettize/textureImage.cxx:510-529 | every placement not on a palette has a dest for its canonical filename |
| DestDiff.GeneratedSound | src/egg-palettize/textureImage.cxx:510-529 | every generated dest sits under its own filename and was made for an unplaced placement mapping to it |
| DestDiff.GeneratedFirst | src/egg-palettize/textureImage.cxx:518-526 | when two placements map to one filename, the dest of the first placement visited is kept |
| DestDiff.GeneratedGrows | src/egg-palettize/textureImage.cxx:518-526 | a later placement never replaces a dest already generated |
| DestDiff.MarkedAmongAt | src/egg-palettize/textureImage.cxx:510-529 | each visited unplaced placement gets the dest for its filename, and every other placement is unchanged |
| DestDiff.MarkDests | src/egg-palettize/textureImage.cxx:510-529 | the first loop of copy_unplaced yields the generated dests and the placements with their dests set |
| DestDiff.MarkedSpec | src/egg-palettize/textureImage.cxx:510-529 | setting dests keeps each placement's identity, group and omit reason, points unplaced ones at the dest for their own filename and leaves placed ones alone |
| DestDiff.MarkedValid | src/egg-palettize/textureImage.cxx:510-529 | setting dests keeps the placement table valid |
| TextureSources.ApplyRequestedSettings | src/egg-palettize/textureImage.cxx:293-301 | each requested format and filter that is specified replaces the texture's own; the channel fields are untouched |
| TextureSources.ScanGrayscale | src/egg-palettize/textureImage.cxx:794-803 | the scan answers true exactly when every pixel has equal red, green and blue |
| TextureSources.ScanOpaque | src/egg-palettize/textureImage.cxx:839-846 | the scan answers true exactly when every alpha value is the maximum |
| TextureSources.GrayscaleProbe | src/egg-palettize/textureImage.cxx:775-808 | with no fresh read the remembered flag decides; with a read image, channels are dropped and remembered exactly when it is grayscale; with no image nothing is dropped |
| TextureSources.UnalphaProbe | src/egg-palettize/textureImage.cxx:819-852 | the same for alpha: dropped exactly when a read image with alpha is fully opaque; an image without alpha is left alone |
| TextureSources.ProbedChannelsRange | src/egg-palettize/textureImage.cxx:270-290 | the probes leave between one channel and the count they started with |
| TextureSources.ProbedChannelsTable | src/egg-palettize/textureImage.cxx:279-290 | the grayscale probe runs on 3 or 4 channels and drops two; the alpha probe runs on 2 or 4 and drops one |
| TextureSources.SourceKey | src/egg-palettize/textureImage.cxx:942-948 | the key is the color filename, a colon, then the alpha filename |
| TextureSources.SourceKeyInjective | src/egg-palettize/textureImage.cxx:942-948 | two keys coincide only for the same pair of filenames when the color filename has no colon |
| TextureSources.SourceKeyAmbiguous | src/egg-palettize/textureImage.cxx:942-948 | without that proviso two different pairs share a key |
| TextureSources.ScanBest | src/egg-palettize/textureImage.cxx:451-475 | the selection fold yields one of the scanned keys |
| TextureSources.ScanBestSpec | src/egg-palettize/textureImage.cxx:451-475 | the fold finds a source exactly when some source exists and has a readable size, and no such source is larger, or as large and newer, than the one found |
| TextureSources.ScanReferenced | src/egg-palettize/textureImage.cxx:437-446 | the first loop reports whether any source is referenced by an egg file |
| TextureSources.ScanLargest | src/egg-palettize/textureImage.cxx:448-475 | with its guard as written the selection loop runs only when no source is referenced |
| TextureSources.SelectPreferred | src/egg-palettize/textureImage.cxx:420-487 | the loops' choice is the preferred source as written |
| TextureSources.PreferredExists | src/egg-palettize/textureImage.cxx:477-482 | whenever the texture has sources one of them is preferred |
| TextureSources.PreferredIsLargestNewest | src/egg-palettize/textureImage.cxx:451-475 | with no referenced source, the preferred one is measurable and no measurable source is larger, or as large and newer |
| TextureSources.PreferredWhenReferenced | src/egg-palettize/textureImage.cxx:439-482 | as soon as any source is referenced, the first source in key order is preferred |
| TextureSources.PreferredMayBeUnreferenced | src/egg-palettize/textureImage.cxx:439-482 | on two concrete sources the preferred one is unreferenced and smaller than the referenced one |
| SourceCaches.WithSourceRechooses | src/egg-palettize/textureImage.cxx:398-405 | after a new source is added the next get_preferred_source chooses afresh among all sources, and the next read_source_image reads that choice |
| SourceCaches.FilledKeeps | src/egg-palettize/textureImage.cxx:420-424 | caching the preferred source changes no answer, caching twice is caching once, and a cached choice is one of the sources |
| SourceCaches.ReadOnce | src/egg-palettize/textureImage.cxx:562-573 | read_source_image reads at most once: a second call returns the image already held and changes nothing |
| SourceCaches.GrayscaleKeepsUnalpha | src/egg-palettize/textureImage.cxx:775-808 | the grayscale probe leaves the alpha probe the same image and the same reason to reuse its flag |
| SourceCaches.ProbesReadOnlyWhenNeeded | src/egg-palettize/textureImage.cxx:270-290 | the probe phase reads the image exactly when a probe runs in a session that does not reuse the remembered flags, and not at all when the count is requested |
| SourceCaches.ProbesDropOnEvidence | src/egg-palettize/textureImage.cxx:775-852 | a probe drops channels only on the remembered flag or on every pixel being gray (fully opaque) |
| SourceCaches.ChannelSettingsCount | src/egg-palettize/textureImage.cxx:270-291 | the channel count is the requested one, or the measured one less what the probes drop, never below one nor above the measured count; nothing else changes |
| Textures.TextureImage.PreferredInSources | src/egg-palettize/textureImage.cxx:420-487 | the preferred source, once known, is one of the sources, and there is one exactly when there are sources |
| Textures.TextureImage.constructor | src/egg-palettize/textureImage.cxx:27-36 | a new texture has no preferred source, has read no image, has no dest image, is a surprise and has both probe flags clear |
| Textures.TextureImage.NoteEggFile | src/egg-palettize/textureImage.cxx:46-50 | the egg joins the set of referencing eggs unless its complete group set is empty |
| Textures.TextureImage.GetPlacement | src/egg-palettize/textureImage.cxx:192-201 | a placement is found exactly for an assigned group, and it is that group's placement |
| Textures.TextureImage.AssignToGroups | src/egg-palettize/textureImage.cxx:708-765 | the assigned groups become the given set and the placements change as Reconcile promises, with only the merge's prepares and deletes appended |
| Textures.TextureImage.AssignGroups | src/egg-palettize/textureImage.cxx:60-164 | the texture ends up in exactly the assigned groups; every referencing egg shares a group with it; only requested groups are used; with no eggs every placement is deleted |
| Textures.TextureImage.ForceReplacePlacements | src/egg-palettize/textureImage.cxx:211-216 | every placement, in group order, is asked once to re-place |
| Textures.TextureImage.GetSource | src/egg-palettize/textureImage.cxx:390-408 | the source is found or created under its key; creating one forgets the preferred source and both images, finding one changes nothing |
| Textures.TextureImage.GetPreferredSource | src/egg-palettize/textureImage.cxx:420-487 | the answer is the cached choice or a fresh one that is then cached, and it is absent exactly when there are no sources |
| Textures.TextureImage.ReadSourceImage | src/egg-palettize/textureImage.cxx:562-573 | the preferred source is read at most once and the image held is returned |
| Textures.TextureImage.ConsiderGrayscale | src/egg-palettize/textureImage.cxx:775-808 | two channels are dropped exactly when the probe decides so, and the probe's flag is remembered |
| Textures.TextureImage.ConsiderUnalpha | src/egg-palettize/textureImage.cxx:819-852 | one channel is dropped exactly when the alpha probe decides so, and its flag is remembered |
| Textures.TextureImage.PreTxaFile | src/egg-palettize/textureImage.cxx:224-238 | the current properties are saved, the preferred source's properties are taken when there is one, the request is reset and the texture is a surprise |
| Textures.TextureImage.SettleSize | src/egg-palettize/textureImage.cxx:250-268 | a measurable preferred source sets the size and channel count, and a requested size overrides the size |
| Textures.TextureImage.SettleChannels | src/egg-palettize/textureImage.cxx:270-291 | the channel count is the requested one or what the probes leave |
| Textures.TextureImage.FinishProperties | src/egg-palettize/textureImage.cxx:293-308 | the requested format and filters apply, fully_define completes the properties, and every placement is asked to re-place exactly when they differ from before the .txa file |
| Textures.TextureImage.PostTxaFile | src/egg-palettize/textureImage.cxx:248-309 | the composition of the three steps: size, channels, then settings and the re-place test |
| Textures.TextureImage.CopyUnplaced | src/egg-palettize/textureImage.cxx:502-555 | the dests become the generated set, the placements point at them, and the file operations are those of DiffDests against the old dests |
| Engine.Intern | src/egg-palettize/palettizer.cxx:485-496 | a get-or-create leaves the name in the table, keeps every existing entry, and adds the new record only for a new name |
| Engine.InternIdempotent | src/egg-palettize/palettizer.cxx:485-496 | a repeated get-or-create finds what the first one left and changes nothing |
| Engine.InternGrowsByOne | src/egg-palettize/palettizer.cxx:485-496 | a get-or-create adds at most one entry, exactly one for a new name |
| Engine.WithDefaultGroup | src/egg-palettize/palettizer.cxx:541-548 | the default group is in the table afterwards and no other group changes |
| Engine.DefaultGroupDirname | src/egg-palettize/palettizer.cxx:541-548 | the default group gets the default directory exactly when that is non-empty and the group has none; asking again changes nothing |
| Engine.EachHas | src/egg-palettize/palettizer.cxx:289-362 | a pass loop makes a call exactly when its iteration on the call's subject makes it |
| Engine.AppendPhase | src/egg-palettize/palettizer.cxx:289-362 | appending a loop of a later phase keeps a pass in phase order |
| Engine.PassesOrdered | src/egg-palettize/palettizer.cxx:201-362 | both process_all and process_command_line_eggs make their calls phase by phase |
| Engine.PhaseOrder | src/egg-palettize/palettizer.cxx:201-362 | in an ordered pass every egg is matched before any cross link, links precede texture matching, assignment precedes placement choice, which precedes sizing, which precedes packing |
| Engine.ProcessAllCovers | src/egg-palettize/palettizer.cxx:289-362 | process_all scans the command-line eggs, matches, links and places every egg, matches (reading first when forced), assigns and sizes every texture and packs every group |
| Engine.ProcessAllCoversNamed | src/egg-palettize/palettizer.cxx:289-353 | every texture of the table after the scan, those first named by a command-line egg included, is matched (read first when forced), assigned and sized |
| Engine.TextureLoopReads | src/egg-palettize/palettizer.cxx:319-330 | a texture's source image is read in the texture loop exactly when the read is forced |
| Engine.CommandLineCovers | src/egg-palettize/palettizer.cxx:201-278 | process_command_line_eggs scans and matches each command-line egg and treats the textures they name as process_all treats all textures |
| Engine.TxaOrdered | src/egg-palettize/palettizer.cxx:162-188 | the dependencies are cleared before the .txa file is read and levels are set after it |
| Engine.TxaCovers | src/egg-palettize/palettizer.cxx:162-188 | a group is cleared exactly when it was known before the read; every group known after the read is levelled from 1 exactly when the run goes on |
| Engine.InternGroupsOne | src/egg-palettize/palettizer.cxx:505-516 | a group the .txa read declares is created as get_palette_group creates it, and declaring it again changes nothing |
| Engine.TxaLevelsEveryGroup | src/egg-palettize/palettizer.cxx:162-188 | over the tables: exactly the groups known before the read are cleared, and every group afterwards, the ones the .txa file declared included, is levelled exactly when the run goes on |
| Engine.GenerateHas | src/egg-palettize/palettizer.cxx:403-416 | generate_images updates every group's images and copies every texture's unplaced images, with its own redo_all, and makes no other call |
| Engine.GenerateImagesOrder | src/egg-palettize/palettizer.cxx:403-416 | every group image update precedes every unplaced copy |
| Engine.StaleAfter | src/egg-palettize/palettizer.cxx:430-450 | after read_stale_eggs an egg has data exactly when it had data or was touched and read successfully |
| Engine.StaleRetriesFailures | src/egg-palettize/palettizer.cxx:436-437 | a second read_stale_eggs with the same outcomes touches exactly the eggs whose read failed, and changes nothing more |
| Engine.StaleCallsSpec | src/egg-palettize/palettizer.cxx:430-450 | only eggs without data that are stale (or every such egg with redo_all) are read, and an egg is scanned and chooses placements exactly when its read succeeds |
| Engine.StaleReadThenScan | src/egg-palettize/palettizer.cxx:438-443 | a successful read is followed at once by scan_textures and choose_placements on the same egg |
| Engine.WriteCallsSpec | src/egg-palettize/palettizer.cxx:459-475 | write_eggs updates and writes exactly the eggs with data, and reads none |
| Engine.StaleAllDone | src/egg-palettize/palettizer.cxx:430-450 | after the loop every egg is as StaleAfter says, and the flag is true exactly when no touched egg failed |
| Engine.StaleVisit | src/egg-palettize/palettizer.cxx:436-446 | one iteration: a touched egg is read; a failed read clears the flag and the loop goes on; a successful read gives the egg its data and is followed by scan_textures and choose_placements; the loop state advances by one egg |
| Engine.ReadStale | src/egg-palettize/palettizer.cxx:430-450 | the loop over the egg table leaves each egg as StaleAfter says, the flag true exactly when no read failed, and makes exactly the calls StaleCallsSpec describes |
| Engine.NamedTexturesSpec | src/egg-palettize/palettizer.cxx:205-218 | the command-line textures are exactly those some command-line egg names |
| Engine.Palettizer.constructor | src/egg-palettize/palettizer.cxx:31-52 | the session defaults: version 0, map directory "%g", margin 2, repeat threshold 250, palette 512 by 512, round UVs to 0.1 with fuzz 0.01, remap per polygon, colour type "rgb" and no alpha type, empty tables |
| Engine.Palettizer.GetEggFile | src/egg-palettize/palettizer.cxx:485-496 | the egg file of that name, created on first use, and the table otherwise unchanged |
| Engine.Palettizer.GetPaletteGroup | src/egg-palettize/palettizer.cxx:505-516 | the group of that name, created on first use, and the table otherwise unchanged |
| Engine.Palettizer.TestPaletteGroup | src/egg-palettize/palettizer.cxx:525-533 | the group if the table has it, nothing otherwise; nothing is created |
| Engine.Palettizer.GetDefaultGroup | src/egg-palettize/palettizer.cxx:541-548 | the default group, created on first use and given the default directory if it has none |
| Engine.Palettizer.GetTexture | src/egg-palettize/palettizer.cxx:559-571 | a repeat call returns the very same texture object; a new name gets a fresh valid texture of that name |
| Engine.Palettizer.ReadTxaFile | src/egg-palettize/palettizer.cxx:162-188 | the groups known before the read are cleared; the read creates the groups it declares; the run stops when the read fails or no colour type is set; otherwise every group then in the table is levelled |
| Engine.Palettizer.ScanCommandLineEggs | src/egg-palettize/palettizer.cxx:205-218 | each command-line egg is scanned, matched when asked, and its textures collected; every texture it names is in the texture table afterwards, known ones kept and new ones fresh objects of that name |
| Engine.Palettizer.InternTextures | src/egg-palettize/palettizer.cxx:559-571 | get_texture of each name: the table gains exactly those names, known textures are kept and new ones are fresh objects of that name |
| Engine.Palettizer.ProcessCommandLineEggs | src/egg-palettize/palettizer.cxx:201-278 | the textures the command-line eggs name are created in the table, and the log gains exactly the calls of process_command_line_eggs, with those textures walked in the given address order |
| Engine.Palettizer.ProcessAll | src/egg-palettize/palettizer.cxx:289-362 | the command-line textures are created in the table, and the log gains exactly the calls of process_all, whose texture loops walk the table as it is after the scan |
| Engine.Palettizer.GenerateImages | src/egg-palettize/palettizer.cxx:403-416 | the log gains exactly the calls of generate_images |
| Engine.Palettizer.ReadStaleEggs | src/egg-palettize/palettizer.cxx:430-450 | the egg table keeps its names, each egg becomes as StaleAfter says, the result is false exactly when some read failed, and the log gains the loop's calls |
| Engine.Palettizer.WriteEggs | src/egg-palettize/palettizer.cxx:459-475 | the result is false exactly when some egg with data failed to write, and the log gains the loop's calls |
| MaxTables.InternedInsert | src/maxeggimport/maxEggImport.cxx:542-554 | a new key entered with the next index keeps the table dense and one-to-one |
| MaxTables.InternedDense | src/maxeggimport/maxEggImport.cxx:510-568 | the indices of an interned table are exactly 0 to count-1 |
| MaxTables.Grown | src/maxeggimport/maxEggImport.cxx:532-535 | a full array grows to count*2+100, so the new element's index is within it; an array with room keeps its size |
| MaxTables.RFind | src/maxeggimport/maxEggImport.cxx:576 | the position found is the last occurrence of the pattern, or -1 when there is none |
| MaxTables.StripVerts | src/maxeggimport/maxEggImport.cxx:573-577 | a name longer than six characters that ends in ".verts" loses that suffix; any other name is kept |
| MaxTables.StripVertsInverse | src/maxeggimport/maxEggImport.cxx:573-577 | stripping undoes appending ".verts" to a non-empty name, and takes only one suffix off a doubled one |
| MaxTables.StripVertsKeeps | src/maxeggimport/maxEggImport.cxx:576 | a pool named just ".verts", or not ending in it, keeps its name |
| MaxTables.FirstsSpec | src/maxeggimport/maxEggImport.cxx:656-665 | the collected joints are exactly the weighted joints whose flag was clear, each once, in the order they were first met |
| MaxTables.FanCount | src/maxeggimport/maxEggImport.cxx:733 | an n-gon with at least two corners gets n-2 faces, a smaller one none |
| MaxTables.FanFacesSpec | src/maxeggimport/maxEggImport.cxx:733-737 | the fan of an n-gon has FanCount(n) faces, and face i-1 joins corner 0 to corners i and i+1 with the polygon's texture id |
| MaxTables.FanPrefixSpec | src/maxeggimport/maxEggImport.cxx:733-737 | after the loop has reached i, faces 1 to i-1 have been added in order |
| MaxTables.FanFacesAdjacent | src/maxeggimport/maxEggImport.cxx:733-737 | neighbouring fan faces share the edge from corner 0 to the corner between them |
| MaxTables.AsWrittenFanBound | src/maxeggimport/maxEggImport.cxx:733 | the unsigned bound size()-1 is n-1 for a non-empty polygon and wraps to the largest size_t for an empty one |
| MaxTables.EmptyPolygonOverruns | src/maxeggimport/maxEggImport.cxx:733-737 | for an empty polygon the loop as written is entered, reading corners of an empty vector; for any other polygon it runs exactly FanCount times |
| MaxTables.JointsOf | src/maxeggimport/maxEggImport.cxx:657-658 | the joints of a weight list, one per weight, in order |
| MaxTables.WeightJointsMembers | src/maxeggimport/maxEggImport.cxx:656-665 | the joints met walking the vertex table are exactly the joints some vertex's weight names |
| MaxImport.MaxEggJoint.constructor | src/maxeggimport/maxEggImport.cxx:311-333 | a new joint record holds its egg joint and parent and starts with its `_inskin` flag clear |
| MaxImport.ClearFlags | src/maxeggimport/maxEggImport.cxx:666-670 | every collected joint's flag is cleared and every other joint's flag is as it was |
| MaxImport.CollectJoints | src/maxeggimport/maxEggImport.cxx:657-664 | the inner loop over one vertex's weights extends the joint list as first-seen de-duplication does, and the flags set are exactly the joints collected |
| MaxImport.MaxEggMesh.constructor | src/maxeggimport/maxEggImport.cxx:578-593 | a new mesh belongs to its importer, carries its name, has every count at 0 and empty tables |
| MaxImport.MaxEggMesh.GetVert | src/maxeggimport/maxEggImport.cxx:510-540 | the vertex, keyed with its memberships or full membership in the context joint, gets its existing index, or the next index with the table and array grown; the table stays dense |
| MaxImport.MaxEggMesh.GetTVert | src/maxeggimport/maxEggImport.cxx:542-554 | the texture coordinate gets its existing index, or the next index with the array grown; the table stays dense |
| MaxImport.MaxEggMesh.GetCVert | src/maxeggimport/maxEggImport.cxx:556-568 | the colour gets its existing index, or the next index with the array grown; the table stays dense |
| MaxImport.MaxEggMesh.AddFace | src/maxeggimport/maxEggImport.cxx:599-617 | the face is appended with the given corners and material id, its index is the old face count, and the face array grows when full |
| MaxImport.MaxEggMesh.AddFan | src/maxeggimport/maxEggImport.cxx:733-737 | the loop appends exactly the fan faces of the polygon, none for fewer than three corners |
| MaxImport.MaxEggMesh.GetCorner | src/maxeggimport/maxEggImport.cxx:725-732 | one corner's three lookups: each index is the one its table holds for the corner, and no earlier entry changes |
| MaxImport.MaxEggMesh.GetCorners | src/maxeggimport/maxEggImport.cxx:725-732 | the three index lists have one entry per corner, each the index its table holds for that corner |
| MaxImport.MaxEggMesh.AddPolygon | src/maxeggimport/maxEggImport.cxx:720-737 | a polygon adds its corners to the tables and the fan of faces over their indices |
| MaxImport.MaxEggMesh.GetControlJoint | src/maxeggimport/maxEggImport.cxx:619-639 | no joint exactly when no vertex is weighted; one joint exactly when every vertex has one weight and all name that joint; DEFORM otherwise |
| MaxImport.MaxEggMesh.CreateSkinModifier | src/maxeggimport/maxEggImport.cxx:656-670 | the bones are the joints named by the weights of the walk whose `_inskin` flag was clear, each once, in first-seen order (every weighted joint when no flag was set), and every `_inskin` flag ends as it began |
| MaxImport.MaxEggImporter.constructor | src/maxeggimport/maxEggImport.cxx:764 | an importer starts with empty tables and the next texture id 0 |
| MaxImport.MaxEggImporter.GetTex | src/maxeggimport/maxEggImport.cxx:252-274 | a known path returns its record and changes nothing; a new path gets a record with the next id; the ids stay dense |
| MaxImport.MaxEggImporter.MakeJoint | src/maxeggimport/maxEggImport.cxx:303-336 | a new joint record with its flag clear, whose parent is the context joint's record when FindJoint finds one, entered under its egg joint |
| MaxImport.MaxEggImporter.GetMesh | src/maxeggimport/maxEggImport.cxx:570-597 | the pool's mesh, created on first use with the stripped name and zero counts, and the mesh table otherwise unchanged |
| MaxImport.MaxEggImporter.ImportPolygon | src/maxeggimport/maxEggImport.cxx:705-737 | the polygon's texture record (the empty path when untextured), its pool's mesh, the corner indices, and exactly the fan faces appended to that mesh |
| FltInstance.Wrap16 | src/flt/fltInstanceRef.cxx:129 | the value an int becomes as a PN_int16: in int16 range, congruent modulo 65536, unchanged when already in range |
| FltInstance.BeInt16Bytes | src/flt/fltInstanceRef.cxx:129 | the two bytes of the value as add_be_int16 writes them; ReadBeInt16Bytes and BeInt16BytesRead make it the inverse of ReadBeInt16 |
| FltInstance.ReadBeInt16 | src/flt/fltInstanceRef.cxx:86 | two bytes, high first, read as a signed 16-bit value: in int16 range and negative exactly when the high byte's top bit is set |
| FltInstance.ReadBeInt16Bytes | src/flt/fltInstanceRef.cxx:86-129 | reading back the two bytes add_be_int16 wrote gives the value truncated to 16 bits |
| FltInstance.BeInt16BytesRead | src/flt/fltInstanceRef.cxx:86-129 | writing back what get_be_int16 read gives the same two bytes |
| FltInstance.Payload | src/flt/fltInstanceRef.cxx:128-129 | four bytes: two zero padding bytes, then the index big-endian |
| FltInstance.ParsePayload | src/flt/fltInstanceRef.cxx:85-86 | an index exactly when four bytes remain, read from the bytes after the padding |
| FltInstance.PayloadRoundTrip | src/flt/fltInstanceRef.cxx:85-129 | extracting what build_record wrote gives back the index truncated to 16 bits, and the index itself in int16 range, whatever follows |
| FltInstance.ParsePayloadRoundTrip | src/flt/fltInstanceRef.cxx:85-129 | rebuilding what extract_record read from a zero-padded payload gives the same bytes |
| FltInstance.FltInstanceRef.constructor | src/flt/fltInstanceRef.cxx:32-35 | a new reference points at instance 0 |
| FltInstance.FltInstanceRef.ExtractRecord | src/flt/fltInstanceRef.cxx:76-90 | succeeds exactly when the base bead succeeds, the opcode is the instance reference and four bytes remain; then the index is the int16 after the padding and the iterator moves by four; otherwise index and iterator are untouched |
| FltInstance.FltInstanceRef.BuildRecord | src/flt/fltInstanceRef.cxx:119-132 | fails and leaves the writer alone when the base bead fails; otherwise sets the opcode and appends the padding and the index |
| FltInstance.FltInstanceRef.WriteRecordAndChildren | src/flt/fltInstanceRef.cxx:99-109 | the instance definition is written first; its error is returned without writing the record, otherwise the record's result is returned |
| FltInstance.RoundTrip | src/flt/fltInstanceRef.cxx:76-132 | a reference built into a record and extracted by a new bead holds the index truncated to 16 bits, and the index itself in int16 range |

## Left out

- Bam persistence: the `write_datagram`, `fillin`, `complete_pointers` and `make_*` members of TextureImage and Palettizer. This is serialisation that patches up object references through BamReader and BamWriter, which are not part of this model.
- Human-readable output: `report_pi`, `write_scale_info`, `write_source_pathnames` and the log file of the importer. They only print, and the scale percentage is floating point.
- Reading and resampling pixels: `SourceTextureImage::read` and `get_dest_image`. These are foreign image calls. The pixels a read would find are a parameter (`disk`) of the source, and the probes scan that image.
- The bodies of the collaborators. Their calls are entries in the event and call logs, or function parameters:
  - `TxaFile` matching and `FilenameUnifier`;
  - `PaletteGroup::prepare`, `place_all`, `update_images` and the group's level and egg count;
  - `TexturePlacement` and `DestTextureImage` (`copy`, `copy_if_stale`, `unlink`);
  - `compare_timestamps`;
  - `TextureProperties::fully_define`.
- `TextureProperties` equality is structural equality of the modelled fields. Filter types and formats are enumerations; their numeric values are not modelled.
- Constructors not shown: the `EggFile`, `PaletteGroup` and `TexturePlacement` constructors are not part of this model. A new egg file is taken to have no data and to be stale; a new group has no directory name; a new placement starts with omit reason `ORWorking`.
- `read_egg`: a successful read is taken to set the egg's has-data flag.
- `exit(1)` in `read_txa_file` is an error result; the program's termination is not modelled.
- Textures.TextureImage.GetPreferredSource: the rule is modelled as written, including the guard at textureImage.cxx:451. While any source is referenced by an egg file, the first source in key order is chosen; the largest readable source is chosen only when none is referenced (`TextureSources.PreferredAsWritten`).
- GroupCover.Cover: the greedy cover is proved to satisfy every egg file, but it is not irredundant, which is what it is sometimes said to be. The model follows the code; `GroupCover.GreedyMayBeRedundant` gives eggs on which a smaller cover exists.
- The Max SDK: every mesh, material, node, modifier and redraw call, dialogs, DLL entry and class descriptors, and the log file.
- Joint geometry: the frame vectors and positions of `MakeJoint`, `ChooseBestChild`, `ChooseEndPos` and `CreateMaxBone` are float vector maths. MaxImport.MaxEggImporter.MakeJoint also leaves out the push onto the parent's `_children`.
- MaxImport.MaxEggMesh.CreateSkinModifier: the second loop, which hands each vertex's weights to `AddWeights`, is not modelled. Every weighted joint is required to have a record; the code would dereference the null that `_joint_tab[...]` inserts for a missing one.
- Absent keys: `FindJoint` and `GetMesh` read their tables with `operator[]`, which inserts a null entry for an absent key. The model reads the map without inserting, so a null entry is never stored.
- Iteration order: the walk over `_vert_tab` is a hash-table iteration, so its order is a parameter (any enumeration of the table). `MEV_Compare` ordering of vertices is replaced by equality of keys.
- The texture-coordinate transform: `uv * uvtrans` at maxEggImport.cxx:730 is floating point. Each corner's texture coordinate is given already transformed.
- TextureSources.ScanBest: an image's area is an unbounded integer, so the 32-bit `int` overflow of `get_x_size() * get_y_size()` (textureImage.cxx:458) for images of 2^31 pixels or more is not modelled; on such images the code can prefer another source than ScanBestSpec and PreferredIsLargestNewest say.
- MaxTables.Grown: counts and capacities are unbounded integers, so the `int` overflow of `count*2+100` past 2^31 is not modelled.
- `TraverseEggData`: the loops that create bones, trim joints and build the skin modifiers drive Max SDK calls and are not modelled. The recursion of `TraverseEggNode` through group nodes is not modelled either. Its polygon branch (`ImportPolygon`) and its joint branch (`MakeJoint`) are modelled with the context joint given.
- FLT debug output: `get_instance` and `write` of fltInstanceRef.cxx only print.
- `check_remaining_size` (fltInstanceRef.cxx:88) only warns, so it is not modelled.
- The base bead's effects: FltBead's own extraction and building are given by their outcome `baseOk`.
- FltInstance.FltInstanceRef.ExtractRecord: a payload shorter than four bytes is modelled as a failed extraction that changes nothing. In the code the `DatagramIterator` would assert, and DatagramIterator is not part of this model.
- FltInstance.FltInstanceRef.ExtractRecord: a wrong opcode makes the `nassertr` at fltInstanceRef.cxx:82 return false; the debug-build abort is not modelled.
- The numeric values of `FltOpcode` and `FltError` come from fltOpcode.h and fltError.h, which are not part of this model.

## Findings

| source | as written | input that shows it | evidently intended | confidence | as-written member | corrected member |
|---|---|---|---|---|---|---|
| src/maxeggimport/maxEggImport.cxx:733 | The fan loop `for (int i=1; i<vertIndices.size()-1; i++)` compares with an unsigned bound. For a polygon with no vertices, `size()-1` wraps to the largest `size_t`, so the loop is entered and reads `vertIndices[0]`, `[1]` and `[2]` of an empty vector. | An `EggPolygon` with no vertices | A polygon with fewer than three corners adds no faces | not executed | MaxTables.EmptyPolygonOverruns | MaxImport.MaxEggMesh.AddFan |
