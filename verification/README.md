# A model of swupd-server

swupd-server turns a sequence of operating system images into published *manifests* (what a bundle
ships, and since which release), *fullfiles* and *packs* (what a client downloads). This project
models the in-memory engine behind that and proves what the published data can be relied on for.

Two layers describe the same behaviour.

- **Records.** `File` and `Manifest` (`Files.dfy`) are classes with the fields of `struct file` and
  `struct manifest`, and the engine's loops are methods that delete and prepend links, set `peer`,
  `rename_peer`, `last_change`, `hash` and flags in place: `Matching`, `Subtracting`, `Including`,
  `Rewriting`, `Renames`, `Links`, `Consolidation`, `Fullfiles`, `Packs`, `ContentSize`,
  `ManifestText`. Each is proved against a function on *tables* (maps from a name to its `Entry`,
  the part of a record that is printed). `Processing` composes them into a bundle's whole way from
  matching to writing, follows the links of renames on that way, and proves the table equal to the value
  form `Release.Job.Process`.
- **Releases.** `Release` composes the value forms into one run of `swupd_create_update` followed by
  `swupd_make_fullfiles`, as a step on everything published: the full manifest, the bundle versions
  that the newest MoM names, every manifest ever written and all fullfiles. `Availability`,
  `Consistency`, `Lifecycle`, `Shipping`, `History`, `Ghosts`, `Losses`, `Remains`, `NextManifests`,
  `Installation`, `Reading` and parts of `Fullfiles` and `Packs` prove properties of every sequence of runs, for every
  outcome that rename detection and the final linking of renames may have within what the lower layer
  proves of them. `Interference` holds
  concrete runs on which a property fails, and one beside them on which it holds.

The main results: content availability over every run; `last_change` is exact over whole histories of
every bundle; of every name it is known what the full manifest and each bundle's hold of it after the next
release, and exactly when a bundle is written anew; nothing that a build ships is lost on the way to the
published manifests; rename detection is a terminating, stable matching of the files that vanished with those
that appeared; packs cover each changed file exactly once, from fullfiles
that exist; the sizes of installed bundles add up exactly when they should; subtraction is independent of
every order involved; manifests survive printing and parsing, and from a printed MoM the next run finds the
manifests of this one; work lists are
complete and never write one file twice.

Where the code does not keep a property, it is proved when exactly it does, with an input on which it does not:

- a ghost or a live record of an included bundle cancels a bundle's old entry, so that an expired ghost
  or a dropped directory stays published (`Ghosts.GhostLifeCycle`; `Interference.ExpiredGhostStays`,
  `Interference.DroppedDirectoryStays`), and a ghost cancels a new directory, which is lost
  (`Subtraction.TurnIsExact`, `Losses.RunLosesExactly`; `Subtraction.GhostCancelsDirectory`,
  `Interference.MovedDirectoryIsLost`);
- a rename from an expiring ghost leaves a marked file without its other end (`Processing.CleanBundle`;
  `Interference.RenameFromGhost`);
- pruning takes the other end of a rename (`Remains.MarksAfterPruning`, `Remains.RunKeepsMarks`; `Remains.PrunedEnd`);
- a run stops although os-core changed, for instance when only ghosts expired in it
  (`Lifecycle.CoreStopsExactly`; `Interference.ExpiredGhostStopsCore`);
- a carried-over rename loses its mark although a mate exists (`Links.LinkedExactly`; `Links.TombstoneComesLate`,
  `Links.LateTombstone`);
- bundles that ship different contents leave a tombstone or nothing of a name (`Consolidation.GroupSplits`;
  `Consolidation.PairsCancel`);
- a tombstone with a live hash suppresses a fullfile (`Fullfiles.MadeExactly`; `Fullfiles.TombstoneShadows`), which
  never happens in a full manifest (`Fullfiles.DeadStayZero`);
- the sizes of installed bundles add up to too much (`ContentSize.SizesAddUp`, `Installation.InstalledSizesAddUp`;
  `ContentSize.NeighboursOverlap`);
- a delta is not made (`Packs.ConsolidatePacksDeltaFiles`; `Packs.ClashingDeltas`);
- explicit mention of os-core moves it in the include list (`IncludeLists.ExplicitCore`; `IncludeLists.ExplicitCoreMoves`);
- the count of a parsed MoM is too large, by one for each nested manifest (`ManifestText.CountOfBody`).

Code and comment disagree in one place, and the model follows the code: the size ratio of
`rename_score` is an integer division (src/rename.c:170-177): it is 1 when the old file is at least as
large as the new one and less than twice as large, and 0 otherwise.

Verify everything with `dafny verify dfyconfig.toml --resource-limit 2000000 --verification-time-limit 0`.
Many lemmas and methods begin with a `hide` statement: it names the definitions that the proof does
not need.

## Model

| member | source | states |
|---|---|---|
| Sorting.SortIsStable | src/manifest.c:439-440 | the sort behind every merge is sorted, a permutation, and keeps equivalent records in their order (what `g_list_sort` promises) |
| Strings.LessIs | src/manifest.c:74-93 | names are compared at the first position where they differ, and a name comes after those that it continues |
| Files.FilenameSorted | src/manifest.c:74-93 | `file_sort_filename`: names ascend, and of two records of one name the live one comes first |
| Files.SortByFilename | src/manifest.c:439-440 | sorting a list with distinct names in place keeps its table and puts the names in strictly ascending order |
| Files.VersionLeIsTotal | src/manifest.c:54-72 | `file_sort_version` is a total preorder, so the stable sort applies |
| Matching.AddDeletedFile | src/manifest.c:375-412 | the tombstone is new, linked both ways, prepended and counted; which bits, hash and release it inherits depends on whether the source was dead already |
| Matching.MatchPair | src/manifest.c:455-470 | a name in both lists: back-filled exactly if unchanged and not older than minversion, peers exactly if the old record was live |
| Matching.SameExactly | src/manifest.c:358-368 | two records count as the same exactly if they differ in is_ghosted, is_rename and last_change at most |
| Matching.TombstoneOf | src/manifest.c:375-412 | a shipped file's tombstone is blank and of this release; a tombstone stays the one that it is, but for a boot file's, which becomes a ghost; a ghost is deleted in this release |
| Matching.MatchManifests | src/manifest.c:422-522 | the in-place two-cursor merge, which prepends to the list it walks, computes the join of the two tables by name; names stay unique, `count` is the list length, records are linked mutually exactly where the old one was live or the name is gone, and the result is the number of names added, changed or newly deleted |
| Matching.MatchRecords | src/manifest.c:422-522 | on freshly read lists the merge leaves no record shared and no rename partner set |
| Heuristics.ClassesDisjoint | src/heuristics.c:35-115 | no path is in two of the three classes config, state, boot |
| Heuristics.StateExactly | src/heuristics.c:43-102 | state is what lies below nine directories, but of /usr/src neither `kernel` with all below it nor `debug` itself, and what begins with one of fourteen names; the other eight shipped directories need no exception |
| Heuristics.BootExactly | src/heuristics.c:104-115 | boot files are what lies below four directories, and what begins with one of two programs' paths, with or without a slash after it |
| Rewriting.RuntimeStateHeuristics | src/heuristics.c:43-102 | the early returns and prefix tests set the state bit exactly on state paths, and touch nothing else |
| Rewriting.ApplyHeuristics | src/heuristics.c:117-131 | every record gets exactly the bits its path says, in place |
| Rewriting.AddComponentHashesToManifest | src/analyze_fs.c:588-625 | the merge that skips deleted records of the full list gives every name exactly the hash of the live full entry, and leaves the full manifest as it was |
| Rewriting.MaximizeVersionManifests | src/manifest.c:1221-1266 | after the merge every full entry has the later of the two releases wherever the bundle's entry is not deleted, and nothing else changed |
| Rewriting.MaximizeToFull | src/manifest.c:1273-1284 | all bundles, one after the other, on the records themselves |
| Rewriting.MaximizeBackwards | src/manifest.c:1170-1187 | the MoM lists its submanifests last first; the result is the same |
| Rewriting.PruneManifest | src/manifest.c:1061-1108 | the walk that deletes the link it stands on leaves exactly the entries that pruning keeps, ghosts exactly the deleted boot files, and returns the number of entries of this release |
| Subtracting.SubtractManifests | src/manifest.c:563-606 | on the lists: exactly the names that both list with equal is_deleted 0 and is_file go; a manifest is never subtracted from itself; the other table is untouched |
| Subtracting.RemoveDeprecatedFiles | src/manifest.c:970-1024 | exactly the names that both_deleted or both_ghosted accepts go, and the result is their number |
| Including.GetUniqueIncludes | src/manifest.c:524-551 | terminates on acyclic includes and yields each bundle of the transitive closure, and nothing else, once |
| Including.SubtractManifestsFrontend | src/manifest.c:608-631 | `subtract_manifests_frontend(m, m)`: one filter against the whole closure, whatever the order in which the hash table yields it; no other manifest's table changes |
| Subtraction.SubtractEachFilters | src/manifest.c:623-630 | subtracting a list of manifests one after the other is one filter |
| Subtraction.AnyIterationOrder | src/manifest.c:545-548 | any listing of the closure gives the same result |
| Subtraction.TurnIsExact | src/manifest.c:574-605 | a bundle whose turn it is loses exactly what its included bundles shipped originally, however many of them were subtracted before, if and only if no ghost of theirs cancels a directory or link |
| Subtraction.OrderDoesNotMatter | src/create_update.c:491-524 | with no ghost that could cancel a shipped name, two passes in any two orders leave each bundle shipping the same: its contents minus the original contents of all it includes |
| Subtraction.NothingIsLost | src/create_update.c:514-524 | with no ghost that could cancel a shipped name, after the pass every file a bundle shipped is shipped, with the same is_file, by the bundle or by one it includes |
| Subtraction.GhostCancelsDirectory | src/manifest.c:596 | a concrete case in which a ghosted record makes a directory disappear that nobody else ships |
| Subtraction.OnlySubtract | src/manifest.c:574-605 | subtraction treats each name for itself |
| IncludeLists.Canonical | src/analyze_fs.c:544-563 | sorting, de-duplicating and prepending an includes file gives the strictly descending list of its members, whatever the order and the duplicates |
| IncludeLists.HeaderRoundTrip | src/manifest.c:189-194 | writing the list, reading it in reverse and resolving it again restores it |
| IncludeLists.ExplicitCore | src/create_update.c:514-520 | when naming os-core explicitly gives the same list as not naming it: exactly if it sorts after all others |
| IncludeLists.ChangedIsDecisive | src/manifest.c:942-963 | the positional comparison reports no change exactly if both releases' includes files name the same bundles (with the exact exception of an explicit os-core), and never when the resolved sets differ |
| RenameScores.ComputeRenameScore | src/rename.c:92-185 | the additive loop computes the score, with the early exits, the sign tests on the sizes, and a size ratio that is a whole number |
| RenameScores.MovedFileQualifies | src/rename.c:98-111 | an unchanged file that moved qualifies as a rename exactly if it is not smaller than a delta |
| RenameScores.ScoreOfNames | src/rename.c:92-185 | the score, written out in the parts of the two paths, for files of one size and type: 400 points for equal contents, 10 for the same directory, the length of the common stem, 35 for the same basename, 50 for the same letters, 5 for each slash in the common end of the directories, and 1 for the size |
| RenameScores.OneCriterion | src/rename.c:92-185 | two pairs of files that agree in every criterion but one have scores that differ by exactly what that one is worth, for each of the ten criteria, the two size penalties, the size ratio and the type among them |
| RenameScores.OtherSizes | src/rename.c:98-180 | what an old file of another size costs: 30 points beyond a quarter and 1024 bytes either way, the point of the ratio, and all if it is empty; and a new file below 200 bytes never qualifies |
| RenameScores.OtherType | src/rename.c:181-183 | a type that is not known to be the same costs exactly 60 points, two unknown or empty ones included |
| RenameScores.RenumberedFileQualifies | src/rename.c:133-136 | a file whose path changes in digits and punctuation only qualifies with at least 51 points, whatever its new contents |
| Renames.NewFilteredList | src/rename.c:290-302 | a filtered list holds each record that passes the filter exactly once |
| Renames.ScoreFile | src/rename.c:257-279 | the stored score bounds the score of every deleted file still listed, and the stored candidate reaches it |
| Renames.Rescore | src/rename.c:420-426 | re-scoring a file that lost its candidate keeps the whole state and makes one file less stale, which is why `goto redo` ends |
| Renames.LinkRename | src/rename.c:428-437 | making a link keeps the matching injective and stable |
| Renames.MatchBestFirst | src/rename.c:399-442 | the redo loop terminates and ends in a stable partial injection |
| Renames.RenameDetection | src/rename.c:365-447 | from the two filtered lists: a partial injection with scores of at least 15, mutual rename_peer, equal hashes and both marks; no deleted file and new file with score at least 15 would both rather have each other; the scores are those of the two files' traits; nothing else changes |
| Renames.DetectMatched | src/rename.c:365-447 | on matched manifests, by name: the renames are from tombstones of this release whose old file was no directory or link to new files of this release; of any such two with a score of at least 15, one is in a rename of at least that score; the table is exactly `ApplyRenames`; the two records of each rename point to each other, and of all others only new files that did not score enough have rename_peer set |
| Links.LinkedExactly | src/rename.c:449-489 | which carried-over renames find a partner, whatever other renames the manifest holds: if no record of this change and hash had one, exactly those with a mate further down the list, or with a mate that is the first of that change and hash |
| Links.TombstoneComesLate | src/rename.c:449-489 | an input: of two tombstones around the file that both may have become, the second stays without a partner although the file is its mate |
| Links.LateTombstone | src/rename.c:449-489 | the same on three records: `final_link` links the first tombstone with the file and leaves the second alone |
| Links.FinalLink | src/rename.c:449-489 | the nested loops link exactly those, a link that was sound stays sound, and a linked record keeps its link unless a mate of its had none |
| Links.CleanRenames | src/manifest.c:1028-1054 | from sound links, no mark is left whose other end is not in the same manifest, marked, of the same release and hash and of opposite is_deleted; a tombstone that lost its mark has the zero hash; a link that leads elsewhere stays if the mates of its record are linked; nothing else changes |
| Lifecycle.RenameKeepsBothEnds | src/create_update.c:407-420 | in the tables: a rename made in this release still has both names when orphans are looked for if and only if the renamed-from file was not an expiring ghost |
| Processing.CleanStep | src/manifest.c:1028-1054 | on the records: after clean_renames no mark is left without its other end, if and only if no rename of this release started at a ghost |
| Processing.CleanBundle | src/create_update.c:526-549 | the same where a bundle's processing cleans, with all that the steps from the detection on leave of links and tables; if no ghost was renamed, the marks of the cleaned table come in pairs |
| Remains.MarksAfterPruning | src/manifest.c:1061-1108 | a mark that pruning leaves has its other end in the pruned table, a boot file's as a ghost, exactly if the cleaned table had one that pruning does not take: whose path is not banned and, if it is live, no configuration file's on a stateless system, or that is a boot file's tombstone |
| Remains.PrunedEnd | src/manifest.c:1074-1078 | an input: a file moves into the configuration of a stateless system; its tombstone is published with the mark and the file is not |
| Remains.RunKeepsMarks | src/create_update.c:545-564 | over every sequence of builds, for every manifest that is written: this holds of each mark; if no ghost was renamed there was such an end; and if nothing can be pruned the published marks come in pairs |
| Interference.RenameFromGhost | src/create_update.c:541-549 | an input, as a run of three builds: a boot file moves into the core, and in the next release its ghost in the old bundle is taken for the source of a new file; the published manifest marks that file as renamed and does not list the other end |
| Interference.GhostQualifies | src/rename.c:208-216 | that rename scores enough, as the core's copy in the full image of the release gives the ghost its size |
| Processing.TypeChangeDetection | src/type_change.c:53-111 | passes exactly if no record differs in type from its live peer other than by an allowed transition |
| Processing.ProcessBundle | src/create_update.c:526-564 | a bundle's way from matching to writing, on the records: whether the run stops, the bundle stays at its old version or is written, and the table it then has, are what the value form of the release model says; its renames are the best ones of the files that vanished and appeared; if no ghost was renamed, the marks of the cleaned table come in pairs |
| Processing.MovedFileIsRenamed | src/create_update.c:533-538 | hence a regular file of 200 bytes or more that moved as it was takes part in a rename of at least the score of its move, or its new name does |
| NextManifests.BundlesFollowRun | src/create_update.c:377-566 | over every sequence of builds, for every bundle and every name: the bundle is written anew exactly if some listed or unlisted name changed in a way that is written down, or, but for os-core, if a ghost expires, the includes changed, or a new format takes old tombstones away and anything changed at all; its new manifest ships what it lists as it is in the image, since the old release exactly if nothing changed, no directory having become a file or link; and of what it lists no more it holds a tombstone or ghost of this release, an old tombstone unless the format is new, or nothing if the path is banned; else the MoM names the old manifest |
| NextManifests.TypeChangeKinds | src/type_change.c:53-91 | of the nine pairs of types exactly those that turn a directory into a file or link are refused |
| Lifecycle.ZeroMeansSame | src/manifest.c:445-521 | a zero return means that the new manifest equals the old one entry by entry, and conversely |
| Lifecycle.BootFileIsGhosted | src/manifest.c:1079-1083 | for one bundle that is written: a boot file that subtraction left in its old list and that it lists no more is ghosted |
| Lifecycle.GhostIsDropped | src/manifest.c:970-1024 | for one bundle that is written: a ghost that subtraction left in its old list is gone, unless the name is listed again, and then it is new |
| Lifecycle.GhostForcesWriting | src/create_update.c:551 | a ghost that subtraction left in the old list and that is listed no more keeps a bundle from staying at its old version |
| Ghosts.GhostLifeCycle | src/create_update.c:530-555 | over every sequence of builds, for each boot file in the manifest that the MoM names for a bundle: not listed any more, a shipped file is ghosted in this release, and a ghost is gone, if and only if no last published manifest of a bundle that it included has the name, not deleted and with equal is_file (for a ghost: or the bundle is rewritten all the same); otherwise the old entry vanishes without a ghost from a rewritten manifest, or stays published; listed again, the name is new |
| Ghosts.CancelsAsPublished | src/create_update.c:514-524 | subtraction of the bundles before makes no difference to that: an old entry is cancelled at its bundle's turn if and only if a published manifest of an included bundle has it |
| Ghosts.LifeCycleAtTurn | src/create_update.c:530-555 | the same life cycle for any old includes, in terms of the lists as they stand when the bundle's turn comes |
| Interference.RunRests | src/create_update.c:491-566 | every run of a world of three bundles and one boot path is what a table of transitions says, from the first build on, including the build that stops |
| Interference.ExpiredGhostStays | src/manifest.c:596 | an input: a boot directory moves from a bundle into the core; the ghost of release 2 is still in the manifest that the MoM of release 3 names |
| Interference.DroppedDirectoryStays | src/manifest.c:596 | an input: a boot directory of two bundles leaves both, one after the other; release 3 still ships it live |
| Interference.MovedDirectoryIsLost | src/manifest.c:596 | an input: a boot directory moves from the core into a bundle; no manifest of that release ships it |
| Interference.MovedFileIsShipped | src/manifest.c:596 | the contrast: with a regular boot file the same moves leave it shipped |
| Interference.ExpiredGhostStopsCore | src/create_update.c:416-425 | an input: a boot file leaves the core; the next build changes nothing else and is not published |
| Lifecycle.BumpLeavesFreshTombstones | src/create_update.c:539-543 | after a format bump every tombstone of a rewritten manifest is of this release, of a file that was live and is no boot file |
| Remains.RunLeavesFreshTombstones | src/create_update.c:539-543 | over every sequence of builds: a bundle whose manifest is of an older format keeps that manifest, or gets one in which every tombstone is of this release and of a file that the old one shipped and the bundle lists no more |
| Lifecycle.CoreStopsExactly | src/create_update.c:416-425 | the whole run stops exactly when os-core differs only by changes that pruning removes, expired ghosts, or deletions whose tombstones are banned |
| Lifecycle.NewExactly | src/manifest.c:1096-1107 | the pruned manifest has new files exactly for the differences that leave something behind |
| Lifecycle.ShippedName | src/manifest.c:455-464 | a shipped name keeps its last_change exactly if the old manifest shipped it just the same |
| Availability.ContentIsAvailable | src/create_update.c:449-600 | over every sequence of builds: every live entry (hash, last_change) of every bundle manifest ever published has a fullfile made by the release last_change |
| Availability.MomNamesWrittenManifests | src/create_update.c:526-566 | over every sequence of builds: the MoM names only versions whose manifest was written, or version 0 |
| Availability.MaximizedName | src/manifest.c:1268-1284 | the full manifest dominates every live bundle entry and changes nothing but last_change |
| NextManifests.FullFollowsRun | src/create_update.c:330-356 | over every sequence of builds, for every name: what the new full manifest holds, in terms of the old one and the image: what the image holds unless it is pruned, since the old release or a later one if nothing changed, and else since this one; tombstones and ghosts of this release for what it holds no more; expired ghosts gone, and old tombstones gone with a new format and kept with their release without one |
| NextManifests.RunLeavesFreshFull | src/create_update.c:339-340 | in a release of a new format every deleted entry of the full manifest is of this release, and names a file that the previous one shipped and the image holds no more |
| NextManifests.FormatNeverFalls | src/create_update.c:366-377 | over every sequence of builds the format of the newest MoM never falls |
| NextManifests.FormatOfBuild | src/create_update.c:366-377 | a build of an older format publishes nothing, and a release has the format of its build |
| Consistency.ManifestsAreConsistent | src/manifest.c:455-464 | over every sequence of builds: what a newer manifest of a bundle ships unchanged since release v is shipped, just the same, by the manifest of release v |
| Shipping.JobShips | src/create_update.c:526-564 | processing a bundle neither drops nor adds a shipped name |
| Shipping.JobPublishes | src/create_update.c:526-564 | whether the bundle is rewritten or stays at its old version, the manifest that the MoM names ships all that the bundle ships |
| Shipping.RunLosesNothing | src/create_update.c:449-567 | over every sequence of builds: every file put into a bundle, if not banned and not a directory or link among the boot files, is shipped by the published manifest of that bundle or of one it includes |
| Ghosts.RunShipsUncancelled | src/create_update.c:526-566 | over every sequence of builds, boot directories included: a bundle lists what the build put into it, if not banned, if and only if no included bundle's list at that turn has the name, not deleted and with equal is_file; and what it lists, the manifest named by the MoM ships |
| Losses.ListedExactly | src/create_update.c:514-524 | of what a build put into a bundle and into none that it includes, the bundle lists everything but the boot directories and links that an included bundle, whose turn comes earlier, ghosts in this release: which it does exactly if its last manifest shipped the name and that of no bundle it included had it, not deleted and with equal is_file |
| Losses.RunLosesExactly | src/create_update.c:449-567 | over every sequence of builds with acyclic includes: what each published manifest ships of the image, if not banned, is what its bundle lists by that rule, and what an old manifest that stays ships; so a name is lost to a bundle and all that it includes exactly if each of them drops it by these two rules |
| History.PublishedIsBuilt | src/create_update.c:491-566 | over every sequence of builds with acyclic includes, whatever bundles, formats and minversion: the newest manifests ship a name that is no boot file, if not pruned, exactly if the last published build put it into the bundle and into none that it includes, with the type and hash of the image |
| History.LastChangeIsExact | src/manifest.c:375-522 | over every sequence of builds in which bundles are added, in any order, and none is dropped: every bundle's last_change is the latest release in which the bundle began or ceased to list the name, or its type or hash changed; tombstones stand exactly while it does not list it |
| History.LastChangeSince | src/manifest.c:375-522 | the same when bundles come and go, about the releases since the bundle was last added |
| History.FirstBuildIsPublished | src/create_update.c:416-433 | the run model is not empty: a first build of any bundles, in which nothing can be renamed yet, is published if and only if os-core ships nothing or something that is not pruned |
| Consolidation.ConsolidateSubmanifests | src/manifest.c:1307-1416 | gathering, sorting and the deleting walk compute, on the records, what the walk over values computes; the submanifests' lists are emptied |
| Consolidation.LastInFront | src/manifest.c:1315-1325 | the list of the last submanifest comes first in what is gathered |
| Consolidation.ConsolidatedGroup | src/manifest.c:1363-1400 | the walk decides each name by itself and leaves at most one record of it |
| Consolidation.NameSurvives | src/manifest.c:1338-1357 | for any number of records: a name whose live records agree on the hash survives exactly once, live if one was live, else a renamed-from tombstone if there was one, else a plain one |
| Consolidation.LivesCancel | src/manifest.c:1407-1415 | the hashes alone decide whether shipped records of one name cancel out: the last differs from the one before, and those up to that one did not cancel out themselves |
| Consolidation.GroupSplits | src/manifest.c:1407-1415 | for any group: if the hashes do not cancel out, what is left is live with the last hash; exactly if they do, the tombstones decide |
| Consolidation.StaysShipped | src/manifest.c:1363-1415 | for the whole list: a shipped name is live after the walk exactly if its hashes do not cancel out |
| Consolidation.PairsCancel | src/manifest.c:1407-1415 | two shipped records that disagree leave nothing, or a third one's tombstone, or a third shipped record even if it agrees with one of them |
| Fullfiles.OneForEachHash | src/fullfiles.c:238-277 | the two loops list exactly one record for each new hash: the first new record of all for its hash, else the first that is not deleted |
| Fullfiles.DistinctHashes | src/fullfiles.c:238-277 | no two tasks have the same hash, so no two threads write the same fullfile |
| Fullfiles.MadeExactly | src/fullfiles.c:301-304 | a fullfile is made exactly for the hashes of live new files that no dead record shadows |
| Fullfiles.TombstoneShadows | src/fullfiles.c:249-258 | a renamed-from tombstone that comes first of all new records takes the place of the live file with its hash |
| Fullfiles.GetDeduplicatedFullfileList | src/fullfiles.c:238-277 | the method on the list: sorted by hash in place, and the result holds exactly the deduplicated records |
| Fullfiles.DeadStayZero | src/manifest.c:375-412 | over every sequence of builds: in the full manifest exactly the dead entries have the zero hash |
| Fullfiles.EveryReleaseIsComplete | src/fullfiles.c:279-318 | hence, after every build, the tasks make exactly the fullfiles that availability counts on |
| Packs.LinkRenames | src/rename.c:497-534 | a renamed-to record without a peer takes the peer of the first renamed-from record of the target release with its hash in the order by version and name, if there is one; no other record changes its links |
| Packs.RunsMakeOneHistory | src/pack.c:129-149 | any two manifests that a bundle had in one run, or one and the empty manifest of version 0, are of one history |
| Packs.CoverName | src/pack.c:160-169 | a shipped file is in exactly one of the two passes if the older manifest does not ship it just the same, and in neither if it does |
| Packs.PreparePack | src/pack.c:129-149 | after matching and linking renames this holds of every record, and nothing dead is taken |
| Packs.MakePackFullFiles | src/pack.c:151-214 | the first pass stages exactly the shipped files without a live older record and without a rename partner, in the fields of the records |
| Packs.MakeFinalPack | src/pack.c:322-424 | the second pass stages exactly the files changed since the older release that have a peer and a type, in the fields of the records |
| Packs.PackedOnce | src/pack.c:160-345 | a pack holds each new or changed file once and everything else not at all |
| Packs.RunsArePackable | src/pack.c:129-149 | whatever two releases of one run a pack leads from and to: the two manifests are of one history, and every live entry of the newer one, once it is matched, has a fullfile of the run, made by its last_change with its hash |
| Packs.MakePack | src/pack.c:512-535 | the whole pack from two manifests of one run: both passes together stage every new or changed file once and nothing else, and for each a fullfile of the run holds what is staged |
| Packs.FindFileInList | src/pack.c:216-236 | finds a task exactly if one has the same hash, release and old release |
| Packs.ConsolidatePacksDeltaFiles | src/pack.c:238-279 | every file of the pack whose delta, by its two releases and two hashes, is not on disk gets a task with its hash, release and old release; tasks are only added for such files; keys stay distinct; every such delta is made if and only if no two of the files share new contents and releases but not the old contents |
| Packs.ClashingDeltas | src/pack.c:225-229 | an input: two files with equal new and different old contents, of which one gets no delta |
| Packs.NameTells | src/delta.c:64 | the printed name of a delta file determines both releases and both hashes, if the old hash has no dash in it |
| Packs.DistinctPaths | src/delta.c:64 | distinct keys are distinct output files for such hashes, so no two threads write the same delta |
| Packs.NameOfSample | src/pack.c:264-265 | the name of the delta from release 10 to 20, character by character |
| ManifestText.FlagsRoundTrip | src/manifest.c:230-275 | four characters hold an entry's flags exactly if at most one type bit, one of deleted and ghosted, and one of config, state and boot is set |
| ManifestText.LaterTestsWin | src/manifest.c:637-673 | where several bits compete for a character, the last test that succeeds decides |
| ManifestText.IntRoundTrip | src/manifest.c:301 | every 32-bit number comes back from `%i` through strtoull and the conversion to int, negative ones included |
| ManifestText.LineRoundTrip | src/manifest.c:222-308 | a printed line is read as it was, even if the name holds tabs |
| ManifestText.NestedRoundTrip | src/manifest.c:633-676 | a printed line of a nested manifest is read as one, with its name, hash and release, whatever its type bits |
| ManifestText.RoundTrip | src/manifest.c:112-324 | reading a written manifest gives back format, versions, the includes in reverse, the same entries sorted by name, and the nested manifests last first, for a MoM as for any other |
| ManifestText.PrintedSubversion | src/manifest.c:1203-1218 | the release printed for a bundle is the one that looking it up in the text gives, in whatever order the manifests were nested, and 0 for all other names |
| ManifestText.ManifestSubversion | src/manifest.c:1203-1218 | the loop finds the release of the first nested manifest of that name, or 0 |
| ManifestText.SampleIsPrinted | src/manifest.c:750-783 | a manifest with a record of each kind, character by character |
| ManifestText.SampleIsRead | src/manifest.c:112-324 | and what is read of that text |
| ManifestText.NumberIsRead | src/manifest.c:301 | a number is read after blanks and a sign and up to the first character that is no digit, and one that is too large as the largest |
| ManifestText.LongLine | src/manifest.c:203-216 | a line that fills the buffer of 8190 characters is cut there, and what follows is read as the next line |
| ManifestText.ReadFields | src/manifest.c:222-308 | flags are read exactly where the first three letters are known, and else the program ends; of a longer hash 64 characters are kept |
| ManifestText.NoManifest | src/manifest.c:136-157 | a text that does not begin with the format line, or whose format is 0 or no number, is no manifest |
| ManifestText.HeaderWithoutTab | src/manifest.c:176-182 | a header line without a tab ends the program |
| ManifestText.IncompleteLine | src/manifest.c:222-308 | below a header and records, a line with fewer than four fields is passed over if its flags are known, and else ends the program |
| ManifestText.NamesThatComeBack | src/manifest.c:203-216 | names with a newline or beyond the line buffer never come back: the conditions on names are necessary |
| ManifestText.CountOfBody | src/manifest.c:310-316 | the count of a parsed manifest is its number of records plus one more for every nested manifest |
| Reading.PublishedFlagsSurvive | src/manifest.c:633-676 | over every sequence of builds: the flags of every entry of every bundle manifest and of the full manifest survive the text |
| Reading.PublishedTablesComeBack | src/manifest.c:112-324 | over every sequence of builds: any table that was published, printed in any order under any header that fits, is read back as it was, for names, hashes and numbers that fit a line |
| Reading.MomOfRunComesBack | src/create_update.c:364-447 | over every sequence of builds: a MoM that names the newest manifest of every bundle, printed in any order with any hashes, is read back so that for every bundle the next run finds just the manifest that its new one is matched against |
| ManifestText.ManifestFromFile | src/manifest.c:112-324 | the reading loops compute the parse, with its three ways to fail |
| ManifestText.WriteManifestPlain | src/manifest.c:750-828 | the printing loops write the header lines, the records and the nested manifests in order |
| ContentSize.ComputeContentSize | src/manifest.c:691-710 | the loop adds what the records contribute to the size stored before |
| ContentSize.RecordSize | src/manifest.c:700-707 | a deleted record adds nothing, and each other one what its type says, a ghost included: the size of a file, 1024 for a link or directory |
| ContentSize.SizeIsTotal | src/manifest.c:691-710 | that is the sum over exactly the shipped names |
| ContentSize.SizesAddUp | src/manifest.c:678-710 | after subtraction in any order, for any bundles that are installed together with all that they include: the sizes add up to the size of the union of what was put into them, each file counted once, if and only if no two of the bundles that are on no include chain list one file of a size; and else to more |
| ContentSize.ChainSizesAddUp | src/manifest.c:678-683 | in particular they add up along every include chain, of any length, where each bundle includes all before it |
| ContentSize.NeighboursOverlap | src/manifest.c:685-690 | an input: two bundles beside each other that hold one file, whose size counts twice |
| Installation.InstalledSizesAddUp | src/create_update.c:491-566 | over every sequence of builds with acyclic includes: the sizes of the manifests that the newest MoM names, for any bundles that hold with each other all that they include, add up to the size of what the last build put into them if and only if no two on no chain list one file, and else to more |
| Installation.InstalledChainAddsUp | src/create_update.c:491-566 | in particular along every include chain of the last release |
| Installation.ReleaseChain | src/create_update.c:514-520 | os-core, a bundle, and a bundle that includes that one are such a chain, os-core being in every include list |

## Left out

- Input and output: directory walking, stat, tar, rsync, mmap, processes, threads, logging, option and
  configuration parsing. The image is a map from names to type and content hash; whether a delta is on disk,
  sizes and the output of file(1) are inputs.
- HMAC hashing, bsdiff, libmagic and extended attributes: hashes and file types are opaque values.
- `get_last_versions_list` in src/versions.c: its result is only freed.
- NULL arguments of the engine's functions, which return early with a message.
- The bundle loop and the phases of `main` are on values: only one bundle's processing is composed on
  the records (`Processing.ProcessBundle`), with the type check where bundles have it; os-core has it before
  rename detection, which sees the same live records.
- Release.CreateUpdate: the includes file of os-core is taken to be empty, and no bundle names a bundle
  outside the group file; naming os-core in an includes file resolves to a second, unprocessed copy of its
  manifest (src/create_update.c:446, 466), which is not modelled.
- Release.Step: a run that stops before it is complete publishes nothing, although manifests of the
  unfinished version may already lie in the output directory.
- Including.GetUniqueIncludes: the original does not terminate on cyclic includes; here they are excluded by a rank.
- Subtraction.NothingIsLost: assumes that no processed bundle holds a ghosted record that could cancel a shipped name,
  since with such ghosts it fails; `Subtraction.TurnIsExact` says exactly when.
- History.LastChangeIsExact: with one format throughout and minversion 0, as format bumps and minversion rewrite
  history on purpose, and for names that are neither boot files nor pruned; a bundle that was dropped and comes back
  begins anew, which `History.LastChangeSince` covers, for old manifests that include no dropped bundle: there the
  original follows a null pointer.
- Shipping.RunLosesNothing: for acyclic includes, and not for banned names, which are pruned on purpose, nor for boot
  directories and links, which a ghost can cancel (`Interference.MovedDirectoryIsLost`); `Losses.RunLosesExactly`
  says when exactly.
- Ghosts.GhostLifeCycle: for old includes that name known bundles and have no cycle, without which the original
  follows a null pointer or does not terminate; `Ghosts.LifeCycleAtTurn` does without. `Losses.RunLosesExactly` has
  the same hypothesis.
- Remains.RunKeepsMarks: that a cleaned table's marks come in pairs when no ghost was renamed is a hypothesis about
  the links found in that build; it is what `Processing.ProcessBundle` ensures of the links that it finds.
- Processing.CleanBundle: that the old manifest is of an earlier release and that nothing in the new one is marked
  or ghosted yet is a hypothesis; it holds in every run (`Availability.JobIsOk`, `Processing.JobsAreFresh`).
- ContentSize.SizesAddUp: sizes are unbounded numbers; the original's 64-bit sum would wrap.
- Installation.InstalledSizesAddUp: for names that are neither boot files nor pruned; a ghost can cancel a boot
  directory, and pruned files are in no manifest.
- ManifestText.RoundTrip: for lines that fit the line buffer, names and hashes without newlines, 64 character
  hashes without tabs and numbers of 32 bits; a shorter hash field is read beyond its end by the original.
- ManifestText.WriteManifestPlain: the hash of a nested manifest, which the original computes of the file in its tar
  archive, is an input, and so is the bit that says whether that file is there.
- ManifestText.ManifestFromFile: a nested manifest is recorded but not read in turn; a missing file, which
  gives an empty manifest, is the caller's case here (`Release.OldBundle`).
- NextManifests.BundlesFollowRun: speaks of the bundle's lists once its includes are subtracted; what subtraction
  leaves of them is `Ghosts.CancelsAsPublished` and `Ghosts.RunShipsUncancelled`.
- Packs.DistinctPaths: for old hashes without a dash, which a hexadecimal digest never has; with one, two files can
  have one delta path (`Packs.DashesConfuse`).
- Packs.MakeFinalPack: whether the delta or the whole file is staged, a choice by size that falls back to the whole
  file where no delta was made.
- RenameScores.ComputeRenameScore: the sizes are compared with real instead of double arithmetic, and
  isalpha is that of the C locale.
- The counters `fullcount` and the statistics of changed files, which depend on link results or only report.
