# Virtual filesystem and protocol proofs

A Dafny model of the parts of gash whose correctness is hardest to see from the code: the three filesystem
implementations of `pkg/fs` and the copying mounts built on them, three small concurrent protocols, and three
algorithmic kernels. `dafny verify dfyconfig.toml` checks all of it.

## What is modelled

**One reference filesystem.** `Files.dfy` describes a store of entries and nodes that hard links may share,
symbolic-link resolution with its budget of forty links, and, per operation, a plan: the outcome and the effect
on the store. `FileLaws.dfy` proves what plans and effects keep. `Memory.dfy` (a class over a map of shared node
objects, with link counts and a byte counter) and `Database.dfy` (a class over two tables, with garbage
collection and row-by-row renames) are both proved to do what is planned, statement by statement, so each method
is tied to one specification. `Equivalence.dfy` relates the two: stores nobody can tell apart, hard-link sharing
included, stay so over whole runs. `LinkLaws.dfy` tells where links lead from the components of their targets, and
`ReadBack.dfy` what each operation leaves to be read. `StoreExamples.dfy` has concrete inputs on which the two differ.

**The overlay.** `PlainTree.dfy` is a filesystem of directories and files, and `PlainMemory.dfy` shows that this
is what Memory is where nothing is linked. `Layers.dfy` gives lookups, listings, the merged view and the upper
layer each overlay operation leaves behind as functions of both layers; the class in `Overlay.dfy` has the
methods and loops of `pkg/fs/overlay.go` and is proved to compute them. `LayerLaws.dfy`,
`OverlaySimulation.dfy`, `OverlayRemoval.dfy`, `OverlayRename.dfy`, `OverlayLanding.dfy` and `OverlayRuns.dfy`
prove, over all sound layers and names, exactly when the merged view goes through the states of one plain tree
and exactly when what a user hid of the lower layer stays hidden. `OverlayExamples.dfy` has concrete runs on
which it is otherwise.

**Mounts.** `Rebasing.dfy` is about the targets of copied links and `Merging.dfy` about what a source tree copied
over a destination leaves of both; `CopyTree.dfy` has the copier on a Database and the mount policies, and
`MountedLinks.dfy` says that reading through a mount is reading the source.

**Protocols.** `DatabaseLock.dfy` (the lock per database file), `Jobs.dfy` (background jobs and signals) and
`OutputBudget.dfy` (the lock-free output budget) give the critical sections as methods of classes, or atomic
steps, and state their properties over every interleaving.

**Kernels.** `Diff.dfy` (line diff), `Checksum.dfy` (the cksum utility of POSIX.1-2017, Shell and Utilities) and
`Factor.dfy` (trial division).

Names are sequences of components, `.` being the empty one; `Paths.NamesAreTexts` shows that they are the texts
`io/fs.ValidPath` accepts, and `Paths.WithinText` that the textual tests of the sources are prefix tests on them. Strings that `io/fs.ValidPath` rejects are sequences with an
invalid component. The target of a link is its components and whether it starts with a slash. Maps have no order
in Go; loops over them pick their next element arbitrarily here, so nothing depends on it.

## Where the code parts from what it is meant to do

Each of these is kept as the code has it, and the theorems say exactly when it matters.

- A rename of `.` moves the root entry away in both Memory and Database (`FileLaws.StepKeepsTree`,
  `StoreExamples.RootMoveExample`).
- Over quota, Memory.AppendFile leaves an empty file behind, and Database.WriteFile a dangling link removed; and
  Memory.Link takes the parent of the new name literally where Database.Link resolves it
  (`Equivalence.StepsAgree`, and the other lemmas of `StoreExamples`).
- Overlay.WriteFile on a directory of the lower layer only reports success and shadows it with a file
  (`OverlaySimulation.WriteFileSimulates`, `OverlayExamples.WriteFileExample`).
- Overlay.Rename judges an existing target by the upper layer alone: a target in the lower layer only is not
  checked, and left-over markers make an empty directory look populated (`OverlayRename.RenameSimulates`,
  `OverlayExamples.RenameExample`, `OverlayExamples.LeftOverMarkerExample`). Nothing hidden comes back by that, but
  a directory can come to stand over a lower file that shows (`OverlayLanding.RenameHides`,
  `OverlayExamples.LandingExample`).
- Overlay.RemoveAll below a file of the lower layer only reports success where a plain tree reports "not a
  directory" (`OverlaySimulation.RemoveAllSimulates`, `OverlayExamples.RemoveAllExample`).
- Overlay.ReadDir folds markers in name order, so a directory remade under a name that sorts before its marker is
  missing from listings (`LayerLaws.ListingExactly`). Nothing else goes wrong until a directory that holds only
  such entries is removed: Remove takes it for empty, drops the markers in it, and then fails as it is not. Lower
  entries that only those markers hid are back, deleted files among them (`OverlayRemoval.RemoveSimulates`,
  `OverlayRuns.HiddenStaysHidden`, `OverlayExamples.MarkerOrderExample`).
- A copied link whose target climbs above the root of the source leads elsewhere (`Rebasing.RebaseMeaning`,
  `Rebasing.ClimbingExample`).
- MountMerge leaves every entry alone that the source does not provide, unless it is another name of a file the
  source does provide: that gets the new data too (`Merging.StandingData`, `Merging.SharedExample`).
- A caller that is handed the database lock and still takes its context leaves the lock held for good
  (`DatabaseLock.DroppedForever`, `DatabaseLock.DropExample`).
- From the 2001st job on, a job number can be read as the process id of another job
  (`Jobs.ArgumentsUnambiguous`).

## Model

| member | source | states |
|---|---|---|
| `Paths.TextPrefix` | pkg/fs/memory.go:358-388 | the test `HasPrefix(q, p+"/")` the sources write on texts is "properly below" on component sequences, and nothing is textually below "." |
| `Paths.WithinText` | pkg/fs/memory.go:358-388 | the whole test, equal or prefix, is "at or below" |
| `Paths.NamesAreTexts` | pkg/fs/memory.go:41-46 | the names of the model are exactly the texts `io/fs.ValidPath` accepts, told from the parts between slashes |
| `Paths.SplitJoined` | pkg/fs/memory.go:53-53 | components joined with slashes are read back as they were |
| `Files.ResolveCanonical` | pkg/fs/memory.go:48-91 | an entry of a tree resolves to itself, followed or not, so resolution is idempotent |
| `Files.ResolveSound` | pkg/fs/memory.go:48-91 | a successful resolution ends at an existing entry all of whose proper prefixes are real directories, and which is not a link when links are followed |
| `Files.ResolveByParent` | pkg/fs/memory.go:48-91 | resolving a name is resolving its parent, with links, and then the last component with the walks that are left of the 41; all error cases included |
| `Files.PlaceOfMissing` | pkg/fs/memory.go:209-222 | when a name does not resolve but its parent does, the place of the new entry is free or holds a dangling link that was followed |
| `FileLaws.RelocatedEntries` | pkg/fs/database.go:729-749 | a move holds at every name what its origin held: moved names below the new prefix, all others where they were, the target replaced |
| `FileLaws.ExecuteTree` | pkg/fs/memory.go:203-243 | every sound effect keeps the tree: root a directory, parents present and directories, links and directories without data and never hard-linked, every node named |
| `FileLaws.PlanSound` | pkg/fs/memory.go:389-446 | in a tree every operation plans an effect that is sound there, unless it renames the root |
| `FileLaws.StepKeepsTree` | pkg/fs/memory.go:389-446 | an operation keeps the tree if and only if it does not rename the root to a valid name whose place is free or an empty directory |
| `FileLaws.RenameProceeds` | pkg/fs/memory.go:408-446 | when the checks of a rename pass, its target is not the root, has nothing below it, and the move leads to a tree that holds no more bytes |
| `FileLaws.MoveInSteps` | pkg/fs/database.go:708-727 | releasing the target first and moving the rows then is the move |
| `FileLaws.CreateTotal` | pkg/fs/memory.go:198-199 | a new node adds its own bytes to the total over distinct nodes, also when it takes the place of a link |
| `FileLaws.EffectTotal` | pkg/fs/memory.go:230-241 | how far each effect may raise the total over distinct nodes, exactly for creation and rewriting |
| `FileLaws.StepWithinLimit` | pkg/fs/database.go:347-371 | no operation takes the total over a positive limit |
| `FileLaws.ListingKeys` | pkg/fs/memory.go:133-151 | a listing has exactly the base names of the entries directly below a directory, with their nodes |
| `Memory.Node.constructor` | pkg/fs/memory.go:19-25 | a new node has one link |
| `Memory.ValuesAfterDrop` | pkg/fs/memory.go:347-355 | dropping an entry drops its node exactly when that was the last link |
| `Memory.CountReplace` | pkg/fs/memory.go:238-241 | how link counts move when an entry is bound to another node |
| `Memory.CountRelocated` | pkg/fs/memory.go:435-444 | a move keeps the link count of every node |
| `Memory.Memory.constructor` | pkg/fs/memory.go:35-39 | one root directory, nothing used |
| `Memory.Memory.ResolveLocked` | pkg/fs/memory.go:48-91 | the loop computes the resolution of the reference filesystem, 40 links followed at most |
| `Memory.Memory.ResolveParent` | pkg/fs/memory.go:184-194 | the place of a new entry |
| `Memory.Memory.ReadFile` | pkg/fs/memory.go:120-131 | reads what the reference filesystem holds, or its error |
| `Memory.Memory.Stat` | pkg/fs/memory.go:153-171 | kind, data and target at the resolved name, or the error of resolution |
| `Memory.Memory.Readlink` | pkg/fs/memory.go:471-482 | the target of a link that is not followed |
| `Memory.Memory.ReadDir` | pkg/fs/memory.go:133-151 | the listing of the resolved directory, whatever the order of the map |
| `Memory.Memory.CreateFile` | pkg/fs/memory.go:173-201 | new state, outcome and accounting are those of the planned creation; refusals change nothing |
| `Memory.Memory.WriteFile` | pkg/fs/memory.go:203-243 | an existing node is rewritten for all its names, a missing name or a dangling link becomes a new file, the quota refuses before any change; links and bytes stay accounted for |
| `Memory.Memory.AppendFile` | pkg/fs/memory.go:245-277 | as written, including the empty file that stays behind when the quota refuses the bytes |
| `Memory.Memory.Mkdir` | pkg/fs/memory.go:279-303 | creates a directory at the place of the name, or reports what is there |
| `Memory.Memory.Remove` | pkg/fs/memory.go:328-356 | unlinks one entry; the node goes, with its bytes, with its last link only |
| `Memory.Memory.RemoveAll` | pkg/fs/memory.go:358-387 | takes the whole subtree in any order of the map, also with several links to one file in it; links and used bytes agree afterwards |
| `Memory.Memory.Rename` | pkg/fs/memory.go:389-446 | the checked move; outcome, entries and the surviving nodes are the planned ones, and links and bytes agree unless the root was renamed |
| `Memory.Memory.Relocate` | pkg/fs/memory.go:435-444 | taking the subtree out of the map and putting it back under the new name is one simultaneous move |
| `Memory.Memory.Symlink` | pkg/fs/memory.go:448-469 | creates a link node at the place of the name |
| `Memory.Memory.Link` | pkg/fs/memory.go:484-510 | a second name for the same node object, its link count raised; the new name is taken literally |
| `Memory.Memory.Touch` | pkg/fs/memory.go:512-533 | fails exactly where the name does not resolve and changes nothing the model sees |
| `LinkLaws.RelativeLink` | pkg/fs/memory.go:70-80 | at any depth, a name through a link whose target is relative and only steps down resolves as the name below the directory of the link, with one walk less |
| `LinkLaws.ParentLink` | pkg/fs/memory.go:70-80 | k leading ".." lead on from k directories further up, and past the root to no valid name |
| `LinkLaws.AbsoluteLink` | pkg/fs/memory.go:70-80 | an absolute target leads on from the root, where ".." is nothing |
| `LinkLaws.IdleParts` | pkg/fs/memory.go:70-80 | empty parts, "." and a step down and up again may be left out anywhere in any target |
| `LinkLaws.IdleOrPlain` | pkg/fs/memory.go:70-80 | every target has such a part in it or is made of steps up and then steps down, so the other laws tell where every link leads |
| `LinkLaws.FortyLinks` | pkg/fs/memory.go:48-91 | a chain of links is followed to its end if and only if it has at most forty, and is a loop otherwise, rings of links included |
| `ReadBack.SymlinkReads` | pkg/fs/memory.go:448-482 | the target given to Symlink is the target Readlink answers, on either implementation |
| `ReadBack.CreateFileReads` | pkg/fs/memory.go:173-201 | the data given to CreateFile is read back |
| `ReadBack.MkdirReads` | pkg/fs/memory.go:279-303 | a directory just made lists as empty |
| `ReadBack.WriteFileReads` | pkg/fs/memory.go:203-243 | data written is read back through the same name, also over a shared file, through links, and over a dangling link |
| `ReadBack.AppendFileReads` | pkg/fs/memory.go:245-277 | data appended follows what was read before, or is all there is |
| `ReadBack.LinkShares` | pkg/fs/memory.go:484-510 | after Link both names mean one node |
| `ReadBack.RemovalReads` | pkg/fs/memory.go:328-387 | a removed name means nothing |
| `ReadBack.RenameReads` | pkg/fs/memory.go:389-446 | after a rename the new name, and each name below it, means what the old one meant, and the old one nothing |
| `Database.RowsListed` | pkg/fs/database.go:303-326 | the rows with a given parent column are the entries directly below that path |
| `Database.LinkGivesWay` | pkg/fs/database.go:282-301 | deleting a link first and creating then is creating over it, at no cost in bytes |
| `Database.PrimaryKeyHolds` | pkg/fs/database.go:729-749 | with any set of rows already moved, the next row is still under its old path and its new path names no row, so the primary key holds at every intermediate state, whatever the order |
| `Database.AllMoved` | pkg/fs/database.go:729-749 | when all rows are moved the table is the simultaneous rename, parent columns included |
| `Database.TopLevelEntry` | pkg/fs/database.go:695-707 | a directory that holds anything has an entry directly in the root |
| `Database.Database.constructor` | pkg/fs/database.go:117-152 | one root row and its node |
| `Database.Database.Lookup` | pkg/fs/database.go:178-207 | the join of paths and nodes for the given paths |
| `Database.Database.InsertNode` | pkg/fs/database.go:163-176 | a new row id, never used before |
| `Database.Database.Collect` | pkg/fs/database.go:675-678 | exactly the nodes some path names are left |
| `Database.Database.UsedBytes` | pkg/fs/database.go:347-356 | the bytes of distinct nodes |
| `Database.Database.CheckQuota` | pkg/fs/database.go:358-371 | refuses exactly a positive growth that exceeds a positive limit |
| `Database.Database.Resolve` | pkg/fs/database.go:212-264 | the same resolution as in memory, from one lookup of all prefixes per link |
| `Database.Database.ResolveParent` | pkg/fs/database.go:268-277 | the place of a new entry |
| `Database.Database.PrepareCreate` | pkg/fs/database.go:282-301 | the place, and the deletion of a dangling link when it may be replaced |
| `Database.Database.ReadFile` | pkg/fs/database.go:411-424 | reads what the reference filesystem holds, or its error |
| `Database.Database.Stat` | pkg/fs/database.go:441-459 | the node at the resolved name, or the error |
| `Database.Database.Readlink` | pkg/fs/database.go:771-784 | the target of a link that is not followed |
| `Database.Database.ReadDir` | pkg/fs/database.go:426-439 | the listing of the resolved directory |
| `Database.Database.CreateFile` | pkg/fs/database.go:461-482 | new tables and outcome are those of the planned creation; table integrity and quota hold afterwards |
| `Database.Database.CreateEntry` | pkg/fs/database.go:484-491 | one node row and one path row with the parent column of its path |
| `Database.Database.WriteFile` | pkg/fs/database.go:493-526 | as planned, including the dangling link that is gone when the quota refuses |
| `Database.Database.AppendFile` | pkg/fs/database.go:528-562 | as planned; the quota is looked at before anything is inserted |
| `Database.Database.Mkdir` | pkg/fs/database.go:564-582 | creates a directory at the place of the name, or reports what is there |
| `Database.Database.MkdirAll` | pkg/fs/database.go:584-604 | the leading names made one after the other; stops at the first error other than "exists" |
| `Database.Database.Remove` | pkg/fs/database.go:606-631 | unlinks one entry unless it is a populated directory |
| `Database.Database.RemoveAll` | pkg/fs/database.go:633-652 | removes the subtree and collects; missing names are no error |
| `Database.Database.RemoveSubtree` | pkg/fs/database.go:654-661 | deletes exactly the rows at and below the path, then the nodes nobody names |
| `Database.Database.DeletePath` | pkg/fs/database.go:663-671 | deletes one row and collects |
| `Database.Database.Rename` | pkg/fs/database.go:680-727 | same outcome and tables as the planned move; integrity and quota hold unless the root was renamed |
| `Database.Database.MovePaths` | pkg/fs/database.go:729-749 | every single UPDATE succeeds, in whatever order the rows come, and the end state is the simultaneous move |
| `Database.Database.UpdatePath` | pkg/fs/database.go:740-746 | an UPDATE is refused exactly when the new path has a row already |
| `Database.Database.Symlink` | pkg/fs/database.go:751-769 | creates a link node at the place of the name |
| `Database.Database.Link` | pkg/fs/database.go:786-812 | a second path row for the same node; the parent of the new name is resolved |
| `Database.Database.Touch` | pkg/fs/database.go:814-838 | fails exactly where the name does not resolve |
| `Equivalence.RelatedObservations` | pkg/fs/database.go:411-459 | related stores answer every read alike: stat, file contents, link targets, listings |
| `Equivalence.RelatedPlan` | pkg/fs/database.go:461-812 | an implementation plans the same on related stores |
| `Equivalence.RelatedExecute` | pkg/fs/database.go:461-812 | the same effect on related stores leads to related stores, hard-link sharing included |
| `Equivalence.PlansAgree` | pkg/fs/database.go:493-562 | where the two implementations plan differently with the same outcome, it is the dangling link or the empty file of a refused write |
| `Equivalence.StepsAgree` | pkg/fs/database_test.go:31-33 | one operation on both implementations has the same outcome and leads to related states again if and only if it is agreeable: no append that creates over quota, no write over quota onto a dangling link, no hard link whose parent means something else literally than resolved |
| `Equivalence.RunsAgree` | pkg/fs/database_test.go:31-33 | over any run of agreeable operations, with any limit, both report the same outcomes and end related |
| `Equivalence.FreshStoresRelated` | pkg/fs/database.go:117-152 | both start related |
| `StoreExamples.RootMoveExample` | pkg/fs/memory.go:435-444 | on a fresh store, renaming the root to a free name is let through and leaves no root |
| `StoreExamples.AppendExample` | pkg/fs/memory.go:264-272 | appending two bytes under a quota of one to a missing file leaves an empty file in Memory and nothing in Database |
| `StoreExamples.WriteExample` | pkg/fs/database.go:509-515 | writing two bytes under a quota of one through a dangling link keeps the link in Memory and deletes it in Database |
| `StoreExamples.LinkExample` | pkg/fs/memory.go:497-506 | a hard link below a link to a directory is refused by Memory and made by Database |
| `PlainTree.LookupIs` | pkg/fs/memory.go:48-91 | in a well-formed layer the walk finds exactly the entries, and tells a missing name from one below a file |
| `PlainMemory.ResolveIsLookup` | pkg/fs/memory.go:48-91 | without links, resolution is the plain walk and a name means itself |
| `PlainMemory.MemoryIsPlain` | pkg/fs/overlay.go:42-52 | on stores without links of either kind and without quota, what Memory does is what PlainTree does, operation by operation: outcome and resulting tree |
| `LayerLaws.ViewWellFormed` | pkg/fs/overlay.go:137-167 | the merged view is a tree |
| `LayerLaws.ViewLookup` | pkg/fs/overlay.go:137-167 | Stat and Lstat through the overlay are the walk through the merged view, errors included |
| `LayerLaws.FileAboveView` | pkg/fs/overlay.go:591-625 | a visible file lies above a name exactly when an upper file does, or a lower one that still shows |
| `LayerLaws.LowerUnderDir` | pkg/fs/overlay.go:98-107 | over an upper directory that is not whited out the lower layer has a directory or nothing |
| `LayerLaws.MarkerInjective` | pkg/fs/overlay.go:687-696 | a marker belongs to one name only |
| `LayerLaws.ReservedIs` | pkg/fs/overlay.go:698-700 | the names kept for markers are exactly those with a component that starts with the characters .wh. |
| `LayerLaws.WhitedOutIs` | pkg/fs/overlay.go:599-625 | a name is hidden if and only if .wh. and the base name stands beside it or beside a name above it |
| `LayerLaws.LessIs` | pkg/fs/memory.go:149-149 | the order of listings is that of bytes: a proper prefix comes first, else the smaller byte at the first difference decides |
| `LayerLaws.MarkerFirstIs` | pkg/fs/overlay.go:119-125 | a marker comes before every name that starts after "." and after every name that starts before it |
| `LayerLaws.PlainNamesListed` | pkg/fs/overlay.go:93-135 | a visible name that starts after "." is never missing from a listing, whatever was removed and made again |
| `LayerLaws.ListingExactly` | pkg/fs/overlay.go:93-135 | a listing is the directory of the merged view minus exactly the entries that stand in the upper layer together with a marker that sorts after them; errors are those of the view |
| `LayerLaws.ListingIsView` | pkg/fs/overlay.go:93-135 | a listing is the directory of the merged view if and only if no entry in that directory is lost to it, and then it is empty exactly when the directory is |
| `LayerLaws.PutFileView` | pkg/fs/overlay.go:186-196 | writing a file through the overlay overwrites the view at its name, hides everything below, changes nothing else, and exposes nothing |
| `LayerLaws.HiddenView` | pkg/fs/overlay.go:278-298 | taking a subtree out of the upper layer, with a marker where the lower one would show, takes exactly that subtree out of the view and exposes nothing |
| `LayerLaws.MaterializeView` | pkg/fs/overlay.go:541-587 | copying up the directories on the way to a name leaves view and exposure alone and stops where a walk through the view stops |
| `OverlaySimulation.PrepareView` | pkg/fs/overlay.go:456-463 | prepareWrite is invisible, and fails exactly as the walk to the parent does |
| `OverlaySimulation.CreateFileSimulates` | pkg/fs/overlay.go:169-184 | CreateFile does to the view what it does to one plain tree: outcome, new view, sound layers, nothing exposed |
| `OverlaySimulation.WriteFileSimulates` | pkg/fs/overlay.go:186-196 | WriteFile does so if and only if the name is not a directory of the lower layer only; in that case it reports success and a file shadows the directory |
| `OverlaySimulation.AppendFileSimulates` | pkg/fs/overlay.go:198-211 | AppendFile does to the view what it does to one plain tree, the lower content copied up first |
| `OverlaySimulation.MkdirSimulates` | pkg/fs/overlay.go:213-223 | Mkdir does to the view what it does to one plain tree, under any name, also over a marker that is kept |
| `OverlaySimulation.MkdirAllSimulates` | pkg/fs/overlay.go:225-231 | MkdirAll does so too, directory by directory, and stops where it would on a plain tree |
| `OverlayRemoval.ClearedExposes` | pkg/fs/overlay.go:654-673 | dropping the markers kept in a directory exposes a lower entry if and only if it was hidden, and only by a marker in that directory |
| `OverlayRemoval.PlainNameShows` | pkg/fs/overlay.go:255-271 | a directory that holds a name starting after "." never looks empty |
| `OverlayRemoval.RemoveOfLost` | pkg/fs/overlay.go:255-271 | a directory all of whose entries its listing loses makes Remove fail, after it dropped the markers in it |
| `OverlayRemoval.RemoveSimulates` | pkg/fs/overlay.go:233-276 | Remove always has the outcome it has on one plain tree; it does to the view what it does there, and equally it exposes nothing, if and only if the name is not a directory that is not empty, whose listing is, and one of whose markers is all that hides some lower entry |
| `OverlaySimulation.RemoveAllSimulates` | pkg/fs/overlay.go:278-298 | RemoveAll always leaves the view a plain tree would have; the outcome is the same if and only if the name is not below a file of the lower layer only |
| `OverlaySimulation.TouchInvisible` | pkg/fs/overlay.go:416-454 | Chmod and Chtimes leave the view alone and fail exactly where the name is not in it |
| `OverlaySimulation.CopyUpInvisible` | pkg/fs/overlay.go:465-518 | copying one entry up is invisible, and the entry is in the upper layer exactly when it is visible |
| `OverlayRename.CopiedView` | pkg/fs/overlay.go:520-539 | copying any closed set of visible entries up leaves the view as it is and exposes nothing |
| `OverlayRename.CopyUpTreeInvisible` | pkg/fs/overlay.go:520-539 | copyUpTree is invisible and copies everything visible below |
| `OverlayRename.RenamedView` | pkg/fs/overlay.go:317-327 | moving the upper subtree and marking the old name moves exactly the visible subtree: nothing of the lower layer shows under the new name, the old subtree is gone, all else is unchanged |
| `OverlayRename.RenamedValid` | pkg/fs/overlay.go:317-327 | and leaves sound layers, whatever markers are kept at the new name |
| `OverlayRename.TargetJudged` | pkg/fs/overlay.go:307-316 | a target the upper layer does not have is replaced whatever it is, and a directory it keeps markers in counts as populated |
| `OverlayRename.RenameSimulates` | pkg/fs/overlay.go:300-329 | Rename of anything but the root does what it does on one plain tree if and only if, once source, parent and containment checks pass, the upper layer judges an existing target as the view does |
| `OverlayLanding.ExposedAtTarget` | pkg/fs/overlay.go:317-327 | what shows of the lower layer at or below the new name showed there before, whatever the view held there |
| `OverlayLanding.PoisedLayered` | pkg/fs/overlay.go:317-327 | the move leaves sound layers if and only if no directory comes to stand, with no marker moving along above it, over a lower file that shows |
| `OverlayLanding.RenameHides` | pkg/fs/overlay.go:300-329 | no rename of anything but the root exposes a hidden lower entry, also where the layers judge its target differently; it leaves sound layers if and only if it is not let through with such a directory |
| `OverlayRuns.StepSimulates` | pkg/fs/overlay.go:169-329 | one operation does to the view what it does to a plain tree if and only if it is agreeable |
| `OverlayRuns.RunSimulates` | pkg/fs/overlay.go:169-329 | over a run of agreeable operations all outcomes, and the final view, are those of one plain tree |
| `OverlayRuns.FreshOverlay` | pkg/fs/overlay.go:42-52 | over an empty upper layer the view is the lower layer, and all of it is exposed |
| `OverlayRuns.FreshRunSimulates` | pkg/fs/overlay.go:169-329 | the same started from an empty upper layer: the plain tree starts as the lower layer |
| `OverlayRuns.RunHides` | pkg/fs/overlay.go:233-329 | from any sound layers, over any run that neither moves the root nor brings a directory over a lower file that shows: what is hidden at one moment is hidden at every later one if and only if no Remove of the run meets the case of RemoveSimulates |
| `OverlayRuns.StepHides` | pkg/fs/overlay.go:233-329 | any operation but a root move exposes nothing, also where it differs from a plain tree, if and only if it is not such a Remove; the others leave sound layers if and only if they are not a rename that brings a directory over a lower file that shows |
| `OverlayRuns.HiddenStaysHidden` | pkg/fs/overlay.go:589-673 | no resurrection from an empty upper layer on: a lower entry hidden at one moment of a run is hidden at every later one, through removing, recreating, renaming away and removing parents, if and only if the run has no such Remove |
| `OverlayRuns.LostEntriesResurface` | pkg/fs/overlay.go:255-271 | such a Remove fails and exposes every lower entry that only a marker in the directory hid, whether the upper layer has remade it or not |
| `OverlayExamples.MarkerOrderExample` | pkg/fs/overlay.go:119-125 | a run of four operations from an empty upper layer: d/.g is removed and made again, d/f is removed, and removing d fails and brings back d/f and d/.g/x |
| `OverlayExamples.WriteFileExample` | pkg/fs/overlay.go:186-196 | writing to a directory of the lower layer only succeeds and hides what is in it |
| `OverlayExamples.RemoveAllExample` | pkg/fs/overlay.go:278-298 | RemoveAll below a file of the lower layer only succeeds, where a plain tree says "not a directory" |
| `OverlayExamples.RenameExample` | pkg/fs/overlay.go:300-329 | renaming a file onto a directory of the lower layer only succeeds, where a plain tree says "is a directory" |
| `OverlayExamples.LeftOverMarkerExample` | pkg/fs/overlay.go:300-329 | renaming a directory onto one emptied before fails, where it succeeds on a plain tree |
| `OverlayExamples.LandingExample` | pkg/fs/overlay.go:300-329 | renaming a directory onto a file of the lower layer only succeeds, where a plain tree says "not a directory", and leaves a directory over a lower file that shows |
| `Overlay.Overlay.HasWhiteout` | pkg/fs/overlay.go:618-625 | the marker beside the name is in the upper layer |
| `Overlay.Overlay.WhitedOut` | pkg/fs/overlay.go:599-616 | the loop over growing prefixes finds a marker for the name or for something above it |
| `Overlay.Overlay.Stat` | pkg/fs/overlay.go:137-167 | the merged lookup |
| `Overlay.Overlay.ReadFile` | pkg/fs/overlay.go:77-91 | upper content, else lower content unless hidden; directories and errors as in the merged lookup |
| `Overlay.Overlay.Merge` | pkg/fs/overlay.go:109-125 | folding the sorted upper names over the unmarked lower ones gives exactly the names Layers.Listed says |
| `Overlay.Overlay.ReadDir` | pkg/fs/overlay.go:93-135 | the merged listing, with all error cases |
| `Overlay.Overlay.VisibleInLower` | pkg/fs/overlay.go:589-597 | the lower layer has the name and no marker hides it |
| `Overlay.Overlay.WalkDirs` | pkg/fs/overlay.go:552-587 | the loop over growing prefixes leaves the upper layer and outcome of Layers.Materialize |
| `Overlay.Overlay.PrepareWrite` | pkg/fs/overlay.go:456-463 | reserved names refused, then the directories above are copied up |
| `Overlay.Overlay.ClearWhiteout` | pkg/fs/overlay.go:641-652 | the marker of a name is gone, nothing else |
| `Overlay.Overlay.SetWhiteout` | pkg/fs/overlay.go:627-639 | the marker of a name is there, below copied-up directories |
| `Overlay.Overlay.CreateFile` | pkg/fs/overlay.go:169-184 | the upper layer and outcome of Layers.CreateFile |
| `Overlay.Overlay.WriteFile` | pkg/fs/overlay.go:186-196 | the upper layer and outcome of Layers.WriteFile |
| `Overlay.Overlay.CopyUp` | pkg/fs/overlay.go:465-518 | the upper layer and outcome of Layers.CopyUp |
| `Overlay.Overlay.AppendFile` | pkg/fs/overlay.go:198-211 | the upper layer and outcome of Layers.AppendFile |
| `Overlay.Overlay.Touch` | pkg/fs/overlay.go:416-454 | the upper layer and outcome of Layers.Touch |
| `Overlay.Overlay.Mkdir` | pkg/fs/overlay.go:213-223 | the upper layer and outcome of Layers.Mkdir |
| `Overlay.Overlay.MkdirAll` | pkg/fs/overlay.go:225-231 | the upper layer and outcome of Layers.MkdirAll |
| `Overlay.Overlay.ClearMarkers` | pkg/fs/overlay.go:654-673 | removing the listed markers one by one takes out exactly the markers kept in the directory |
| `Overlay.Overlay.Remove` | pkg/fs/overlay.go:233-276 | the upper layer and outcome of Layers.Remove |
| `Overlay.Overlay.RemoveAll` | pkg/fs/overlay.go:278-298 | the upper layer and outcome of Layers.RemoveAll |
| `Overlay.Overlay.CopyUpTree` | pkg/fs/overlay.go:520-539 | the recursion over listings ends, copies exactly what is visible at, above and below the name, and keeps the view |
| `Overlay.Overlay.Rename` | pkg/fs/overlay.go:300-329 | the upper layer and outcome of Layers.Rename |
| `Overlay.CopyUpCopies` | pkg/fs/overlay.go:465-518 | copyUp of a visible name copies the name and everything above it |
| `Overlay.TreeCopied` | pkg/fs/overlay.go:529-537 | copying the listed children, and all below them, copies the whole visible tree: what listings lose is in the upper layer already |
| `Overlay.TakeIn` | pkg/fs/overlay.go:119-125 | one more upper name in order: an entry is added, a marker takes out what it names |
| `Rebasing.RebaseMeaning` | pkg/fs/copy.go:207-211 | the copy of a link, relative or absolute, leads inside the mount point where the link led inside the source if and only if the mount point is the root or its target never climbs above the root of the source |
| `Rebasing.RebaseText` | pkg/fs/copy.go:207-211 | the text of a rebased absolute target: the mount point, less as many names as there are leading "..", and the rest; at the root it is unchanged |
| `Rebasing.RebaseIdle` | pkg/fs/copy.go:207-211 | and what is nothing in a target does not show in it |
| `Rebasing.ClimbingExample` | pkg/fs/copy.go:207-211 | a link to /../x leads to x inside the source and, mounted on m, to x outside m |
| `Merging.FreshPlans` | pkg/fs/copy.go:174-216 | at a free name in a directory every creating operation creates exactly there, and removal finds nothing |
| `Merging.MkdirEachContent` | pkg/fs/copy.go:132-141 | making a clear way gives the missing directories on it and leaves every other entry, node and link count as it was |
| `Merging.EntryPlace` | pkg/fs/copy.go:174-178 | whatever has been copied before, an entry finds its parent as a directory and at its own place what was there at the start |
| `Merging.FileWritten` | pkg/fs/copy.go:190-199 | writing over a file keeps the copy on course: the node is rewritten for all its names |
| `Merging.LinkMade` | pkg/fs/copy.go:202-216 | whatever stood where a link goes, a whole subtree included, makes way for it |
| `Merging.StandingPlaces` | pkg/fs/copy.go:174-200 | in the end every entry of the source is there, of its kind and with its target, below links nothing else is left, and all other entries are as before |
| `Merging.StandingData` | pkg/fs/copy.go:23-25 | in the end files of the source have their data and all other files theirs if and only if no file that was overwritten had another name that wants other data |
| `Merging.FreeMerges` | pkg/fs/copy.go:93-111 | onto a free mount point every source can be merged, harmlessly |
| `Merging.StandingHolds` | pkg/fs/copy.go:129-142 | and then the subtree is the source, and outside nothing changes but missing directories on the way |
| `Merging.SharedExample` | pkg/fs/copy.go:23-25 | with a second name outside the mount point for a file the source also has, a merge changes an entry the source knows nothing of |
| `MountedLinks.ResolveMounted` | pkg/fs/copy.go:202-216 | below a mount point that holds a tree whose links stay inside it, names resolve as inside the tree, with and without following, in as many walks |
| `MountedLinks.MountedReads` | pkg/fs/copy.go:202-216 | and files read as inside the tree: the same data or the same error |
| `CopyTree.TreeCopier.Symlink` | pkg/fs/copy.go:202-216 | a link is made with its rebased target in place of whatever is there, whatever the quota |
| `CopyTree.TreeCopier.File` | pkg/fs/copy.go:190-199 | a file lands with its data, new or over an old one |
| `CopyTree.TreeCopier.Entry` | pkg/fs/copy.go:174-200 | an entry lands with all that is below it |
| `CopyTree.TreeCopier.Directory` | pkg/fs/copy.go:160-172 | all entries of a directory land, in whatever order they are listed |
| `CopyTree.CopyTree` | pkg/fs/copy.go:129-142 | onto anything in which files and directories of the source meet their like or nothing: exactly the entries of the source and those that were there, less what made way for links, relative targets and all targets at the root unchanged, data as it should be if and only if the merge is harmless; onto a free mount point the subtree is the source; without quota it succeeds |
| `CopyTree.HasContent` | pkg/fs/copy.go:93-111 | a missing name or an empty directory is free, anything else is populated |
| `CopyTree.UnpopulatedIsFree` | pkg/fs/copy.go:93-111 | an approachable mount point without content is free to copy to |
| `CopyTree.ClearTarget` | pkg/fs/copy.go:113-127 | a populated mount point is freed, the root entry by entry, and nothing outside it changes |
| `CopyTree.ApplyMount` | pkg/fs/copy.go:54-81 | MountIfAbsent leaves populated targets alone, MountReplace and a free target get the whole source and nothing else changes, an unknown policy changes nothing, MountMerge merges as CopyTree does, and applying MountIfAbsent to a target that holds the source is the identity |
| `CopyTree.MountTwice` | pkg/fs/copy.go:18-21 | after a successful MountIfAbsent a second one succeeds and changes nothing, whether the first copied or found the target populated |
| `Diff.RejoinLines` | internal/commands/text/diff.go:171-186 | splitting into lines and rejoining restores every text, a missing final line break included |
| `Diff.LinesUnique` | internal/commands/text/diff.go:171-186 | no other proper sequence of lines stands for the same text |
| `Diff.SplitDiffLines` | internal/commands/text/diff.go:171-186 | the loop computes the lines of the text |
| `Diff.DiffLineOps` | internal/commands/text/diff.go:188-225 | dropping additions leaves the old lines, dropping removals the new ones, and as many lines are kept as the table says |
| `Diff.Walk` | internal/commands/text/diff.go:205-224 | the walk through the table, branch by branch |
| `Diff.BestBounds` | internal/commands/text/diff.go:194-204 | no common subsequence is longer than the table entry |
| `Diff.ScriptIsMinimal` | internal/commands/text/diff.go:188-225 | the kept lines are a longest common subsequence, and no script between the same texts has fewer edits |
| `Diff.CreateUnifiedDiff` | internal/commands/text/diff.go:140-169 | the header counts are the line counts of both texts, and the body prints a minimal script |
| `Diff.WriteDiffLine` | internal/commands/text/diff.go:227-234 | one printed operation, with the notice for a missing line break |
| `Diff.PrintedText` | internal/commands/text/diff.go:227-234 | an operation prints as its sign, its text and a line break, and the notice in full where the line had none |
| `Diff.ParsePrinted` | internal/commands/text/diff.go:158-167 | printed operations read back as they were |
| `Diff.BodyRestoresTexts` | internal/commands/text/diff.go:140-169 | the printed body alone determines both texts, to the last line break |
| `Checksum.RemainderUnique` | internal/commands/utility.go:137-158 | a polynomial over GF(2) has one remainder below x^32 |
| `Checksum.PolynomialIs` | internal/commands/utility.go:138-138 | the constant of the register is the generating polynomial of the standard without x^32 |
| `Checksum.SteppedIs` | internal/commands/utility.go:144-148 | one shift of the register multiplies by x and takes the generator off when x^32 appears |
| `Checksum.Update` | internal/commands/utility.go:141-150 | taking a byte in keeps the register a remainder of the message so far times x^32 |
| `Checksum.UpdateLength` | internal/commands/utility.go:154-156 | the octets of the length follow, least significant first, as many as it needs |
| `Checksum.PosixChecksum` | internal/commands/utility.go:137-158 | the result is the complement of a remainder of the message polynomial times x^32 divided by the generator |
| `Checksum.EmptyChecksum` | internal/commands/utility.go:137-158 | the checksum of an empty file is 4294967295 and nothing else |
| `Checksum.ChecksumUnique` | internal/commands/utility.go:137-158 | no other word satisfies that definition |
| `Factor.PrimeFactors` | internal/commands/utilities/factor.go:82-113 | unless a poll finds the context canceled the result is sorted, all prime, and multiplies to the number, in 64-bit words without overflow; with t trial divisors (2t+1)^2 is at most the number and the context was polled 1 + t/512 times |
| `Factor.DivideOut` | internal/commands/utilities/factor.go:104-107 | a divisor is divided out as often as it goes, and what is left has no smaller divisor |
| `Factor.SievedIsPrime` | internal/commands/utilities/factor.go:109-111 | what is left past the square root is prime |
| `Factor.FewTries` | internal/commands/utilities/factor.go:13-15 | inputs up to 10^12 need fewer than half a million trial divisors |
| `Factor.FactorizationUnique` | internal/commands/utilities/factor.go:82-113 | no other list is sorted, prime and multiplies to the number |
| `DatabaseLock.LockSet.Enter` | internal/commands/sqlite/sqlite.go:614-626 | takes a free lock or joins the end of the queue |
| `DatabaseLock.LockSet.Leave` | internal/commands/sqlite/sqlite.go:631-640 | takes the caller out of the queue, if it is there, and nobody else |
| `DatabaseLock.LockSet.Release` | internal/commands/sqlite/sqlite.go:645-659 | hands over to the first in the queue or drops the record |
| `DatabaseLock.StepSafe` | internal/commands/sqlite/sqlite.go:609-659 | every step of the protocol keeps: records are held, queues are exactly the waiting callers in order of arrival, one owner, nobody overtaken |
| `DatabaseLock.OneOwnerInArrivalOrder` | internal/commands/sqlite/sqlite.go:609-659 | over every interleaving, cancellations included, a file has one owner at most and nobody is served before an earlier caller that still waits |
| `DatabaseLock.StepExact` | internal/commands/sqlite/sqlite.go:627-642 | a step keeps "the record exists exactly while the lock is owned" if and only if it is not a caller taking its context after it was handed the lock |
| `DatabaseLock.RunExact` | internal/commands/sqlite/sqlite.go:609-659 | at the end of a run the record of a file exists exactly while its lock is owned, so that nobody waits for a free lock, if and only if no caller of that file made such a step |
| `DatabaseLock.DroppedForever` | internal/commands/sqlite/sqlite.go:627-642 | after such a step nobody ever owns the lock of that file again |
| `DatabaseLock.HandOver` | internal/commands/sqlite/sqlite.go:645-659 | when an owner is done the first caller in the queue may go on and then owns the lock, and with an empty queue the next to arrive owns it at once |
| `DatabaseLock.CallersProceed` | internal/commands/sqlite/sqlite.go:609-659 | a caller has a step to take exactly while it waits or owns |
| `DatabaseLock.DropExample` | internal/commands/sqlite/sqlite.go:627-642 | two callers are enough for it |
| `Jobs.JobState.AllocateJob` | pkg/gash/jobs.go:66-75 | the next number and process id, entered in the table, remembered as the last |
| `Jobs.JobState.LastPid` | pkg/gash/jobs.go:77-81 | the process id of the last job |
| `Jobs.JobState.StartJob` | pkg/gash/jobs.go:83-86 | the job is started and nothing else changes |
| `Jobs.JobState.CompleteJob` | pkg/gash/jobs.go:88-98 | a forced status other than zero takes the place of the one returned, and the job is done |
| `Jobs.JobState.SignalJob` | pkg/gash/jobs.go:253-273 | succeeds exactly for a known job that is not done, and then forces the status |
| `Jobs.JobState.SelectJob` | pkg/gash/jobs.go:305-318 | finds a job named by process id or number exactly when there is one, in whatever order the map comes |
| `Jobs.RunNumbers` | pkg/gash/jobs.go:66-75 | over every interleaving the k-th job has number k and the decimal of 2000+k as its process id, and the variable names the newest; `NumbersRead` says so in characters |
| `Jobs.DecimalReads` | pkg/gash/jobs.go:70-70 | the text of a number is digits without a leading zero that read as the number |
| `Jobs.DecimalOnly` | pkg/gash/jobs.go:70-70 | and no other such text reads as it |
| `Jobs.NumbersRead` | pkg/gash/jobs.go:66-75 | over every interleaving the process id of the k-th job, and of no other, is the text that reads as 2000+k, and the variable reads as 2000 and the number of jobs |
| `Jobs.ArgumentReads` | pkg/gash/jobs.go:305-318 | an argument names exactly the jobs whose number or process id it reads as |
| `Jobs.JobsProceed` | pkg/gash/jobs.go:83-98 | a job can go on exactly until it is done, and exactly until then a signal to it is taken |
| `Jobs.RunTells` | pkg/gash/jobs.go:83-98 | a status is published at most once and is the one of the last accepted signal whenever there was one, and otherwise the script's own |
| `Jobs.PublishedIsFinal` | pkg/gash/jobs.go:253-273 | a published status never changes, and no signal is accepted afterwards |
| `Jobs.ArgumentsUnambiguous` | pkg/gash/jobs.go:306-318 | an argument of wait means one job only if and only if there are at most 2000 jobs |
| `OutputBudget.Budget.Take` | pkg/gash/limits.go:141-165 | undisturbed, a call is granted what it asks for or what is left, and the flag tells whether that was short |
| `OutputBudget.BoundedBuffer.Write` | pkg/gash/output.go:14-22 | keeps exactly the granted prefix and reports everything as written |
| `OutputBudget.Conclude` | pkg/gash/exec.go:48-63 | the last diagnostics are appended as far as the budget has room and paid from it byte for byte, so outputs that held what was used still do and stay within the limit, and the exit code is 126 exactly when the budget was overdrawn by then |
| `OutputBudget.DiagnosticsSpell` | pkg/gash/exec.go:48-63 | the bytes of both diagnostics, character by character |
| `OutputBudget.StepSafe` | pkg/gash/limits.go:145-164 | every atomic step of every call keeps: grants add up to the counter, the counter stays within the maximum, short grants fill the budget |
| `OutputBudget.GrantsWithinMaximum` | pkg/gash/limits.go:141-165 | over every interleaving grants add up to the counter and never exceed the maximum; the flag is up only on a full budget |
| `OutputBudget.FlagIsExact` | pkg/gash/limits.go:141-165 | once all calls returned, the flag is up if and only if the positive requests exceed the maximum, and the grants are the smaller of the two |
| `OutputBudget.ActSound` | pkg/gash/output.go:14-22 | every lock, budget step and append of every write keeps: the two buffers hold exactly the bytes granted to the writes that have appended |
| `OutputBudget.OutputWithinLimit` | pkg/gash/output.go:14-22 | over every interleaving of writes on both buffers their bytes together never exceed the limit, and once all writes have appended they are exactly what is used |
| `OutputBudget.BuffersAreWritten` | pkg/gash/output.go:14-22 | over every interleaving each buffer holds its own writes one after the other in the order of their appends, none torn apart, each cut to the first bytes it was granted |
| `OutputBudget.CallProceeds` | pkg/gash/limits.go:145-164 | a call on the budget has a step to take exactly until it has returned |
| `OutputBudget.SwapFailsOnProgress` | pkg/gash/limits.go:155-163 | a compare-and-swap fails only if another call was granted something since the load, and one that does not fail grants something |
| `OutputBudget.WritesProceed` | pkg/gash/output.go:14-22 | no interleaving is stuck: while a write has not appended, it may enter, or the write that holds its buffer may take a step |

## Left out

- Overlay.Overlay.Rename: requires layers that belong together (two trees, markers are files, no upper directory over a lower file that still shows); all other methods need only the first two.
- OverlayRename.RenameSimulates: says nothing of renaming the root through the overlay, which breaks the upper layer as it does in Memory.
- OverlayRuns.HiddenStaysHidden: asks for runs that neither rename the root nor bring a directory over a lower file that shows (`OverlayExamples.LandingExample`); after such a rename the layers are not the kind `Overlay.Overlay.Rename` is proved on.
- CopyTree.ApplyMount: promises something of the subtree only where the way to the mount point has no links, and MountMerge only where files and directories of the source meet their like, links anything: elsewhere writes go through links or stop at an error, and how far the copy got depends on the order of the entries.
- Merging.StandingData: a write refused by the quota stops the copy, and of the state it then leaves nothing is said.
- CopyTree.MountTwice: not for unpopulated mount points reached through links, for the same reason.
- CopyTree.CopyTree: the destination is a Database; the copier run on Memory is not modelled a second time.
- Memory.Memory.Touch: Chmod and Chtimes change permission bits and times, which no part of the model has.
- Database.Database.Touch: the same.
- Overlay.Overlay.Touch: the same.
- Overlay.Overlay.CopyUpTree: requires layers that belong together, as Rename does.
- Diff.CreateUnifiedDiff: leaves out the separator and file name lines above the body.
- Jobs.JobState.StartJob: the stored cancel function is the flag of a started job.
- Jobs.JobState.SignalJob: calling that function is left out; the script sees a canceled context.
- Factor.PrimeFactors: the context is a function from polls to answers; parsing of the operands is left out.
- OutputBudget.Budget.Take: the loop of one call alone always swaps at once, and canceling the execution is left out; interference is in the atomic steps of the same module.
- OutputBudget.Conclude: that the buffers hold what is used when it starts is what `OutputBudget.OutputWithinLimit` says of runs whose writes have all appended; that all writers are done by then is what its caller sees to.
- Permission bits, modification times and the special path `dev/null`, which the helpers of capabilities.go answer before any filesystem is asked.
- Symbolic links, global links and hard links inside the overlay: each layer would resolve them for itself.
- Mountable, whose routing is one longest-prefix scan, and host directories, SQL drivers and the HTTP database client: foreign code. SQL statements are their effect on the tables, and a statement never fails.
- Memory.MkdirAll: the same loop over Mkdir as Database.MkdirAll.
- Open and the file cursors, and the mutexes of Memory and Database: every method is one atomic step.
- Machine integers in pkg/fs: byte counts and row ids are unbounded here, 64-bit in the code.
- Unicode validity of names, and the order in which ReadDir sorts its result.
- The other options of the diff command.
- The shell itself: job scripts, rewriting of background statements, waiting on channels that may never close, fairness of the compare-and-swap loop and of the lock.
