# phiola: verified models of the core data structures and protocols

phiola plays, records and converts audio. A *track* is a chain of filters driven by their
return codes; directories are read into a *file-name tree*; files are written and read
through small caches; workers run *tasks* and dispatch kernel *events*; a *play queue* shares
its entries between lists, filtered views, running tracks and callers; a slice-by-eight CRC,
a cue-sheet reader and a PCM converter complete the parts modelled here.

Each component is modelled in the form the code has: objects with fields that methods update,
loops with invariants, explicit stacks, linked free lists. Each is proved against a short
recursive or declarative specification, and what the code promises is proved about that
specification for all inputs, runs or trees.

| files | component |
|---|---|
| `Common` | option type, bytes, insertion and removal in sequences |
| `NameOrder`, `FileTree`, `TreeCursor`, `TreeGrowth`, `TreeDirFirst`, `TreePostOrder`, `TreeRelease`, `TreeCompare`, `TreeSides`, `TreeCompareRun` | file-name tree: the recursive listings, what a tree grows into while it is listed, and the iterators that must produce the listings |
| `PackedBlock` | the memory layout of one block of that tree |
| `ConveyorLog`, `ConveyorModel`, `ConveyorAnswers`, `ConveyorRuns`, `Track` | filter conveyor: history, the invariant through one turn, what each answer does, whole runs, the object |
| `Lifecycle` | who frees a track, over all interleavings of run, stop and wake |
| `FileWrite`, `FileRead` | write-back buffer and read cache |
| `TaskQueue` | posting, signalling and running tasks, over all interleavings |
| `EventSlots` | kernel-event slots with their free list and one-bit tag |
| `LinearSteps`, `SliceByEight`, `Crc32` | slice-by-eight over any linear register, and its 32-bit instance |
| `PlayQueue`, `PlayQueueOps`, `PlayQueueCursor`, `PlayQueues` | play queue: reference counts, operations, "play next", the objects |
| `CueGaps` | track spans of a cue sheet |
| `PcmFormats`, `PcmConvert`, `Converter` | sample formats, block conversion, the streaming filter |

`dafny verify dfyconfig.toml` checks the whole project.

## What the code does that its users may not expect

Each of these is proved with its exact condition; none is repaired in the model.

- The iterators have room for 64 levels. Pre-order ends silently at the first directory that
  does not fit; it is complete if and only if no directory except possibly the last entry is
  that deep (`TreeCursor.ListAll`). Directory-first ignores the refusal and reads a NULL block,
  if and only if the tree, fully grown, has more than 64 levels (`TreeDirFirst.WalkGrowing`).
  Releasing a deeper tree never frees its root (`TreeRelease.FreeAll`). Comparing two trees, a side
  that cannot go on keeps its depth, and the comparison says that it is done as soon as the other
  side is less deep; both are reported completely if and only if each reaches its last entry and,
  should one end with a directory it cannot enter, all that comes after it on the other side is
  just as deep (`TreeCompareRun.CompareAll`, `TreeSides.ReportsAllIff`; `TreeSides.EndsEarly` is
  an input).
- The first memory of a tree block does not count the block's header; the path is written inside
  it if and only if its length plus one, modulo 512, lies between 1 and 496
  (`PackedBlock.Create`). The memory is doubled at most once for an entry; the entry is written
  past it if and only if its eleven bytes of fields and its name do not fit then, and the block's
  size, which also counts the owner's room, may pass the memory before that
  (`PackedBlock.Packed.Add`, `PackedBlock.NameToTheLastByte`).
- The read cache delivers the whole file if and only if its buffers have at least 4096 bytes or
  hold the whole file (`FileRead.ReadAll`).
- A wake() that arrives after the chain has finished, or is pending when it finishes, frees the
  track without stop(); the timing that excludes this is the weakest condition under which it
  does not happen (`Lifecycle.QuietIff`, `Lifecycle.EarlyFreeIff`; `Lifecycle.WakeAfterFinish`
  is such a run).
- An event that was tagged before its slot was freed reaches the slot's owner again after two
  frees, because the tag is one bit (`EventSlots.LateEvent`, if and only if the number of frees
  is even; `EventSlots.StaleEvent`). The tag is looked at once for both handlers: if the read
  handler frees the slot, an owner that gets it inside that handler is handed the write half of
  the event (`EventSlots.Dispatch`, `EventSlots.WriteHalfGoesAstray`).
- A view that is played by position keeps as its cursor an entry that belongs to another list.
  When that entry is freed only its own list forgets it, and the view's cursor is a freed
  entry (`PlayQueue.UnrefCursorsIff`, `PlayQueueOps.ViewCursorDies`).
- After removals "play next" plays the first item left behind the current entry if and only if
  there is one and the entry was not removed through a view while its own list still has it
  (`PlayQueueCursor.NextAfterRemovals`). Removed through a view, the entry is played again
  (`PlayQueueCursor.PlayedAgain`). If the entry was removed and nothing is left behind it, the last
  of the items before it is played (`PlayQueueCursor.NextOtherwise`,
  `PlayQueueCursor.PlayedBefore`).
- "Play previous" takes the remembered position of the current entry without looking it up again: it
  leads to the item before if and only if no item before the entry was removed since
  (`PlayQueueCursor.PrevAfterRemovals`); otherwise the same entry may be played again
  (`PlayQueueCursor.PlayedItself`).
- A random pick from an empty list divides by zero (`PlayQueues.Queues.NextEntry`).
- An INDEX after 01 in the first track of a cue sheet, unlike in other tracks, starts a track of
  its own, so that there is one span per track if and only if the first track has no such line
  (`CueGaps.ReadSheet`).
- Converting 16-bit samples to 32 bits and back gives zero: 32 to 16 bits keeps the lower half
  (`PcmFormats.ThereAndBack`).
- A file opened for overwriting is cut to the largest end of any write only when it is closed
  (`FileWrite.WriteFile`).

## Model

| member | source | states |
|---|---|---|
| `FileTree.PreOrderExact` | src/util/fntree.h:241-271 | the recursive pre-order listing contains exactly the tree's entries, each once, in lexicographic order of their positions, so parents come first |
| `FileTree.PreSound` | src/util/fntree.h:241-271 | every visit in the listing is that of an entry, with its full path and whether it is a directory |
| `FileTree.PreCovers` | src/util/fntree.h:241-271 | every entry of the tree is listed |
| `FileTree.PreIncreasing` | src/util/fntree.h:241-271 | positions strictly increase along the listing: nothing is listed twice |
| `FileTree.DirFirstPermutes` | src/util/fntree.h:273-309 | directory-first order lists the same entries as pre-order, each as often |
| `FileTree.WholeDirectoryFirst` | src/util/fntree.h:273-309 | in directory-first order every entry of a directory precedes anything inside its subdirectories |
| `TreeCursor.Cursor.NextInBlock` | src/util/fntree.h:200-213 | the next entry of a block, or none at its end, the cursor then staying where it was |
| `TreeCursor.Cursor.Push` | src/util/fntree.h:217-227 | enters the children and stacks block and entry; refuses, changing nothing, when 64 levels are stacked |
| `TreeCursor.Cursor.Pop` | src/util/fntree.h:231-239 | returns to the stacked block and entry; nothing to return to leaves the cursor alone |
| `TreeCursor.Cursor.Climb` | src/util/fntree.h:258-270 | finds the first entry still owed by the current block and the blocks on the stack; none means that nothing is owed |
| `TreeCursor.Cursor.NextR` | src/util/fntree.h:245-271 | each call returns the head of what pre-order still owes and keeps the rest; it returns nothing exactly when nothing is left or the entry is too deep to enter |
| `TreeCursor.ListAll` | src/util/fntree.h:245-271 | repeated calls list pre-order up to the first directory too deep to enter; complete for depth at most 64, and in general if and only if no directory before the last entry is too deep |
| `TreeCursor.CutCompleteIff` | src/util/fntree.h:217-222 | a listing cut at the first too deep directory is complete if and only if no entry but the last is one |
| `TreeCursor.FitsNoneTooDeep` | src/util/fntree.h:187-194 | a tree of at most 64 levels has no directory too deep to enter |
| `FileTree.FitsBounds` | src/util/fntree.h:187-194 | in a tree of so many levels no directory is nested deeper than that |
| `FileTree.FitsNot` | src/util/fntree.h:187-194 | in any other tree some directory is nested one level deeper |
| `TreeDirFirst.DirCursor.NextRCtx` | src/util/fntree.h:277-309 | each call, on any tree, returns the next entry of directory-first order of the tree as it is now and leaves unchanged what it will have grown into; it ends only when that order is used up and everything was attached, and reads a NULL block only if the grown tree has more than 64 levels |
| `TreeDirFirst.DirCursor.EnterNextDir` | src/util/fntree.h:287-308 | scanning the finished block again, and its ancestors in turn, enters exactly the next subdirectory in order; if none is found everything is listed, and if it cannot be entered the tree is too deep |
| `TreeDirFirst.DirCursor.Attach` | src/util/fntree.h:167-172 | attaching children to the entry just returned changes the tree at that position only and nothing that is already listed |
| `TreeGrowth.WholeAttach` | src/util/fntree.h:167-172 | attaching inside the current block is attaching at its position in the whole tree |
| `TreeGrowth.AttachedThere` | src/util/fntree.h:167-172 | the entry at the address has the children attached to it and keeps its name |
| `TreeGrowth.AttachedElsewhere` | src/util/fntree.h:167-172 | all entries not below it keep their names, and their children unless the address is below them |
| `TreeGrowth.GrowEach` | src/core/dir-read.c:61-107 | in the grown tree every entry has the children attached to it, or else those it had, and these have grown in turn, down to 64 levels |
| `TreeGrowth.GrowNothing` | src/core/dir-read.c:61-107 | a tree that nothing is attached to stays as it is |
| `TreeGrowth.PartlyServe` | src/core/dir-read.c:94-107 | listing an entry and attaching to it keeps what the block will have grown into |
| `TreeGrowth.OutcomeFits` | src/util/fntree.h:217-222 | what is too deep inside the current block is too deep in the whole tree |
| `TreeDirFirst.CompletePrefix` | src/util/fntree.h:277-309 | what is listed before a block is entered, followed by all of that block, begins the directory-first listing of the whole tree |
| `TreeDirFirst.ListedPrefix` | src/util/fntree.h:277-309 | at any moment the entries listed begin the directory-first listing of the fully grown tree |
| `TreeDirFirst.WalkSome` | src/core/dir-read.c:61-107 | after any number of calls, with children attached to any returned entries, the entries listed begin the listing of the tree as it is and of the fully grown tree, which has grown by exactly these attachments |
| `TreeDirFirst.WalkGrowing` | src/core/dir-read.c:61-107 | the walk always ends; it lists the fully grown tree, each directory before its subdirectories, if and only if that tree has at most 64 levels, and otherwise reads a NULL block after a part of the listing |
| `TreeDirFirst.ListAll` | src/util/fntree.h:277-309 | a tree that does not grow is listed completely in directory-first order if and only if it has at most 64 levels |
| `TreePostOrder.PostOrderExact` | src/util/fntree.h:311-361 | the post-order listing of blocks is one-to-one with the blocks of the tree and lists everything below a block before it |
| `TreePostOrder.ChildrenFirst` | src/util/fntree.h:311-361 | a block below another one has the earlier place |
| `TreePostOrder.TurnsDiffer` | src/util/fntree.h:311-361 | different blocks have different places |
| `TreePostOrder.EveryTurn` | src/util/fntree.h:311-361 | every place in the listing is that of a block |
| `TreeRelease.NextPost` | src/util/fntree.h:314-345 | hands out the first block still owed in post-order while reading only blocks not yet freed; nothing is handed out only after the root, or when the tree is too deep |
| `TreeRelease.DescendPost` | src/util/fntree.h:329-344 | going down from where the walk stands reaches the next block owed, or finds the tree too deep |
| `TreeRelease.FreeAll` | src/util/fntree.h:349-361 | frees every block exactly once, children before parents, if the tree has at most 64 levels; otherwise a proper part of them without the root |
| `TreeCompareRun.CmpNext` | src/util/fntree.h:422-444 | for cursors on trees of any depth: the answer, and the advance of the two cursors, are those of comparing in lock step what they can reach, a cursor that cannot go on keeping its depth |
| `TreeCompare.InStepAdvance` | src/util/fntree.h:422-444 | after the side that goes first moves on, both sides share the blocks they are inside and the deeper one is below a smaller entry |
| `NameOrder.NameLessAt` | src/util/fntree.h:411-416 | the first place where two names differ decides, and a name comes before a longer one that begins with it |
| `TreeCompare.ReadyStep` | src/util/fntree.h:401-444 | every answer keeps the sides in step; LEFT and RIGHT report the smaller path, EQ and NEQ the same path on both sides |
| `TreeCompare.ColumnsComplete` | src/util/fntree.h:422-444 | LEFT/EQ/NEQ answers list the whole left side, RIGHT/EQ/NEQ the whole right side, each in its order |
| `TreeCompare.PairsExact` | src/util/fntree.h:401-444 | EQ and NEQ answers are for exactly the paths found on both sides |
| `TreeCompare.RowsGood` | src/util/fntree.h:401-418 | a paired answer joins entries of one path and carries the callback's verdict |
| `TreeSides.AnswerSame` | src/util/fntree.h:427-432 | the answer is that of the two listings unless one side has ended deeper than the other's next entry is, and then it is DONE |
| `TreeSides.SidesPrefix` | src/util/fntree.h:422-444 | what is reported of trees of any depth begins the comparison of what the cursors can reach |
| `TreeSides.SidesFullIff` | src/util/fntree.h:422-444 | nothing is lost if and only if each side, once it has ended, finds everything left of the other at least as deep |
| `TreeSides.ReportsAllIff` | src/util/fntree.h:389-444 | both trees are reported completely if and only if no directory but a last entry is too deep to enter and, after such a last entry, the other tree has only entries just as deep |
| `TreeSides.FitsComparable` | src/util/fntree.h:389-444 | trees of at most 64 levels meet that condition |
| `TreeSides.EndsEarly` | src/util/fntree.h:427-436 | a chain of directories of exactly 65 levels against one file behind it: the file is not reported |
| `TreeCompareRun.CompareAll` | src/util/fntree.h:389-444 | comparing two sorted trees of any depth to the end reports both completely in pre-order if and only if that condition holds, as it does for at most 64 levels, and then pairs exactly the common full paths; every pair reported is right in any case |
| `PackedBlock.Create` | src/util/fntree.h:89-105 | for every path: its bytes and end mark fall inside the memory if and only if its length plus one, modulo 512, is between 1 and 496, and then the block holds the path and no entries |
| `PackedBlock.PathFitsIff` | src/util/fntree.h:89-105 | when header, path and end mark fit the first allocation |
| `PackedBlock.Packed.Put` | src/util/fntree.h:130-134 | writing byte by byte stays inside the memory if and only if the last byte does, and changes these bytes only |
| `PackedBlock.Packed.Add` | src/util/fntree.h:115-139 | names over 65535 and data over 255 bytes are refused; a byte is written past the memory, doubled if the new size passes it, if and only if the fields and the name do not fit; otherwise the new entry follows the others, which keep names and children, also when the block moves, and the new size may pass the memory |
| `PackedBlock.NameToTheLastByte` | src/util/fntree.h:119-137 | in a block without path a name of 989 bytes is written up to the last byte of the doubled memory while the size passes it; one of 990 bytes is written past it |
| `PackedBlock.ItemsAdded` | src/util/fntree.h:115-139 | bytes written behind the last entry leave all earlier entries as they were |
| `PackedBlock.Packed.Attach` | src/util/fntree.h:167-172 | replaces one entry's children and returns the old; all names and other children stay |
| `PackedBlock.Packed.Next` | src/util/fntree.h:200-213 | stepping by the lengths stored in an entry leads to the next one added, and to the end after the last |
| `PackedBlock.Packed.Names` | src/util/fntree.h:68-86 | walking the bytes gives back the names in the order they were added, as many as the block counts |
| `ConveyorLog.OnceEach` | src/core/track.c:229-249 | in a well-formed history a filter is tried, opened and closed at most once and not processed after closing |
| `ConveyorLog.OpenMeansOpened` | src/core/track.c:112-128 | an open filter was opened before and not closed since |
| `ConveyorModel.FilterAddShape` | src/core/track.c:167-192 | adding keeps the active filters distinct pool entries, active length <= pool index <= 20 |
| `ConveyorModel.AddKeepsShape` | src/core/track.c:194-210 | adding before or after the running filter keeps the cursor on that filter |
| `ConveyorModel.AddKeepsMid` | src/core/track.c:194-210 | additions by the running filter keep the whole invariant |
| `ConveyorModel.RunKeeps` | src/core/track.c:213-266 | a call of the filter at the cursor, whatever it adds or answers, keeps the invariant; a filter that answered OK is processed only with forward data or as first in chain |
| `ConveyorModel.LeaveKeeps` | src/core/track.c:274-296 | DONE and LASTOUT remove filters and leave the cursor in range, or end the track when none is left |
| `ConveyorModel.MoveKeeps` | src/core/track.c:298-319 | moving forward or back keeps the invariant; asking for more from first in chain is an error (which code moves where: `ConveyorAnswers.DataGoesOn`, `ConveyorAnswers.BackwardStep`) |
| `ConveyorModel.StopKeeps` | src/core/track.c:321-329 | suspension keeps the invariant, bad codes end the track |
| `ConveyorModel.TurnKeepsInv` | src/core/track.c:347-391 | one turn of the run loop keeps the invariant unless the track ends, which is when `ConveyorAnswers.TurnEndsIff` says; so the cursor is in range whenever a filter is picked |
| `ConveyorAnswers.DataGoesOn` | src/core/track.c:297-310 | DATA and OK from any filter but the last give control to the next one with data; from the last one they ask it again for more |
| `ConveyorAnswers.OkIsSkipped` | src/core/track.c:297-299 | OK, and no other answer, marks the filter to be skipped once |
| `ConveyorAnswers.BackwardStep` | src/core/track.c:312-319 | MORE and BACK give control to the filter before, with that code, and change nothing else; from the first one they are an error |
| `ConveyorAnswers.DoneLeaves` | src/core/track.c:275-284 | DONE takes the filter out; the next one gets its data; if it was the last, the one before it is asked for more; if it was the only one, the track is finished |
| `ConveyorAnswers.LastOutLeaves` | src/core/track.c:286-295 | LASTOUT takes the filter and all before it out; the next one gets the data as first in chain; if there is none the track is finished |
| `ConveyorAnswers.AsyncStays` | src/core/track.c:321-324 | suspension changes nothing |
| `ConveyorAnswers.EndsIff` | src/core/track.c:269-338 | a track ends if and only if the answer is FIN, ERR or no known code, MORE or BACK of the first filter, DONE of the only one or LASTOUT of the last; it is finished, not failed, exactly with FIN, DONE and LASTOUT |
| `ConveyorAnswers.OpenAnswers` | src/core/track.c:229-245 | an unopened filter is opened: an error ends the track, a refusal takes the filter out, anything else leaves it open; the filters it adds meanwhile are in the chain, up to 20 |
| `ConveyorAnswers.ProcessAnswers` | src/core/track.c:249-265 | the answer of a turn is that of the filter, which is told the direction and whether it is first, and has added its filters |
| `ConveyorAnswers.CallAnswers` | src/core/track.c:213-266 | a filter to be skipped that is not the first in chain answers MORE without being called; any other is opened if need be and processed, as first in chain exactly at place 0 |
| `ConveyorAnswers.PassedOverOnce` | src/core/track.c:217-223 | skipping calls nothing and happens once |
| `ConveyorAnswers.TurnDirection` | src/core/track.c:371-391 | after DATA the next call has data, after MORE and BACK it has not, and suspension does not change that |
| `ConveyorAnswers.TurnEndsIff` | src/core/track.c:340-403 | a turn ends the track if and only if the answer of the filter called is one that ends it |
| `ConveyorAnswers.DataReachesNext` | src/core/track.c:302-309 | a whole turn in which a filter returns data with another one behind it, perhaps just added, goes on with that one |
| `ConveyorRuns.TurnEvolves` | src/core/track.c:167-210 | filters in the chain before and after a turn keep their relative order and removed ones do not come back |
| `ConveyorRuns.ForwardHolds` | src/core/track.c:297-306 | a filter that hands data forward and stays in chain waits for control |
| `ConveyorRuns.HeldStays` | src/core/track.c:371-388 | a waiting filter stays waiting through every turn of another one |
| `ConveyorRuns.DataStaysValid` | src/track.h:68-79 | over any run until it gets control back, only filters behind the waiting one run |
| `ConveyorRuns.RunsKeep` | src/core/track.c:340-391 | in every run the invariant holds at each turn, order is kept, and instances exist exactly while filters are open; a run ends only with a turn that ends the track (`ConveyorRuns.RunsJoin`) |
| `ConveyorRuns.RunsJoin` | src/core/track.c:340-403 | a run goes on turn by turn, each from what the ones before have left, until a turn ends the track |
| `ConveyorRuns.LoadKeeps` | src/core/track.c:194-210 | filters added before the start go to the end of the chain |
| `ConveyorRuns.StartInv` | src/core/track.c:415-427 | starting a loaded track establishes the invariant |
| `ConveyorRuns.CloseOnce` | src/core/track.c:112-128 | closing reaches exactly the open filters, in reverse order of addition; closing again does nothing |
| `ConveyorRuns.ClosingOrderExact` | src/core/track.c:112-128 | the closing order has each open filter once, later additions first, and no other |
| `ConveyorRuns.WholeRun` | src/core/track.c:84-128 | from start to close every history is well formed and no filter stays open |
| `Track.Track.AddFilter` | src/core/track.c:167-210 | the new filter is directly before or after the current one, which stays current, and no other filter changes its order; refused exactly when all 20 places are used |
| `Track.Track.Handle` | src/core/track.c:269-338 | on the object: data from any filter but the last moves the cursor to the next one, from the last keeps it there and asks for more; MORE and BACK move it back; suspension keeps it; the track ends exactly with the answers of `ConveyorAnswers.EndsIff` |
| `Track.Track.OneTurn` | src/core/track.c:347-391 | one turn of the object is the turn of `ConveyorAnswers.TurnEndsIff` and its neighbours; it keeps the invariant unless the track ends, and the order of filters always |
| `Track.Track.Run` | src/core/track.c:340-391 | over any turns, taken one after the other until one ends the track, the object's chain keeps its shape and the order of filters, instances exist exactly while filters are open, and the invariant holds unless the track has ended |
| `Track.Track.Close` | src/core/track.c:112-128 | closes exactly the open filters, the last added first, and leaves none open |
| `Track.WholeLife` | src/core/track.c:84-128 | any track, loaded with any filters, run for any turns and closed twice, has a well-formed history and no open filter |
| `Lifecycle.FreedOnceAfterBoth` | src/core/track.c:340-443 | from any state that satisfies the invariant, in every interleaving of quiet steps, the state moves only from running to finished or from running to stop to stopping |
| `Lifecycle.EveryRun` | src/core/track.c:340-443 | in every interleaving of quiet steps from the creation on, the track is freed at most once, only after finish and stop in either order, with no task pending, and by the last step; a track told to stop is in the worker's queue or hands until its filters are told |
| `Lifecycle.FreeIsLast` | src/core/track.c:84-104 | no step of the worker follows the free |
| `Lifecycle.BothMeansFreed` | src/core/track.c:405-437 | a track finished and told to stop is freed by the worker's next step |
| `Lifecycle.StopIsNoticed` | src/core/track.c:429-437 | in every interleaving, from stop() until the filters are told, the track is in the worker's queue or in its hands |
| `Lifecycle.NextPassTells` | src/core/track.c:349-355 | the next pass of the run loop tells the filters |
| `Lifecycle.StopWakesWorker` | src/core/track.c:429-437 | stop() of a running or finished track is always possible and makes an idle worker run it |
| `Lifecycle.StopAgain` | src/core/track.c:429-437 | a second stop() posts nothing |
| `Lifecycle.StopThenEndFrees` | src/core/track.c:405-437 | a suspended track told to stop, whose chain then ends, is freed |
| `Lifecycle.EndThenStopFrees` | src/core/track.c:405-437 | a chain that ends by itself does not free the track; the stop() that follows does |
| `Lifecycle.OneStepMore` | src/core/track.c:340-443 | a run takes one step after the other, any that is enabled and quiet |
| `Lifecycle.QuietIff` | src/core/track.c:340-345 | a step keeps the invariant if and only if it is not a wake after the end (or an end with a wake pending), and exactly the other steps leave a track about to be freed without stop() |
| `Lifecycle.EarlyFreeIff` | src/core/track.c:340-345 | among all runs, those made of quiet steps are exactly the ones in which the worker is never about to free the track before stop() |
| `Lifecycle.WakeAfterFinish` | src/core/track.c:439-443 | a run with a wake after the end in which the track is freed without stop() |
| `FileWrite.FileWriter.BufWrite` | src/util/fcache.h:88-126 | the file with the buffered bytes in place, plus what is to be flushed, is the direct write of the bytes taken; progress whenever something is to be flushed; an empty buffer takes exactly what fits, and what is flushed of one that is not empty is its contents |
| `FileWrite.FileWriter.Extend` | src/util/fcache.h:93-107 | data touching the buffer is laid over it as far as the buffer reaches |
| `FileWrite.FileWriter.Pass` | src/core/file-write.h:271-300 | one pass takes more input or empties the buffer and keeps the logical file that of direct writes |
| `FileWrite.FileWriter.WriteOut` | src/core/file-write.h:237-258 | writes at the offset and remembers the largest end |
| `FileWrite.FileWriter.Process` | src/core/file-write.h:260-304 | a chunk at the offset sought, or else where the last one ended, changes the logical file as a direct write there; at the end of the data everything is on disk |
| `FileWrite.ServeLast` | src/core/file-write.h:27-36 | the last chunk and the close leave the file of direct writes, cut at the largest end |
| `FileWrite.WriteFile` | src/core/file-write.h:237-304 | for every sequence of seeks and writes, any buffer size and any earlier file contents, the file is the one written directly, chunk by chunk as in `FileWrite.OneMore`, cut at the largest end of any write |
| `FileWrite.WriteOverlay` | src/util/fcache.h:93-107 | writing over a written range equals one write of the overlaid bytes |
| `FileWrite.OneMore` | src/core/file-write.h:264-268 | one request more is one write more: at the offset it seeks to, or else where the request before it ended |
| `FileWrite.StartIs` | src/core/file-write.h:264-268 | a chunk that seeks starts there; any other starts where the one before it ends, the first at the start offset |
| `FileWrite.ByteOfLast` | src/core/file-write.h:260-304 | each byte of the file is that of the last chunk covering it |
| `FileWrite.ByteUntouched` | src/core/file-write.h:260-304 | a byte that no chunk covers is what the file held |
| `FileWrite.EndIsLargest` | src/core/file-write.h:247-248 | the size the file is cut to is the largest end of any nonempty chunk |
| `FileWrite.EndIsReached` | src/core/file-write.h:34 | the final cut never lengthens the file |
| `FileRead.FileReader.Find` | src/util/fcache.h:72-83 | finds a buffer holding the byte or reports that none does, counting hits and misses |
| `FileRead.FileReader.NextBuf` | src/util/fcache.h:63-69 | buffers are taken in turn |
| `FileRead.FileReader.Fetch` | src/core/file-read.h:84-105 | the buffer holds what the kernel reads at its aligned offset and is the one that serves the request; a cached one is used whenever one has the byte, nothing being read then, and otherwise the next one in turn is filled |
| `FileRead.FileReader.Process` | src/core/file-read.h:75-119 | every chunk is the file content from exactly the offset asked for, chunks are contiguous, and the end is reported as the code does |
| `FileRead.ReadAll` | src/core/file-read.h:75-119 | a whole read returns the file if and only if the buffers have 4096 bytes or hold the whole file |
| `FileRead.ReadScript` | src/core/file-read.h:75-119 | with buffers of at least 4096 bytes the answers to any sequence of seeks are those of a reader without a cache: progress always, done only at the end of the file |
| `TaskQueue.Queue.Post` | src/util/taskqueue.h:70-83 | on the object, the post step of all threads: appends a task unless it is queued; exactly the caller that finds the queue empty is the poster that has to signal |
| `TaskQueue.Queue.Delete` | src/util/taskqueue.h:93-102 | on the object, the delete step of all threads: removes exactly that task |
| `TaskQueue.Queue.First` | src/util/taskqueue.h:114-116 | on the object, the reader's look at the first task |
| `TaskQueue.Queue.TakeOut` | src/util/taskqueue.h:118-120 | on the object, the reader's taking out of the task it saw |
| `TaskQueue.RunOne` | src/util/taskqueue.h:112-127 | one pass of the run loop on the object, with posts by others before the lock and deletions by the handler, runs the task that was first and keeps the invariant of all threads |
| `TaskQueue.WithoutDrops` | src/util/taskqueue.h:93-102 | after deletion exactly the other tasks are queued, each once |
| `TaskQueue.StepKeeps` | src/util/taskqueue.h:70-129 | every step of posters, reader and deleter keeps: a nonempty queue has a pending signal, a poster about to signal, or a reader before its empty check; and accepted posts not deleted are those run, in hand and queued, in order |
| `TaskQueue.EveryRun` | src/util/kq-tq.h:19-43 | from any state that satisfies the invariant, in every interleaving, tasks run in the order of acceptance, none twice |
| `TaskQueue.FromEmpty` | src/util/kq-tq.h:19-43 | in every interleaving from the empty queue on, a nonempty queue is never forgotten, tasks run in the order of acceptance, and when nobody is about to act every accepted post not deleted was run |
| `TaskQueue.RunsDry` | src/util/taskqueue.h:106-129 | without new posts every step is progress, and when no step is left every accepted post not deleted was run |
| `TaskQueue.OneStepMore` | src/util/taskqueue.h:70-129 | a run takes one step after the other, any that is enabled |
| `EventSlots.Slots.Alloc` | src/util/kq.h:132-149 | returns the slot freed last, else the next unused one, never one in use; fails if and only if all are in use |
| `EventSlots.Slots.Reuse` | src/util/kq.h:134-137 | takes the top of the free list |
| `EventSlots.Slots.Free` | src/util/kq.h:151-167 | the slot heads the free list and its tag bit changes; live and free slots stay disjoint and together are those handed out |
| `EventSlots.Slots.SetWaiting` | src/util/kq.h:178-191 | the owner's waiting changes nothing else, and the tag carries the slot and the parity of its frees |
| `EventSlots.Slots.Retrieve` | src/util/kq.h:180-186 | an event is taken for its slot's if and only if the number of frees since tagging is even |
| `EventSlots.Dispatch` | src/util/kq.h:193-237 | the read handler is called if and only if the owner waits for reading, the write handler if and only if the owner after the read handler waits for writing, both only if the number of frees before is even |
| `EventSlots.Perform` | src/util/kq.h:132-167 | over any sequence of allocations, frees and armings by owners the slots held, the free list and the frees of each slot are exactly those of the sequence; live slots are distinct and apart from the free list, live plus free is the number handed out and at most the maximum, and the lock count is that of live slots |
| `EventSlots.PerformOne` | src/util/kq.h:132-167 | one operation: an allocation adds a slot that was not in use unless all are, a free takes that slot away and counts one free of it, and waiting changes only what the owner waits for |
| `EventSlots.LateEvent` | src/util/kq.h:217-256 | an event tagged before any operations reaches a handler if and only if they free its slot an even number of times and its owner waits for it; in particular never after one free |
| `EventSlots.StaleEvent` | src/util/kq.h:217-256 | a run with two frees in which the old event is handed to a stranger |
| `EventSlots.WriteHalfGoesAstray` | src/util/kq.h:206-214 | a run in which the read handler frees the slot and the next owner gets the write half |
| `SliceByEight.TableStep` | 3pt/crc/crc.c:49-89 | one look-up does the work of eight bit steps |
| `SliceByEight.TableIsSteps` | 3pt/crc/crc.c:62-84 | table k, made by the recurrence, runs a byte through k + 1 times eight bits |
| `SliceByEight.FirstFourIs` | 3pt/crc/crc.c:67-70 | four look-ups advance a word by eight bytes |
| `SliceByEight.SliceIsEightBytes` | 3pt/crc/crc.c:62-84 | one pass of the fast loop equals eight bytes bit by bit |
| `SliceByEight.FeedBuffer` | 3pt/crc/crc.c:46-89 | alignment bytes, word loop and remaining bytes together feed the whole buffer, for every start address and length |
| `Crc32.CrcLaws` | 3pt/crc/crc.c:23-32 | 32-bit words with the reflected polynomial obey the laws that slicing needs |
| `Crc32.Crc32` | 3pt/crc/crc.c:39-94 | equals the bitwise reflected CRC-32, complemented before and after, for every buffer, length, alignment and seed |
| `Crc32.CrcIsPlain` | 3pt/crc/crc.c:23-41 | the checksum over abstract register operations is the plain definition with shifts and exclusive-ors of 32-bit words |
| `Crc32.CheckValue` | 3pt/crc/crc.c:39-94 | the checksum of the nine digits 1 to 9 is 0xCBF43926 |
| `Crc32.CrcChained` | src/afilter/peaks.c:88-89 | the CRC of a concatenation is the CRC of the second part seeded with that of the first |
| `Crc32.PolynomialInTable` | 3pt/crc/crc32_table_le.h:37 | the generated first table holds the polynomial at byte 0x80 |
| `PlayQueue.UnrefKeeps` | src/queue/ent.h:59-65 | giving up a reference keeps every count equal to the references there are; the entry is freed exactly when the last one goes |
| `PlayQueue.LastReference` | src/queue/ent.h:35-42 | an entry about to be freed is in no list or view, has no track and no caller's reference |
| `PlayQueue.UnrefCursorsIff` | src/queue/ent.h:35-42 | no cursor is left dead if and only if the entry stays or no list but its own has it as cursor |
| `PlayQueue.CursorSurvives` | src/queue/qu.c:404-426 | through removals the cursor index is the number of survivors before the original place, or the last index |
| `PlayQueue.NextIsFirstAfter` | src/queue/qu.c:297-309 | the position after the entry, or the cursor index once it is removed, is that of the first survivor behind it if there is one; else past the end if the entry survived, and the last survivor before it if not |
| `PlayQueueOps.RemoveKeeps` | src/queue/qu.c:404-426 | removing an item keeps reference conservation |
| `PlayQueueOps.RemoveLists` | src/queue/qu.c:404-426 | the item at the position leaves that list, no other item and no other list is touched |
| `PlayQueueOps.RemoveFrees` | src/queue/qu.c:404-426 | a removed entry is freed if and only if the list held its only reference |
| `PlayQueueOps.ClearEffect` | src/queue/qu.c:178-197 | clearing empties that list, leaves all others, and exactly the entries still referred to exist; those of the list are marked as not listed and all others keep the position they remember |
| `PlayQueueOps.LetGoKeeps` | src/queue/qu.c:178-197 | letting a cleared list's items go one by one keeps reference conservation |
| `PlayQueueOps.ViewKeeps` | src/queue/qu.c:428-446 | a filtered view holds exactly the matching items in order, each with a reference |
| `PlayQueueOps.FilteredOne` | src/queue/qu.c:440-443 | of one item, the item if it matches and nothing if not |
| `PlayQueueOps.FilteredParts` | src/queue/qu.c:439-443 | of two parts of a list, the matching items of the first and then those of the second |
| `PlayQueueOps.ReorderKeeps` | src/queue/qu.c:449-480 | any reordering keeps reference conservation |
| `PlayQueueOps.ShuffleFrom` | src/queue/qu.c:449-460 | a random order is a permutation |
| `PlayQueueOps.Exchanged` | src/queue/qu.c:455-456 | the two items have changed places and all others are where they were |
| `PlayQueueOps.EveryOrder` | src/queue/qu.c:449-460 | every order of the items comes out for some random numbers |
| `PlayQueueOps.ApplyCounts` | src/queue/qu.c:154-446 | every operation keeps reference conservation |
| `PlayQueueOps.ApplySound` | src/queue/qu.c:154-446 | every operation keeps the counts right and new numbers new |
| `PlayQueueOps.EndFrees` | src/queue/ent.h:69-91 | an ending track frees its entry if and only if nothing else refers to it |
| `PlayQueueOps.ReleaseFrees` | src/queue/ent.h:59-65 | a released reference frees its entry if and only if it was the only one |
| `PlayQueueOps.RunsConserve` | src/queue/ent.h:35-91 | from any sound state, after any sequence of operations, a count is the number of lists, views, tracks and callers holding the entry, and the entry exists exactly while that is not zero |
| `PlayQueueOps.RunsFromEmpty` | src/queue/ent.h:35-91 | the same from empty queues on, and no cursor is a freed entry if lists are played by entries of their own |
| `PlayQueueOps.RunsKeepCursors` | src/queue/qu.c:257-295 | if lists are played by entries of their own no cursor is ever a freed entry |
| `PlayQueueOps.ViewCursorDies` | src/queue/qu.c:257-264 | a state reached from empty queues in which a view's cursor is a freed entry, after the view was played by position and the entry removed from both lists |
| `PlayQueueOps.ViewOfOne` | src/queue/qu.c:428-446 | a list of two entries with a view of one of them is reached from empty queues |
| `PlayQueueCursor.CursorStays` | src/queue/qu.c:404-426 | after removals from any lists the items left keep their order and the cursor index points to the first of them at or after its old place, or the last |
| `PlayQueueCursor.NextAfterRemovals` | src/queue/qu.c:297-309 | after removals from any lists and views, what is played next is the first item left of those behind the current entry, if and only if one is left and the entry was not removed through another list while still in its own |
| `PlayQueueCursor.NextOtherwise` | src/queue/qu.c:297-309 | the other cases: an entry removed through another list only is played again; past the end if the entry is listed and nothing is behind it; the last item before it if it was removed and nothing is behind it |
| `PlayQueueCursor.PlayedAgain` | src/queue/qu.c:404-411 | a state reached from empty queues in which removal through a view makes the current entry play again |
| `PlayQueueCursor.PlayedBefore` | src/queue/qu.c:414-419 | a state reached from empty queues in which removal of the playing last entry makes the one before it play next |
| `PlayQueueCursor.PrevAfterRemovals` | src/queue/qu.c:311-322 | going back from an entry that removals have left in its list leads to the item before it if and only if there is one and no item before it was removed |
| `PlayQueueCursor.PlayedItself` | src/queue/qu.c:311-322 | a state reached from empty queues in which, the first item removed, going back from the second plays that one again |
| `PlayQueueCursor.Find` | src/queue/qu.c:241-249 | a position holding the entry, or -1 exactly if there is none |
| `PlayQueueCursor.RemoveEntryLists` | src/queue/ent.h:251-254 | the entry leaves its own list at the position it has there now, and no list loses anything else |
| `PlayQueues.Queues.Insert` | src/queue/qu.c:154-167 | the counts stay right; the new entry is at the position, which it remembers, the other items around it, other lists untouched |
| `PlayQueues.Queues.RemovePos` | src/queue/qu.c:404-426 | the counts stay right; that item leaves that list only, and its entry is freed if and only if the list held the only reference; a position past the end changes nothing |
| `PlayQueues.Queues.IndexOf` | src/queue/ent.h:238-244 | the true position or -1, whatever the remembered one was, which is corrected |
| `PlayQueues.Queues.RemoveEntry` | src/queue/ent.h:251-254 | the counts stay right; removes the entry from its list wherever it is now and nothing else; refuses if it is not listed |
| `PlayQueues.Queues.NextEntry` | src/queue/qu.c:232-309 | the entry at the next position, or the first one again if the list repeats, or one at random from the two halves in turn, any of a half; nothing but remembered positions changes; a random pick from an empty list is a division by zero |
| `PlayQueues.Queues.PrevEntry` | src/queue/qu.c:311-322 | the entry before the position that the current one remembers, which is not looked up again; otherwise as for the next entry |
| `PlayQueues.Queues.PickAt` | src/queue/qu.c:232-255 | the item at the wanted position, or past the end the first one if the list repeats, or one at random from the two halves in turn, any of a half; a random pick from an empty list is a division by zero |
| `PlayQueues.RandomTwice` | src/queue/qu.c:217-230 | two random picks in a row differ unless there is one item only |
| `PlayQueues.Queues.Clear` | src/queue/qu.c:178-197 | the counts stay right; the list is empty and keeps its cursor index, other lists are untouched, and exactly the entries still referred to are left |
| `PlayQueues.Queues.View` | src/queue/qu.c:428-446 | the counts stay right; a new list of exactly the matching items in order, other lists untouched |
| `PlayQueues.Queues.RefAt` | src/queue/qu.c:390-402 | the counts stay right; the caller gets one reference more to the item at the position, none past the end |
| `PlayQueues.Queues.Release` | src/queue/ent.h:59-65 | the counts stay right; the entry is freed if and only if the caller's was the only reference |
| `PlayQueues.Queues.StartTrack` | src/queue/ent.h:172-174 | the counts stay right with a new track that refers to the entry |
| `PlayQueues.Queues.EndTrack` | src/queue/ent.h:69-91 | the counts stay right; the entry is freed if and only if the track's was the only reference |
| `PlayQueues.Queues.Shuffle` | src/queue/qu.c:449-460 | the counts stay right; the list is a permutation of itself, by exchanges with random positions, and keeps its cursor and cursor index; other lists untouched |
| `PlayQueues.Queues.SetCursor` | src/queue/qu.c:286-291 | the counts stay right; the cursor is the entry and the cursor index its true position, which the entry remembers; other lists untouched |
| `CueGaps.ReadTokens` | src/list/cue-read.c:88-144 | the spans collected from the object are those of the token sequence; none of them ends before it begins |
| `CueGaps.MoreSkipped` | src/list/cue-read.c:117-124 | INDEX lines after 01 of a track yield nothing and change nothing |
| `CueGaps.NextIndexes` | src/list/cue-read.c:100-133 | the INDEX lines of a track complete the span of the one before as the mode promises |
| `CueGaps.SheetSpans` | src/list/cue-read.c:184-314 | the tokens of a sheet yield exactly the expected spans, in order, none dropped |
| `CueGaps.ReadSheet` | src/list/cue-read.c:184-314 | a whole sheet gives the expected spans; one per track if and only if the first track has no INDEX after 01 |
| `CueGaps.Seen` | src/list/cue-read.c:117-124 | an INDEX after 01 in the first track becomes a track of an increasing sheet |
| `CueGaps.StartsIncrease` | src/phiola.h:221-238 | in every mode spans are nonempty and follow one another |
| `CueGaps.SpansDisjoint` | src/phiola.h:221-238 | no time is in two spans |
| `CueGaps.SpansTile` | src/phiola.h:221-238 | in three modes every time from the first start on is in exactly one span; skipping omits exactly the gaps |
| `CueGaps.TrackGoesTo` | src/phiola.h:221-238 | in every mode the audio from a track's INDEX 01 to the next gap is in that track's span and no other |
| `CueGaps.GapGoesTo` | src/phiola.h:221-238 | the gap before a track is in the span of the track before, of the track itself or of none, by the mode, the gap before the first track in that of the first or of none |
| `PcmFormats.StaysInRange` | src/afilter/pcm_convert.h:425-577 | a converted sample is in the range of its format (in numbers: `PcmFormats.RangesAre`) |
| `PcmFormats.SupportedIff` | src/afilter/pcm_convert.h:425-577 | which pairs of integer formats have a conversion |
| `PcmFormats.WideningIsExact` | src/afilter/pcm_convert.h:436-526 | widening scales the value exactly to the new range |
| `PcmFormats.Narrow24` | src/afilter/pcm_convert.h:494-500 | 24 to 16 bits keeps the upper bits, rounding down |
| `PcmFormats.Narrow32` | src/afilter/pcm_convert.h:553-559 | 32 to 24 bits keeps the upper bits, rounding toward zero, as told by bounds |
| `PcmFormats.Narrow32In4` | src/afilter/pcm_convert.h:561-568 | 32 to 24 bits keeps the upper bits in place, rounding toward zero, and clears the lowest byte |
| `PcmFormats.Narrow16` | src/afilter/pcm_convert.h:436-442 | 16 to 8 bits keeps the upper bits, rounding toward zero |
| `PcmFormats.Narrow32To16` | src/afilter/pcm_convert.h:545-551 | 32 to 16 bits keeps the lower half: the same number modulo 65536 in the 16-bit range |
| `PcmFormats.ThereAndBack` | src/afilter/pcm_convert.h:436-559 | 8-16-8, 16-24-16 and 24-32-24 are identities; 16-32-16 only for zero |
| `PcmConvert.PlacesApart` | src/afilter/conv.c:84-89 | in both layouts different samples have different places in the output buffer |
| `PcmConvert.ConvertChannels` | src/afilter/pcm_convert.h:415-577 | the strided loops convert every sample of every channel; what that is for each sample is told by `PcmConvert.EachDone` |
| `PcmConvert.EachDone` | src/afilter/pcm_convert.h:415-577 | a converted sample is the one given if the formats are equal and the one that `PcmFormats.Convert` gives otherwise |
| `PcmConvert.CopyDirect` | src/afilter/pcm_convert.h:372-404 | the direct copy, where it applies, leaves the same output as the loops |
| `PcmConvert.ConvertBlock` | src/afilter/pcm_convert.h:308-685 | for all four layout combinations each sample of the output is the one given if the formats are equal and the converted one otherwise; refused, leaving the output alone, exactly for the pairs without conversion |
| `Converter.Converter.Process` | src/afilter/conv.c:140-188 | hands on the next part of each channel, converted, as much as the buffer holds, and keeps the rest; asks for more only when nothing is left |
| `Converter.ConvertStream` | src/afilter/conv.c:155-187 | for every cutting of the input into blocks and every nonempty output buffer each channel's output has the samples given, in order, each as it was if the formats are equal and converted otherwise |
| `Converter.JoinedParts` | src/afilter/conv.c:155-160 | the samples given are those of the blocks one after the other |
| `Converter.PartDone` | src/afilter/conv.c:163-180 | converting from an offset of a block converts that part of each channel |

## Left out

- User interfaces, JNI and Android code, command line and logging: glue.
- Audio devices, HTTP and D-Bus, container formats and codecs: they depend on libraries and kernels that are not part of this model.
- Allocation failure, I/O errors and partial reads and writes: reads and writes are total operations on a byte sequence.
- 64-bit offsets of 2^63 and more: offsets are natural numbers.
- Name comparison inside `NameOrder`: the string comparison comes from ffbase, which is not part of this model; names are ordered lexicographically, a prefix first.
- PackedBlock.Packed.Add: what is in memory after an overrun, the contents of the owner's data behind a name and the padding are not described.
- TreeDirFirst.WalkGrowing: what is attached depends on the entry's place only; blocks are values and the current one is kept on top of the stack, so that aliasing between blocks is not described.
- Lifecycle.EveryRun: stop() is one atomic step; interleavings inside it are not modelled.
- TaskQueue.FromEmpty: steps under the lock are atomic; memory ordering of the lock itself is not modelled.
- TreeCompareRun.CompareAll: callbacks that answer something other than EQ or NEQ are excluded.
- Filter data and time accounting in the conveyor: filters are arbitrary answers and additions; what they compute is not modelled.
- The literal CRC tables and the big-endian branch: tables are defined by their recurrence.
- Queue destruction, the counter of active tracks, expansion of directories and playlists and the conversion mode of play: queues live as long as their views and tracks.
- Deletion of an output file whose data did not end, temporary names and modification times of output files.
- PlayQueues.Queues.RemoveEntry: lists of 2^32 - 1 items and more are excluded, positions being 32-bit numbers.
- The comparison that sorts a queue by name: sorting is covered as a reordering only.
- Cue sheets with several FILE lines, their meta data and text encoding.
- CueGaps.ReadSheet: INDEX values must increase, as the format demands.
- Converter.ConvertStream: input of whole samples; sample-rate, channel-count and floating-point conversion are left out.
- PcmFormats.Narrow24: the 24-bit read of ffbase is taken as unsigned; ffbase is not part of this model.
