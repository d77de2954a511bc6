# Verified models of ns-3 support programs

This project models algorithms from this ns-3 tree that have state, recursion or concurrency of their own, and
proves what they promise. `dafny verify dfyconfig.toml` checks all of it with Dafny 4.11.

| file | models |
|---|---|
| `Dispatcher.dfy` | the parallel job dispatcher of `test.py`: main, any number of workers, two queues, an interrupt at any time |
| `TypePaths.dfy`, `EdgeLaws.dfy`, `StaticInformation.dfy`, `RepeatedEntries.dfy`, `Uniquefy.dfy` | the search for configuration paths in a cyclic type graph, and when its output has repeated entries, `utils/print-introspected-doxygen.cc` |
| `TextLines.dfy`, `StyleCheck.dfy` | the tab and trailing-whitespace fixers of `utils/check-style-clang-format.py`, with the files they rewrite |
| `Bench.dfy` | the one-pass statistics and the event population of `utils/bench-scheduler.cc` |
| `GtsTree.dfy` | the round-robin slot allocation of `scratch/dsme-EGACK-tree.cc` |
| `StreamWriter.dfy` | the re-entrant sender of `examples/socket/socket-bound-tcp-static-routing.cc` |
| `Legend.dfy`, `Timelines.dfy` | legend packing and the time searches of `utils/grid.py` |
| `SlotPick.dfy` | random slot selection of `scratch/dsme-beacon-slot-selection-random-pick.cc` |
| `Sums.dfy`, `Division.dfy` | sums over sequences, strung-together tables, division with remainder |

The sizes that the programs fix as constants are parameters here: the number of jobs and workers, the tree degree,
coordinators, superframes and data slots, the buffer and the bytes to send, the number of slots to draw from.

## How the concurrency is modelled

The dispatcher is a transition system whose actions are the atomic steps of main (start a thread, put a job or a
sentinel, take a result, join a thread), of a worker (take a job, look at its flags and at the interrupt flag,
finish running it, put it on the output queue) and of the signal handler. A sequence of actions is one
interleaving, so statements about all action sequences are statements about all schedules. A job is an entry of a
store, named by the order of its creation, because the program passes references and workers write the flags in
place. What a job returns is arbitrary. The class `TestRunner` carries the program's variables; each of its steps
is proved to be the step of the transition system, and its loop lets an arbitrary scheduler choose.

## What the definitions mean

Where a method and its specification share a definition that follows the code, a lemma says what the definition
means without naming it: the edges of a type by the registry (`EdgesAre`, `EdgesInOrder`), the codes that the
processes returned (`SummaryByCodes`), trimming and tab expansion by their laws (`TrimmedLine`, `ExpandTab`,
`ExpandLast`, `ExpandAfterBreak`), the slot table in device numbers (`TableInNumbers`, `DeviceSends`), the calls of
Send (`SendNext`), the place of each legend item (`NextCell`), the rank of each draw (`PickedByRank`).

## Where the code and its intent differ

- The dispatcher hangs if there is work and no worker thread, and in no other configuration (`DeadlockFreeIff`).
  A negative `--jobs` gives that: it passes the comparison with the number of processors (test.py:1407-1412),
  and the loop that starts the threads (test.py:1418) starts none.
- `Uniquefy` takes its container by value, so neither `Gather` nor `GetNoTypeIds` removes duplicates although its
  comment says that it works in place. The output of a search has a repeated entry if and only if the search
  reaches a type that has the same edge twice and follows it to a type it has not been at (`RepeatsIff`); every
  path through such an edge is recorded twice (`RepeatedEdgeRepeatsPath`). Over a whole run two searches can also
  share entries, but not from roots whose edges have different names (`RunRepeatsIff`, `ApartRunRepeatsIff`). The
  tree is such a case: Node is registered with Icmpv4L4Protocol twice, and the node list contains nodes
  (`RecordedTwiceRepeats`, `NodeListRepeats`). A name without a type is reported once for each pair that misses it
  (`MissingRepeatsIff`).
- Tab expansion can turn an ordinary line into a formatting guard, so two runs can disagree about the region in
  which tabs are fixed (`ExpansionCanMakeAGuard`, `RegionCanDiffer`). They agree if and only if no line with a tab
  in the enabled region, other than a guard, expands to the guard that disables formatting (`SameRegionIff`). A
  second run finds nothing to do either way.
- The round-robin queue restarts in every superframe. Within a superframe the children's slots differ by at most
  one; over the whole table that holds if and only if the data slots divide evenly among the children or there is
  at most one superframe (`FairOverallIff`). Four children instead of three are not served alike
  (`FourChildrenUnfair`).
- `get_ranges` returns nothing if neither end of the span is covered by a range, even if there are ranges in between
  (`RangeInsideMissed`); that is exact if and only if no range meets the span. With one end covered it takes the
  other to lie beyond all ranges on its side, and the answer is exact if and only if it does; with both ends covered
  it is exact (`FoundExactIff`).
- `get_events` returns one event too many unless an event is exactly at the end of the span or none is after it
  (`NothingTrailsIff`, `LaterEventFound`). With several events at one time it can miss some of them: it returns all
  events of the span if and only if neither binary search stopped beside another event of the span
  (`EventsFoundIff`), for example if at most one event is at each end (`EventsFound`). A sorted list is answered
  completely for every span if and only if no two of its events are at one time (`AlwaysCompleteIff`), and for a
  single point of time if and only if at most one event is there (`PointCompleteIff`). Of three events at the same
  time it returns one (`EventsAtOneTime`).
- A legend item that is too wide for a line of its own sticks out (`WideItemSticksOut`), and it is the only kind
  that does (`CellInsideWidthIff`).
- `WriteUntilBufferFull` closes the socket when the buffer is full, with bytes still missing; a call that finds
  the buffer full does so at once (`CloseEarly`).

## Model

| member | source | states |
|---|---|---|
| Dispatcher.NextKeepsInv | test.py:972-1046 | every atomic step of main, a worker or the signal handler keeps the invariant: FIFO input of the newest jobs, each job in one place, counts of sentinels, job flags consistent with who has seen them, tally equal to the results taken |
| Dispatcher.DeadlockFreeIff | test.py:1686-1711 | in every reachable state main or a worker can act until main is done, if and only if there is a worker or there are no jobs |
| Dispatcher.EveryRunIsBounded | test.py:978-1046 | no schedule has more than 6n + 7P + 5 steps of main and the workers for n jobs and P workers, however often it is interrupted |
| Dispatcher.JobInExactlyOnePlace | test.py:1688-1713 | in every reachable state each created job is once in the input queue, a worker's hands, the output queue or main's results |
| Dispatcher.ExitedAfterAllJobsTaken | test.py:985-986 | a worker that returned took a sentinel nobody else took, and then no real job is left in the input queue |
| Dispatcher.RunsAtMostOnce | test.py:988-1046 | a worker that is about to run a job runs one that has not been run, is not to be skipped and was not interrupted |
| Dispatcher.InterruptStops | test.py:991-993 | after an interrupt only jobs that are running then are still run, at most one for each worker, in every schedule |
| Dispatcher.AfterInterrupt | test.py:573-576 | in every run with an interrupt, a job run after it was already running when it came |
| Dispatcher.ResultsInOrder | test.py:1034-1046 | results are collected in the order in which the workers report them |
| Dispatcher.RecordedCodes | test.py:1018-1046 | in every reachable state a job has been run exactly if its process returned, and its record has the code that it returned |
| Dispatcher.SummaryByCodes | test.py:1712-1744 | passed, failed, valgrind and crashed count the jobs whose processes returned 0, 1, 2 and anything else, skipped those neither run nor interrupted; the exit code is 0 exactly if every job returned 0 or was neither run nor interrupted |
| Dispatcher.FinalSummary | test.py:1703-1744 | when main is done both queues are empty, all workers have returned, the counters equal a count of the jobs in dispatch order, a job was run exactly if it was neither skipped nor interrupted, and the exit code is 0 exactly if every job passed or was skipped |
| Dispatcher.OrderIrrelevant | test.py:1710-1744 | counting results in the order they arrive gives the count in dispatch order |
| Dispatcher.TestRunner.WorkerRun | test.py:978-1046 | one step of the worker's loop is the worker step of the transition system |
| Dispatcher.TestRunner.MainRun | test.py:1418-1850 | one step of main is the main step of the transition system |
| Dispatcher.TestRunner.Count | test.py:1712-1744 | a result adds to the one counter its flags and return code select, an interrupted one to none |
| Dispatcher.TestRunner.RunThreads | test.py:1418-1850 | under any schedule and any interrupts the loop ends, and its end is that of a run of the transition system with main done |
| Dispatcher.TestRunner.RunTests | test.py:1933-1936 | the counters count the codes that the processes returned, and the exit code is 0 exactly if every job returned 0 or was neither run nor interrupted; without an interrupt the counters add up to the number of jobs |
| EdgeLaws.EdgesAre | utils/print-introspected-doxygen.cc:421-496 | the edges of a type are those of its pointer attributes except to plain Object, of its container attributes with `/[i]`, of its registered derived types and of its aggregations in either order with `$`, and no others |
| EdgeLaws.EdgesInOrder | utils/print-introspected-doxygen.cc:421-496 | attribute edges come first, then those of derived types, then those of aggregations, each in the order of its list and none left out |
| TypePaths.FoundExactly | utils/print-introspected-doxygen.cc:412-497 | the walks found are exactly those that repeat no type and avoid the stack: none missing, none spurious, on every cyclic graph |
| TypePaths.FoundPreorder | utils/print-introspected-doxygen.cc:420-496 | the walks are found in preorder |
| TypePaths.FoundOnce | utils/print-introspected-doxygen.cc:416-419 | no walk is found twice |
| Introspection.RecordedAll | utils/print-introspected-doxygen.cc:420-496 | a search records its type with the current path and then what it finds through all edges |
| Introspection.RecordedNext | utils/print-introspected-doxygen.cc:433-436 | following an edge records a search of its target, with the type on the stack and the segment on the path |
| Introspection.PathsAreSimpleWalks | utils/print-introspected-doxygen.cc:358-371 | after a search from a root, the paths returned for a type are those of the simple walks from the root to it |
| RepeatedEntries.RepeatsIff | utils/print-introspected-doxygen.cc:404-497 | what a search records has a repeated entry if and only if some simple walk reaches a type that has the same edge twice and takes it to a type not yet visited |
| RepeatedEntries.RepeatedEdgeRepeatsPath | utils/print-introspected-doxygen.cc:388-410 | a type with the same edge twice, reached by any walk, has every path that goes on through that edge recorded twice |
| RepeatedEntries.FirstDifference | utils/print-introspected-doxygen.cc:412-497 | two different simple walks with the same path segments part at an edge that is there twice |
| RepeatedEntries.RenderFirst | utils/print-introspected-doxygen.cc:325-335 | a path is printed with a slash before each segment, from the first on |
| RepeatedEntries.RenderInjective | utils/print-introspected-doxygen.cc:325-335 | a printed path determines its segments, container marks included |
| RepeatedEntries.DistinctNamesNameEdges | src/core/model/type-id.cc:385 | where type and attribute names are distinct, the path segment out of a type determines the edge |
| RepeatedEntries.RunRepeatsIff | utils/print-introspected-doxygen.cc:404-560 | the output of the searches from all roots has a repeated entry if and only if one of them takes such an edge, or two walks from different roots have the same segments and end at one type |
| RepeatedEntries.ApartRunRepeatsIff | utils/print-introspected-doxygen.cc:552-556 | with roots of different types and edges of different names only the first is possible |
| RepeatedEntries.RecordedTwiceRepeats | utils/print-introspected-doxygen.cc:525-560 | a pair recorded twice among any others, whose first type some root object contains, gives the run's output a repeated entry |
| RepeatedEntries.NodeListRepeats | utils/print-introspected-doxygen.cc:531-533 | the node list, Node and Icmpv4L4Protocol are such a case |
| Introspection.MissingRepeatsIff | utils/print-introspected-doxygen.cc:293-316 | the names recorded as missing, which `GetNoTypeIds` returns uncleaned, have a repetition if and only if two recorded pairs miss the same name |
| Introspection.StaticInformation.RecordAggregationInfo | utils/print-introspected-doxygen.cc:293-316 | if no type has the first name that is reported, else if none has the second that is, and else an aggregation of two types with these names is appended |
| Introspection.GetTypicalAggregations | utils/print-introspected-doxygen.cc:504-560 | the aggregations and missing names of all pairs, and what a search from each root records, in order |
| Uniqueness.Uniquefy | utils/print-introspected-doxygen.cc:388-394 | what the parameter holds in the end is strictly increasing and has the elements of the container: the clean-up would work if its result were kept |
| Introspection.StaticInformation.GetCurrentPath | utils/print-introspected-doxygen.cc:325-335 | the segments, each with a slash before it |
| Introspection.StaticInformation.HasAlreadyBeenProcessed | utils/print-introspected-doxygen.cc:344-356 | whether the type is on the stack |
| Introspection.StaticInformation.Get | utils/print-introspected-doxygen.cc:358-371 | the paths recorded for the type, in order |
| Introspection.PathsInOrder | utils/print-introspected-doxygen.cc:358-371 | these are the paths of exactly the entries of the type, in the order of the entries and as often as they occur |
| Introspection.StaticInformation.DoGather | utils/print-introspected-doxygen.cc:412-497 | terminates on every graph, appends the entries of all walks found, and leaves path and stack as they were |
| Introspection.StaticInformation.FollowAttributes | utils/print-introspected-doxygen.cc:421-462 | records everything reached through attributes, skipping pointers to plain Object |
| Introspection.StaticInformation.FollowChildren | utils/print-introspected-doxygen.cc:463-475 | records everything reached through derived types |
| Introspection.StaticInformation.FollowAggregates | utils/print-introspected-doxygen.cc:476-496 | records everything reached through aggregations, in either direction |
| Introspection.StaticInformation.Gather | utils/print-introspected-doxygen.cc:404-410 | appends what the search records, with its repetitions: the clean-up changes a copy |
| TextLines.ReadWritten | utils/check-style-clang-format.py:606-637 | lines that are written back are read again unchanged |
| TextLines.ReadKeepsText | utils/check-style-clang-format.py:606-607 | the lines of a file are all of its text, apart from the kind of line ending |
| TextLines.UniversalEndings | utils/check-style-clang-format.py:606-607 | a carriage return, alone or before a newline, is read as a newline, and every other character as itself |
| TextLines.UniversalAppend | utils/check-style-clang-format.py:606-607 | text is translated piece by piece |
| TextLines.ExpandTab | utils/check-style-clang-format.py:632 | a tab becomes spaces up to the next column that is a multiple of four |
| TextLines.ExpandLast | utils/check-style-clang-format.py:632 | every other character is kept |
| TextLines.ExpandAfterBreak | utils/check-style-clang-format.py:632 | after the end of a line the columns start again |
| TextLines.ExpandKeepsColumn | utils/check-style-clang-format.py:632 | tab expansion leaves every character in the column where it was displayed |
| TextLines.ExpandKeepsInk | utils/check-style-clang-format.py:632 | tab expansion adds, drops and reorders nothing but blanks |
| TextLines.ExpandCharacters | utils/check-style-clang-format.py:632 | the expanded text has no tabs |
| StyleCheck.GuardIs | utils/check-style-clang-format.py:611-618 | a guard is its comment between any whitespace; `GuardFrom` says that there are no others |
| StyleCheck.FlaggedIff | utils/check-style-clang-format.py:613-623 | a line is reported exactly if it has a tab and is a guard itself, or after each guard before it that disables formatting there is one that enables it |
| StyleCheck.GuardSurvives | utils/check-style-clang-format.py:611-618 | expanding a guard line leaves the same guard |
| StyleCheck.SecondPassSeesLess | utils/check-style-clang-format.py:608-623 | wherever formatting is enabled in a second pass it was enabled in the first |
| StyleCheck.ExpansionCanMakeAGuard | utils/check-style-clang-format.py:611-632 | a line that is no guard becomes one, and formatting is disabled after it |
| StyleCheck.SameRegionIff | utils/check-style-clang-format.py:608-632 | two passes agree on where formatting is enabled if and only if no enabled line with a tab that is no guard expands to the guard that disables it |
| StyleCheck.FixTabsIdempotent | utils/check-style-clang-format.py:595-639 | after a tab fix a second run reports no tabs and changes nothing, for every file |
| StyleCheck.TrimmedLine | utils/check-style-clang-format.py:524 | a trimmed line is the line up to its last character that is not whitespace, and a newline |
| StyleCheck.HasTrailingIff | utils/check-style-clang-format.py:522-527 | trailing whitespace is reported exactly if some line does not end in a newline without whitespace before it |
| StyleCheck.FixKeepsText | utils/check-style-clang-format.py:322-341 | a fix run keeps the number of lines of every file and all characters of each that are not whitespace |
| StyleCheck.FixTrailingLeavesNone | utils/check-style-clang-format.py:522-535 | after trimming no line has trailing whitespace |
| StyleCheck.FixTabsKeepsTrimmed | utils/check-style-clang-format.py:331-341 | fixing tabs brings no trailing whitespace back |
| StyleCheck.FixThenCheckPasses | utils/check-style-clang-format.py:322-349 | a fix run followed by a check run with the same options succeeds; files on no list are not touched |
| StyleCheck.PassesIffFixed | utils/check-style-clang-format.py:343-349 | a check run passes exactly if a fix run would change no file |
| StyleCheck.FixIsIdempotent | utils/check-style-clang-format.py:300-349 | a second fix run changes nothing |
| StyleCheck.Checker.CheckTrailingWhitespaceFile | utils/check-style-clang-format.py:507-540 | reports whether any line does not end in a newline without whitespace before it; rewrites the file only to fix it |
| StyleCheck.Checker.ScanLine | utils/check-style-clang-format.py:608-632 | the guard handling and replacement of one line |
| StyleCheck.Checker.ScanTabs | utils/check-style-clang-format.py:602-632 | the in-place loop with its early stop in check mode computes the fixed lines and whether there was anything to fix |
| StyleCheck.Checker.CheckTabsFile | utils/check-style-clang-format.py:595-639 | reports whether any examined line has a tab, the same in both modes; rewrites the file only to fix it |
| StyleCheck.Checker.CheckTrailingWhitespace | utils/check-style-clang-format.py:457-504 | succeeds if fixing, or if no listed file has trailing whitespace; fixes the listed files and no others |
| StyleCheck.Checker.CheckTabs | utils/check-style-clang-format.py:546-592 | the same for tabs |
| StyleCheck.Checker.CheckStyle | utils/check-style-clang-format.py:300-349 | the exit code is 0 exactly if fixing, or if every enabled check passes |
| StyleCheck.Checker.FixThenCheck | utils/check-style-clang-format.py:300-349 | fixing and then checking exits with 0 |
| Welford.WelfordStep | utils/bench-scheduler.cc:358-362 | one update of average and second moment keeps them equal to those of all results so far |
| Welford.TracksMeans | utils/bench-scheduler.cc:346-372 | the running values are the mean and the sum of squared deviations from it, and nothing else is |
| Welford.Accumulate | utils/bench-scheduler.cc:356-362 | the macro, also for the first result, where the average starts as that result |
| Welford.Log | utils/bench-scheduler.cc:331-387 | one pass computes for each of the six columns the two-pass mean and mean squared deviation, and the latter is not negative under the square root |
| Population.Bench.Cb | utils/bench-scheduler.cc:163-176 | a callback schedules an event after the drawn delay or, after the last, asks the simulation to stop |
| Population.Bench.ProcessOneEvent | utils/bench-scheduler.cc:153-156 | running the earliest event never moves time back and keeps the population |
| Population.Bench.Simulate | utils/bench-scheduler.cc:133-160 | with a population there are total + 1 callbacks in order of time, after each but the last the whole population is pending, and total events are counted; without one there are none |
| Population.Bench.Run | utils/bench-scheduler.cc:133-160 | a run reports total events and leaves the simulator as it found it |
| Population.Bench.RunSuite | utils/bench-scheduler.cc:283-303 | every run after the priming run reports the same number of events |
| GtsTree.TableMember | scratch/dsme-EGACK-tree.cc:284-371 | the table holds exactly the scheduled entries: in a data slot the child whose turn it is sends and only the coordinator receives, in the acknowledgement slot the coordinator sends and exactly its children receive |
| GtsTree.TableInNumbers | scratch/dsme-EGACK-tree.cc:284-371 | the table by device numbers: the children of the coordinator on channel c are the `degree` numbers from coords + (c - 1) degree on |
| GtsTree.TableDevices | scratch/dsme-EGACK-tree.cc:56-63 | every device of the table exists and is on the channel of its own coordinator |
| GtsTree.DeviceHasOneCoordinator | scratch/dsme-EGACK-tree.cc:323-334 | every device after the coordinators is the child of exactly one, number (d - coords) / degree + 1 |
| GtsTree.DeviceSends | scratch/dsme-EGACK-tree.cc:336-363 | device d sends in data slot k exactly if k and d - coords leave the same remainder by the degree, on its coordinator's channel |
| GtsTree.ProgramSetting | scratch/dsme-EGACK-tree.cc:37-39 | with the program's constants there are 13 devices, and the coordinators' children are 4 to 6, 7 to 9 and 10 to 12 |
| GtsTree.SuperframesApart | scratch/dsme-EGACK-tree.cc:364-368 | slots start one slot time apart and superframes the data slots plus ten, sixteen in the program |
| GtsTree.TableConflictFree | scratch/dsme-EGACK-tree.cc:284-371 | no device has two entries for one slot of one superframe |
| GtsTree.ExactlyOneTransmitter | scratch/dsme-EGACK-tree.cc:313-366 | every channel, superframe and slot has exactly one transmitting entry |
| GtsTree.RotationStep | scratch/dsme-EGACK-tree.cc:360-362 | serving the front and moving it to the back is one more rotation of the child list |
| GtsTree.RotationIsPermutation | scratch/dsme-EGACK-tree.cc:323-334 | each child is at exactly one place of the queue |
| GtsTree.TransmitsInTurn | scratch/dsme-EGACK-tree.cc:336-363 | child i transmits in data slot k exactly if k leaves remainder i |
| GtsTree.FairWithinSuperframe | scratch/dsme-EGACK-tree.cc:278-282 | in one superframe two children of a coordinator differ by at most one slot |
| GtsTree.FairOverallIff | scratch/dsme-EGACK-tree.cc:307-312 | over all superframes that holds if and only if the data slots divide evenly or there is at most one superframe |
| GtsTree.FourChildrenUnfair | scratch/dsme-EGACK-tree.cc:307-312 | with four children one sends in eight slots and another in four |
| GtsTree.TrafficFollowsTable | scratch/dsme-EGACK-tree.cc:353-354 | traffic goes from the sender to the receiver of a data slot in the table, at the closed-form start of that slot |
| GtsTree.TrafficOfSlot | scratch/dsme-EGACK-tree.cc:307-369 | the list of traffic has one item for each data slot, at the position of that slot, and no others |
| GtsTree.TrafficNumbers | scratch/dsme-EGACK-tree.cc:353-354 | the source, sink and start times of an item of traffic by numbers |
| GtsTree.TableHasTraffic | scratch/dsme-EGACK-tree.cc:339-354 | every sender of a data slot in the table has traffic for the receiver at the start of that slot |
| GtsTree.GenerateRoundRobinQueue | scratch/dsme-EGACK-tree.cc:56-63 | appends the children of the coordinator in order |
| GtsTree.AllocateAck | scratch/dsme-EGACK-tree.cc:317-335 | the acknowledgement slot drains the queue into receivers |
| GtsTree.AllocateData | scratch/dsme-EGACK-tree.cc:336-363 | a data slot serves the front child and rotates the queue |
| GtsTree.AllocateSuperframe | scratch/dsme-EGACK-tree.cc:307-369 | from an empty queue to an empty queue, all slots of the superframe with their start times |
| GtsTree.Allocate | scratch/dsme-EGACK-tree.cc:282-371 | the nested loops produce the table and the traffic |
| StreamWriter.SliceContinuesStream | examples/socket/socket-bound-tcp-static-routing.cc:219-223 | a slice taken at the offset modulo the buffer size continues the repeated buffer |
| StreamWriter.Writer.SendNext | examples/socket/socket-bound-tcp-static-routing.cc:218-229 | makes exactly one call of Send, with as much from the offset on as the buffer, the bytes left and the space allow; fails if and only if the call does; the accepted bytes continue the stream |
| StreamWriter.Writer.WriteUntilBufferFull | examples/socket/socket-bound-tcp-static-routing.cc:213-232 | the counter equals the bytes accepted, never exceeds the total, and byte p is data[p mod size]; an open socket stays open if and only if the last call of Send failed, and no earlier one did; without a failure everything is written or the buffer is full |
| StreamWriter.Writer.CloseEarly | examples/socket/socket-bound-tcp-static-routing.cc:215-231 | called with a full buffer and bytes missing, it closes the socket and they stay missing |
| StreamWriter.Writer.StartFlow | examples/socket/socket-bound-tcp-static-routing.cc:199-211 | a new flow starts the stream from its beginning and sends unless there is nothing to send or no space |
| StreamWriter.Writer.Flow | examples/socket/socket-bound-tcp-static-routing.cc:199-232 | after any number of callbacks with any buffer space and any partial sends the socket has accepted a prefix of the stream, as long as the counter says, and if it is open its last call of Send failed |
| Legend.Placed | utils/grid.py:534-547 | every placed item is to the left of the pen in its row or above that row, and no higher than the line height that is never reset |
| Legend.NextCell | utils/grid.py:534-546 | an item starts a new row, below the tallest item so far, if and only if it would pass the width after the item before it; otherwise it starts where that one ends |
| Legend.FirstCell | utils/grid.py:525-546 | where the first item goes, and its size |
| Legend.HeightIs | utils/grid.py:547-548 | the height is that of the tallest item below the start of the last one |
| Legend.MarkNumbers | utils/grid.py:579-587 | the square at the corner of the item, the text two paddings further |
| Legend.CellsDisjoint | utils/grid.py:566-578 | no two items overlap |
| Legend.CellInsideHeight | utils/grid.py:523-548 | every placed item lies in the height that layout computes |
| Legend.CellInsideWidthIff | utils/grid.py:573-577 | an item lies in the width exactly if it fits on a line of its own |
| Legend.WideItemSticksOut | utils/grid.py:573-577 | a text as wide as the legend sticks out |
| Legend.TopLegendRenderer.Layout | utils/grid.py:523-548 | computes the height of the packed rows |
| Legend.TopLegendRenderer.Draw | utils/grid.py:556-591 | places the items where layout counted them |
| Legend.TopLegendRenderer.LayoutAndDraw | utils/grid.py:523-591 | after layout and drawing every square and text lies within the height, those of an item that fits also within the width, and no two squares or texts overlap |
| Timelines.FoundExactIff | utils/grid.py:131-147 | with neither end covered get_ranges is exact if and only if no range meets the span; otherwise if and only if the uncovered end, if there is one, lies beyond all ranges on its side; with an end covered it misses none |
| Timelines.FoundIs | utils/grid.py:131-147 | what get_ranges returns in each of its four cases, as a selection from the list |
| Timelines.RangeInsideMissed | utils/grid.py:138-141 | a range strictly inside the span is not returned |
| Timelines.TimelineDataRange.Search | utils/grid.py:100-117 | on ordered ranges the search fails exactly if no range covers the key |
| Timelines.TimelineDataRange.GetRanges | utils/grid.py:131-147 | the slice between the two search results, with the exactness condition |
| Timelines.EventsFoundIff | utils/grid.py:220-229 | on a sorted list, with any number of events at one time, the slice is all events of the span and at most the next one if and only if neither search stopped beside another event of the span |
| Timelines.EventsFound | utils/grid.py:220-229 | that holds if at most one event is at each end of the span |
| Timelines.AlwaysCompleteIff | utils/grid.py:195-229 | a sorted list is answered completely for every span if and only if no two of its events are at one time |
| Timelines.PointCompleteIff | utils/grid.py:195-229 | a sorted list is answered completely for a point of time if and only if at most one event is there |
| Timelines.EventsAtOneTime | utils/grid.py:195-229 | of three events at one time one is found |
| Timelines.FirstOfTwo | utils/grid.py:195-229 | of two events at one time the first is found |
| Timelines.NothingTrailsIff | utils/grid.py:220-229 | there is no extra event if and only if none is after the span or one is at its end |
| Timelines.LaterEventFound | utils/grid.py:220-229 | an event after the span is returned with it |
| Timelines.TimelineEvent.Search | utils/grid.py:195-212 | computes the bisection's position: on a sorted list an event at the key if there is one, and otherwise the place between the earlier and the later events |
| Timelines.TimelineEvent.GetEvents | utils/grid.py:220-229 | the slice between the two positions; complete on a sorted list with at most one event at each end, with the exact condition |
| SlotPick.PickedSlots | scratch/dsme-beacon-slot-selection-random-pick.cc:116-146 | picked and free slots are a partition of 1 .. total-1 whatever is drawn |
| SlotPick.PickedByRank | scratch/dsme-beacon-slot-selection-random-pick.cc:143-146 | a coordinator gets the slot with as many free slots below it as its draw says |
| SlotPick.PossibleIff | scratch/dsme-beacon-slot-selection-random-pick.cc:143-146 | an assignment results from some draws if and only if it is one to one and avoids slot 0 |
| SlotPick.PickSlots | scratch/dsme-beacon-slot-selection-random-pick.cc:116-146 | the program's list and picks for given draws |

## Left out

- Job contents other than the flags and the return code, output and XML files, timing: input and output of `test.py`.
- Exceptions in a worker thread: running a job always returns a code.
- Printing in `utils/print-introspected-doxygen.cc`. What is a derived type comes from the type registry and is an arbitrary relation.
- RepeatedEntries.RepeatsIff: for distinct names that contain no slash, attribute names that are not `[i]` and do not start with a dollar sign; that a repetition follows from a repeated edge is proved for all names (`RepeatedEdgeRepeatsPath`).
- RepeatedEntries.RunRepeatsIff: for the same names.
- clang-format itself, directory walking, file-name filters and the process pools of the style checker: the lists of files are given and every listed file exists; decoding errors do not occur.
- The square root after the statistics, and rounding: the arithmetic is over the reals.
- The simulator behind `utils/bench-scheduler.cc`: it runs the earliest event, any of several at the same time.
- The radio protocol behind the slot table, and any slot table that the program does not build itself.
- StreamWriter.Socket.Send: accepts at least one byte or fails; a send that accepts no byte and does not fail would make the loop spin. The real buffer is arbitrary after a send.
- StreamWriter.Writer.Flow: one flow at a time, because the program keeps one counter for all its sockets; the counter and the bytes accepted by all sockets since the last start are covered by `Writer.Valid`.
- Sorting in `utils/grid.py`, and its drawing and mouse handling: that the lists are sorted is an assumption. The file is a Python 3 script and its calls `sort(ranges_cmp)` and `sort(events_cmp)` are refused by Python 3, which takes no comparison function there. `get_ranges_bounds` and `get_events_bounds` return the bounds of the same slices.
- The font: text sizes are an arbitrary function that is never negative.
- The random number generator: draws are arbitrary indices into the free slots. With no slot left the program has no defined draw.
- The other scripts under `scratch` and `examples`: they configure library models with constants.
