# Discovery Server: a verified model

This project models three parts of the Discovery Server tool in Dafny and proves what they promise.

**The discovery database and its consistency check** (`src/DiscoveryItem.cpp`,
`src/DiscoveryServerManager.cpp`). Every spokesman owns a database, a sorted set of the participants
it has discovered; each of those has sorted sets of readers and writers and a flag that tells whether
it is alive. Callbacks arrive independently, so a participant reported dead before its endpoints stays
listed as a zombie. Each operation holds one mutex and is one atomic step. `SortedSets` models
`std::set` with `lower_bound` over GUIDs as a strictly sorted sequence; a GUID is a pair (prefix,
entity) in lexicographic order, of which only the total order matters and the fact that a reader's
participant has its prefix. The class `DiscoveryItemDatabase` performs the operations on its field; each is proved to be one
step of the function `DatabaseSteps.Step`, about whose runs the invariants and refinements are
proved. The comparison of two databases is characterised exactly, and the chain of comparisons in
`allKnowEachOther` is given its global meaning.

**The option parser and usage formatter** (`src/optionparser.h`). The argument vector is an array of
C strings permuted in place, the option lists are linked objects whose tag bits are booleans beside
the links, the help iterator and the line wrapper are classes with the fields of the original. C
strings are sequences without their terminating null character. The `usage` array ends where the
original has a descriptor of null pointers. A check function is a function of the option and the
message flag.

**The generated ground truth** (`test/validation/GenerateValidator.py`). The class
`GenerateValidator` fills the two dictionaries in nested loops, for all snapshots of a file. The
generated one is proved to be a relational join on topics, and the return code is given its exact
meaning in terms of what the snapshots show.

## What the proofs brought to light

- The comparison of two databases (`src/DiscoveryItem.cpp:736-811`) accepts exactly when
  `Comparison.Accepts` holds: the alive entries agree on everybody who owns neither database, and an
  owner that only its own database lists is forgiven only if nobody is listed above it. If the
  database of the greater owner lists both owners and the other one neither, somebody must sort
  between the owners. `SnapshotCheck.OwnOwnerIsNotExcused` has two databases that agree on everybody
  but the owner that only its own database lists, and compare as different.
- It is not true that the databases of an accepted snapshot all agree (on everybody who owns neither
  of the two): `SnapshotCheck.NeighboursAreNotEnough` is a snapshot in which they do not. They do
  exactly if the two neighbours of every database in between agree on its owner
  (`SnapshotCheck.AcceptedAgreeExactly`).
- `AddEndPoint` tests `it == end || ptid == spokesman` where every other operation also compares the
  element found (`src/DiscoveryItem.cpp:471`). It credits the reported participant if and only if
  that is the spokesman, is listed already, or sorts above everybody listed
  (`DatabaseFacts.EndpointRecordedIffAttributed`); otherwise somebody else gets the endpoint, as in
  `DatabaseFacts.EndpointOfAnother`.
- A participant new to a database is stamped with the current time, not with the time reported to
  `AddParticipant`, which only a revived zombie gets (`DatabaseEffects.AddItemEffect`).
- A saved snapshot, as a tree of elements, can be loaded if and only if its description is not empty. It is loaded by another
  process, with other clocks. What comes back has no database names, and no `not_alive_count`: a
  short-circuit `||` skips its query. Saved again it is the document of the snapshot without these
  two, with the same times (`SnapshotReload.SavedAgain`); from then on nothing changes any more
  (`SnapshotReload.LaterSavesAgree`). The verdict of the consistency check survives all of this.
- A count of arguments that is too large is corrected only if the parser gets as far as its end. If
  it stops before, the surplus is added to the number of non-options passed on: that number is right
  if and only if nothing is left unread or the count is not too large (`ArgumentVector.ParseVector`;
  in `ArgumentVector.OverstatedCount` one argument is passed on and counted as two).
- Counting the options and then storing them agree if and only if there are fewer than `0x7fffffff`
  of them; the arrays are large enough in any case (`TwoPasses.MeasureThenStore`). Both passes need
  check functions that ignore the message flag. The option table of the tool meets this
  (`ProgramUsage.TableIsSound`), and so does any table with the check functions of the header
  (`CheckFunctions.StockIsSteady`).
- In GNU mode the counting pass permutes the vector, and the storing pass may find other options in
  it (`TwoPasses.PassesDiffer`). The two agree on all vectors if and only if no option is disturbed:
  an option that leaves the next argument alone must be read the same when a permutation puts another
  word in its place (`TwoPasses.PassesAgreeExactly`; `SecondParse.Replaces` says which word that can
  be). It is enough that a check function which accepts one neighbour without taking it leaves all of
  them alone (`SecondParse.SteadyIsUndisturbed`), as those of the header do. A parse that gives up at
  a limit may even part an option from its argument (`TwoPasses.CutShort`).
- The validator takes two snapshots with one timestamp for one. It reports an error if and only if
  there is no snapshot, one without databases, or one of whose endpoints belongs in a database that
  the last snapshot of the same time does not have (`SnapshotVerdict.ErrorExactly`, with an example
  in `SnapshotVerdict.SharedTimestamp`).
- The search for servers in the generated ground truth ends at the first database that names nobody,
  so servers named only behind it are taken for clients (`TopicJoin.ServersMean`, and
  `TopicJoin.HiddenServer` for a snapshot in which that happens).
- The line wrapper may write an empty line: exactly if a text is too wide and the only space at which
  it can be cut is its first byte (`Chopping.EmptyChunk`).

## Layout

| Files | Contents |
|---|---|
| `Basics`, `SortedSets`, `DiscoveryItems` | common definitions; GUIDs, sorted sets, the entities |
| `DatabaseSteps`, `DatabaseEffects`, `DatabaseModel`, `DatabaseFacts`, `DatabaseCounts`, `Teardown` | the operations as steps, their effects, invariants, refinement, counters, teardown |
| `DiscoveryDatabase` | the database class |
| `Comparison`, `SnapshotCheck` | the comparison and the chain of comparisons |
| `SnapshotCompletion`, `SnapshotXml`, `SnapshotReload` | taking, saving and loading snapshots |
| `OptionLookup`, `ArgumentParsing`, `Workhorse`, `ArgumentVector` | option names, parsing, the in-place permuter |
| `OptionLists`, `OptionParser` | linked lists, the classes for counting and storing |
| `ParseAgreement`, `SecondParse`, `Rereading`, `TwoPasses` | parses with different limits, parses of a permuted vector and when they agree, counting and then storing |
| `CheckFunctions` | the check functions of the header |
| `CommandLines`, `ProgramUsage` | the round trip of command lines, the tool's own table |
| `Utf8Text`, `HelpRows`, `PartOrder`, `PartIterator`, `ColumnFit`, `ColumnLayout` | the help grid and the layout of its columns |
| `Chopping`, `LineWrap` | wrapping lines |
| `TopicJoin`, `SnapshotVerdict`, `SnapshotValidator` | the generated ground truth as a join, the meaning of its verdict, the validator class |

## Model

| member | source | states |
|---|---|---|
| Comparison.SameExactly | src/DiscoveryItem.cpp:736-811 | the comparison is true if and only if the alive entries agree on everybody but the owners and the owners' entries meet a condition on who sorts where |
| Comparison.MergeIsAccepts | src/DiscoveryItem.cpp:745-811 | the two-cursor merge over sorted lists decides that condition, with the size tie break and the tests at the end of a list |
| Comparison.SameIsSound | src/DiscoveryItem.cpp:736-811 | databases that compare equal list the same participants but for the owners, and equal entries for everybody both list |
| Comparison.SameIsComplete | src/DiscoveryItem.cpp:736-811 | if each database at most also lists the other's owner and common entries are equal, they compare equal |
| Comparison.DatabasesEqual | src/DiscoveryItem.cpp:736-811 | the loop with its two smart iterators terminates and computes the comparison |
| Comparison.SmartIterator.Next | src/DiscoveryItem.cpp:276-285 | moves on to the next alive participant and skips zombies |
| Comparison.RealSize | src/DiscoveryItem.cpp:259-262 | counts the alive participants |
| SnapshotCheck.AllKnowEachOther | src/DiscoveryServerManager.cpp:2026-2057 | accepts if and only if somebody is there when asked for and all neighbours compare equal |
| SnapshotCheck.ValidateAllSnapshots | src/DiscoveryServerManager.cpp:2059-2078 | true if and only if every snapshot is accepted, also after one has failed |
| SnapshotCheck.AcceptedMeansAgreement | src/DiscoveryServerManager.cpp:2026-2057 | in an accepted snapshot any two databases agree on every participant that owns none of the databases from the one to the other |
| SnapshotCheck.FullDiscoveryAccepted | src/DiscoveryServerManager.cpp:2026-2057 | a snapshot in which every owner lists everybody but possibly itself is accepted |
| SnapshotCheck.NeighboursAreNotEnough | src/DiscoveryServerManager.cpp:2043-2047 | a snapshot that is accepted although two databases disagree: comparing neighbours is not transitive |
| SnapshotCheck.AcceptedAgreeExactly | src/DiscoveryServerManager.cpp:2026-2057 | the databases of an accepted snapshot all agree if and only if the two neighbours of every database in between agree on its owner |
| SnapshotCheck.OwnOwnerIsNotExcused | src/DiscoveryItem.cpp:736-811 | two databases that agree on everybody but an owner that only its own database lists, and do not compare equal as somebody sorts above it |
| DiscoveryDatabase.DiscoveryItemDatabase.AccessSnapshot | src/DiscoveryItem.cpp:813-831 | finds the spokesman's database, or inserts an empty one with the given name in order |
| DiscoveryDatabase.DiscoveryItemDatabase.AddParticipant | src/DiscoveryItem.cpp:383-416 | performs its step, keeps the invariant, and the closing assertion holds if and only if an alive entry had the same server flag |
| DiscoveryDatabase.DiscoveryItemDatabase.RemoveDatabase | src/DiscoveryItem.cpp:418-424 | erases the database and tells whether there was one |
| DiscoveryDatabase.DiscoveryItemDatabase.RemoveParticipant | src/DiscoveryItem.cpp:426-453 | performs its step and keeps the invariant, also when the participant is unknown |
| DiscoveryDatabase.DiscoveryItemDatabase.AddEndpoint | src/DiscoveryItem.cpp:455-493 | performs its step for either kind, and the closing assertions hold if and only if the recorded endpoint had the same type and topic |
| DiscoveryDatabase.DiscoveryItemDatabase.RemoveEndpoint | src/DiscoveryItem.cpp:495-535 | performs its step with the three ways to fail |
| DiscoveryDatabase.DiscoveryItemDatabase.UpdateSubLiveliness | src/DiscoveryItem.cpp:579-625 | sets the two counters of one reader and changes nothing else |
| DiscoveryDatabase.DiscoveryItemDatabase.FindParticipant | src/DiscoveryItem.cpp:361-381 | collects what every database records about the participant, in order |
| DiscoveryDatabase.DiscoveryItemDatabase.CountParticipants | src/DiscoveryItem.cpp:627-640 | the size of the spokesman's database, zero if there is none |
| DiscoveryDatabase.DiscoveryItemDatabase.CountEndpoints | src/DiscoveryItem.cpp:642-684 | the number of endpoints of a kind in the spokesman's database |
| DiscoveryDatabase.DiscoveryItemDatabase.CountEndpointsOf | src/DiscoveryItem.cpp:686-734 | the number of endpoints of a kind of one participant |
| DatabaseEffects.AddItemEffect | src/DiscoveryItem.cpp:383-416 | a participant is new, revived with the reported data, or left as it was; all others are untouched |
| DatabaseEffects.AddEndpointEffect | src/DiscoveryItem.cpp:455-493 | one endpoint more, if new, for the credited participant, who may be a new zombie; nothing else changes |
| DatabaseEffects.DropItemEffect | src/DiscoveryItem.cpp:442-450 | a participant with endpoints becomes a zombie, one without is erased |
| DatabaseEffects.DropEndpointEffect | src/DiscoveryItem.cpp:516-535 | exactly one endpoint goes, and with the last one its participant if it is not alive |
| DatabaseModel.StepKeepsValid | src/DiscoveryItem.cpp:383-625 | every operation keeps all sets strictly sorted and leaves no zombie without endpoints |
| DatabaseModel.RunKeepsValid | src/DiscoveryItem.cpp:383-625 | so does every run, in any order of the callbacks |
| DatabaseFacts.EndpointRecordedIffAttributed | src/DiscoveryItem.cpp:466-478 | the reported participant gets the endpoint if and only if the attribution condition holds; the credited one gets it always |
| DatabaseFacts.EndpointOfAnother | src/DiscoveryItem.cpp:466-478 | a run after which the endpoint of a participant is recorded under another one, and its own is not listed |
| DatabaseFacts.AttributedExactly | src/DiscoveryItem.cpp:466-478 | the condition is the test that the credited participant is the reported one |
| DatabaseFacts.StepRefines | src/DiscoveryItem.cpp:383-625 | a step of the sorted sets is a step of the set of facts (who is alive, which endpoint belongs to whom) with the same return value |
| DatabaseFacts.RunRefines | src/DiscoveryItem.cpp:383-625 | over any run with correct attribution the database stands for the facts added and not yet removed |
| DatabaseFacts.RunRefinesFromStart | src/DiscoveryItem.cpp:383-625 | so it does over any such run from the empty database, which is in order all the time |
| DatabaseFacts.ListedExactly | src/DiscoveryItem.cpp:426-535 | a participant is listed if and only if it is alive or has an endpoint |
| DatabaseCounts.ParticipantsCounted | src/DiscoveryItem.cpp:627-640 | the counter of participants is the number of those that the facts list |
| DatabaseCounts.EndpointsCounted | src/DiscoveryItem.cpp:642-684 | the counters of endpoints are the numbers of endpoint facts |
| DatabaseCounts.EndpointsOfCounted | src/DiscoveryItem.cpp:686-734 | so are the counters for one participant |
| Teardown.DueStep | src/DiscoveryItem.cpp:426-535 | any outstanding removal succeeds, and the participant goes with the last one and not before |
| Teardown.AnyOrderTearsDown | src/DiscoveryItem.cpp:426-535 | in any order the removals of a participant and its endpoints all return true, end without it and change no other entry |
| Teardown.TeardownIsOrderIndependent | src/DiscoveryItem.cpp:426-535 | all orders end in the same state |
| SnapshotCompletion.Complete | src/DiscoveryServerManager.cpp:2013-2020 | the mismatch loop terminates for any managed map and any snapshot; what was there stays, every other managed participant gets an empty database |
| SnapshotCompletion.TakeSnapshot | src/DiscoveryServerManager.cpp:1980-2023 | the owners are those of before and the managed servers, clients and simples together |
| SnapshotXml.FromXml | src/DiscoveryItem.cpp:991-1166 | the nested loops read back the snapshot that the element tree describes, if the description and all string attributes are there |
| SnapshotXml.LoadItems | src/DiscoveryItem.cpp:1055-1160 | the participants of a database are inserted in the order of their elements |
| SnapshotReload.ReloadYields | src/DiscoveryItem.cpp:866-1166 | a saved snapshot can be read if and only if it has a description, and what a process with other clocks reads is given field by field |
| SnapshotReload.SavedIsReadable | src/DiscoveryItem.cpp:866-989 | a saved document has every string attribute, and can be read if and only if the description is not empty |
| SnapshotReload.ReloadKeepsVerdict | src/DiscoveryItem.cpp:866-1166 | what is read from the saved document passes the consistency check if and only if the saved snapshot does |
| SnapshotReload.SavedAgain | src/DiscoveryItem.cpp:866-1166 | the process that has read the snapshot saves it as the same document, all times included, but for the database names and the counts of writers that are not alive |
| SnapshotReload.LaterSavesAgree | src/DiscoveryItem.cpp:866-1166 | reading that document and saving it once more, in whatever processes, changes nothing |
| SnapshotReload.RelativeTimesAreCut | src/DiscoveryItem.cpp:1000-1021 | relative times come back as whole milliseconds, cut toward zero |
| OptionLookup.Streq | src/optionparser.h:1315-1321 | whether the first string is the second one up to the end or an equals sign |
| OptionLookup.StreqAbbr | src/optionparser.h:1347-1357 | whether what is typed up to the end or an equals sign is the name, or a prefix of it of the minimal length |
| OptionLookup.FindLong | src/optionparser.h:1601-1621 | the search loops compute the lookup |
| OptionLookup.LongIndexMeans | src/optionparser.h:1601-1621 | the lookup finds the first option with the typed name, else the only one it abbreviates, else none |
| ArgumentParsing.ShortIndexMeans | src/optionparser.h:1645-1647 | the first descriptor with the option character is found |
| ArgumentParsing.DummyIndexMeans | src/optionparser.h:1660-1664 | the first dummy descriptor stands for unknown options |
| ArgumentParsing.GnuMarks | src/optionparser.h:1548-1705 | in GNU mode exactly the options, their separate arguments and the first `--` are used up |
| ArgumentParsing.PosixMarks | src/optionparser.h:1548-1566 | without GNU mode what is used up is a prefix of the arguments |
| ArgumentParsing.PartitionPermutes | src/optionparser.h:1377-1385 | partitioning by what is used up is a permutation |
| Workhorse.Shift | src/optionparser.h:1377-1385 | the rotation moves one argument in front of those before it, in place |
| Workhorse.CheckOption | src/optionparser.h:1656-1692 | an option is dropped if and only if neither a descriptor nor a dummy matches; one that is accepted belongs to the descriptor found, or to a dummy, and has the argument only if the check function takes it; one that is illegal was refused by it |
| Workhorse.ScanArgument | src/optionparser.h:1594-1698 | the loop over one argument and its option group |
| Workhorse.LoopIsToken | src/optionparser.h:1594-1698 | that loop finds what the argument means as a long option, a single-minus long option or a group of short ones |
| Workhorse.UseUp | src/optionparser.h:1700-1703 | rotating an argument in front of the non-options passed over keeps the partition: the invariant of the loop |
| Workhorse.DealWithArgument | src/optionparser.h:1548-1705 | one round of the loop in place is one move of the parse, on success, failure and at the end of the options |
| Workhorse.ParseArguments | src/optionparser.h:1539-1718 | the whole loop yields the options of the parse, leaves the vector partitioned by what was used up, and passes the tail on; its count includes the surplus of an overstated argument count unless nothing is left unread |
| ArgumentVector.StablePartition | src/optionparser.h:1539-1718 | after a successful parse in GNU mode the vector is a permutation: what is used up first, then the non-options, both in their order, then whatever followed |
| ArgumentVector.PosixStays | src/optionparser.h:1552-1566 | without GNU mode the vector is unchanged |
| ArgumentVector.ParseVector | src/optionparser.h:1539-1718 | the same for a vector that may be null: exactly the non-options are passed on, and their count is right if and only if nothing is left unread or the argument count is not overstated |
| ArgumentVector.OverstatedCount | src/optionparser.h:1707-1718 | an overstated count that is not corrected: one argument is passed on and counted as two |
| OptionLists.Option.First | src/optionparser.h:608-614 | the head of the list, from every element |
| OptionLists.Option.Last | src/optionparser.h:640-643 | the tail of the list, from every element |
| OptionLists.Option.Count | src/optionparser.h:559-569 | the length of the list, from every element; zero for an unused slot |
| OptionLists.Option.Append | src/optionparser.h:731-739 | chains an element in behind the last, whichever element is asked; the values stay |
| OptionLists.ListsApart | src/optionparser.h:1482-1498 | no element is shared by the lists of two indices |
| OptionLists.StoreSlot | src/optionparser.h:1489-1495 | copying an option into the buffer and its list keeps every list the subsequence of the buffer with its index, in order |
| OptionParser.SlotsFor | src/optionparser.h:1525-1533 | two more than the greatest index, or what was there before |
| OptionParser.Stats.Add | src/optionparser.h:1522-1537 | the sizes grow by what the table needs and by the number of options found |
| OptionParser.Parser.Perform | src/optionparser.h:1482-1498 | stores an option if there is room, drops it silently if the buffer is full, refuses it if the count overflows |
| OptionParser.Parser.Occurrences | src/optionparser.h:559-569 | asked of its options slot, an index occurs as often as the options stored for it |
| OptionParser.Parser.Parse | src/optionparser.h:1514-1520 | after a parse, the first or a later one into the same arrays, the buffer and the lists hold the options stored before and those found, as many as fit, inside the arrays |
| TwoPasses.LimitedOptions | src/optionparser.h:1429-1498 | in either mode, with or without abbreviations, a parse with a limit yields the first options up to it, and succeeds if and only if the parse without one does and there are no more |
| TwoPasses.MeasureThenStore | src/main.cpp:65-68 | the two passes in either mode: what is stored is what the vector left by the counting pass holds, and the arrays have room for it; that is what the vector held at first, and the counts agree, if and only if there are fewer than 0x7fffffff options |
| TwoPasses.PassesAgreeExactly | src/optionparser.h:1539-1718 | in GNU mode a vector and the one that a parse leaves have the same options, for all vectors, if and only if no option is disturbed |
| TwoPasses.PackedAgain | src/optionparser.h:1539-1718 | then parsing the vector again also leaves it as it is |
| TwoPasses.CutShort | src/optionparser.h:1674-1694 | a vector in which a parse that gives up at its limit separates an option from its argument |
| TwoPasses.PassesDiffer | src/optionparser.h:1656-1692 | a disturbed option: two options are counted and one is stored |
| SecondParse.ParsedAgain | src/optionparser.h:1539-1718 | if no option is disturbed, the permuted arguments are parsed to the same options, all that is used up is in front, and the non-options stay where they are |
| SecondParse.SteadyIsUndisturbed | src/optionparser.h:1656-1692 | no option is disturbed if every check function that accepts one neighbour without taking it leaves all of them alone |
| Rereading.SameAgainExactly | src/optionparser.h:1539-1718 | the condition is exact: for every disturbed option there is a vector whose permutation has other options |
| CheckFunctions.StockIsSteady | src/optionparser.h:886-938 | the check functions of the header disturb no option and decide the same with and without messages |
| ParseAgreement.ParseCut | src/optionparser.h:1429-1537 | parses that differ in messages and limits yield the same options, cut where the action refuses one |
| ParseAgreement.ParseWithin | src/optionparser.h:1442-1448 | no more options are found than the action accepts |
| CommandLines.ParsedAsMeant | src/optionparser.h:1548-1705 | options written by full name behind one or two dashes, or by letters grouped behind one dash with at most one argument at the end, attached or separate, are parsed as they were meant and in order, and what follows as if they were not there |
| ProgramUsage.TableIsSound | src/arguments.h:37-57 | the tool's own table meets what the two passes, in either mode, and the lookup rely on |
| ProgramUsage.FilesAreFound | src/arguments.h:37-57 | the files named with -c and -o are found whatever they are called |
| Utf8Text.WidthCut | src/optionparser.h:1968-1991 | cut between characters, the widths of the pieces add up |
| Utf8Text.ReadChar | src/optionparser.h:1974-1989 | the bytes of a character and the columns it takes |
| HelpRows.SplitJoins | src/optionparser.h:1918-1943 | rows, cells and lines: splitting loses nothing and leaves no separator in a piece |
| HelpRows.GridAt | src/optionparser.h:1931-1943 | the parts of a row in order: line by line, every cell in turn, short cells filled up |
| PartOrder.RoundFinds | src/optionparser.h:2102-2153 | a round of the scan keeps what is known about the position, reaches the part that follows, or the end of the row |
| PartOrder.StepsShowGrid | src/optionparser.h:2089-2155 | successive steps show the cells times lines parts of the row in line-major order with their widths, and then no more |
| PartIterator.Measure | src/optionparser.h:1968-1991 | the bytes and columns of the part at the pointer |
| PartIterator.RowsOfTable | src/optionparser.h:2039-2065 | read from the start, the rows are those of all help texts of the table |
| PartIterator.LinePartIterator.NextRow | src/optionparser.h:2039-2065 | goes on to the next row, each once and in order, or tells that there is none |
| PartIterator.LinePartIterator.Next | src/optionparser.h:2089-2155 | the n-th call shows the n-th part of the row and its width, and then false; it terminates although it may go back to the start of the row |
| PartIterator.LinePartIterator.RestartRow | src/optionparser.h:2070-2080 | back before the first part of the row |
| ColumnFit.ColumnWidthMeans | src/optionparser.h:2486-2492 | the width of a column is that of its widest part that takes part in the layout and is below the threshold |
| ColumnFit.Counts | src/optionparser.h:2490-2491 | the test on column, line and following byte holds exactly for the parts of rows that have a separator |
| ColumnFit.NoteTable | src/optionparser.h:2474-2495 | a pass over the table finds the last column and the widths of all columns |
| ColumnLayout.NextThreshold | src/optionparser.h:2508-2516 | while the columns are too wide the next threshold is positive and lower, and no higher one would have done |
| ColumnLayout.FitColumns | src/optionparser.h:2472-2516 | the loop terminates; the columns but the last fit into the width, and with any higher threshold they would not |
| ColumnLayout.LayOut | src/optionparser.h:2447-2546 | tab stops are the sums of the widths, do not decrease and stay inside the width; when the last column moves to a line of its own and how wide it is |
| Chopping.NotWider | src/optionparser.h:2357-2361 | no text has more columns than bytes, which the quick test relies on |
| Chopping.FittingIsOneChunk | src/optionparser.h:2357-2401 | a text becomes one chunk if and only if it fits the width |
| Chopping.FitIsMaximal | src/optionparser.h:2364-2392 | the characters that are taken fit, and one more would not |
| Chopping.CutAtLastSpace | src/optionparser.h:2402-2421 | a text too wide is cut at the last space that leaves a chunk that fits, or else behind the last character that fits |
| Chopping.EmptyChunk | src/optionparser.h:2404-2414 | a chunk is empty if and only if a text too wide can only be cut at a space that is its first byte |
| Chopping.ChunksFit | src/optionparser.h:2355-2423 | no chunk is wider than the width |
| Chopping.ChopRejoins | src/optionparser.h:2402-2421 | the chunks make up the text, but for at most one space behind each |
| Chopping.ChopKeepsCharacters | src/optionparser.h:2366-2421 | no chunk of a text that is well-formed by section 4 of RFC 3629 begins or ends inside a character |
| LineWrap.HoldsStored | src/optionparser.h:2269-2274 | storing into the ring overwrites no chunk that has not been read |
| LineWrap.HoldsTaken | src/optionparser.h:2276-2280 | taking from the ring yields the oldest chunk |
| LineWrap.LineWrapper.constructor | src/optionparser.h:2434-2439 | the ring is empty and the width at least two |
| LineWrap.LineWrapper.Output | src/optionparser.h:2286-2292 | queues a chunk behind the others, after writing the oldest if there is no room |
| LineWrap.LineWrapper.WriteOneLine | src/optionparser.h:2297-2311 | writes the oldest chunk, on a new indented line if the call has written one before |
| LineWrap.SplitPoint | src/optionparser.h:2357-2421 | where the loops end the next chunk and go on with the text |
| LineWrap.LineWrapper.Process | src/optionparser.h:2351-2426 | writes the oldest pending chunks in order, as many as the ring cannot keep and at least one, and keeps the rest in order |
| LineWrap.LineWrapper.Flush | src/optionparser.h:2320-2331 | writes all that is pending, every line indented, and nothing if there is nothing |
| LineWrap.NothingIsLost | src/optionparser.h:2351-2426 | over any run of calls ended by a flush the lines are the chunks of all inputs, in order, each once |
| LineWrap.WrapAll | src/optionparser.h:2547-2610 | calls for the lines of a row, each after the text in front of it, a line end and a flush write exactly these lines, which are the pending chunks and those of all inputs, each once |
| LineWrap.LinesAreSound | src/optionparser.h:2351-2426 | none of these lines is too wide or splits a character of a well-formed input |
| TopicJoin.ExpectedIsJoin | test/validation/GenerateValidator.py:169-459 | in the generated dictionary a client lists its own endpoints and exactly those remote ones for which it has one of the opposite role on the same topic, with that topic |
| TopicJoin.ExpectedTopics | test/validation/GenerateValidator.py:169-459 | if every endpoint has one topic, the join determines the topics in the dictionary as well |
| TopicJoin.KnownIfMet | test/validation/GenerateValidator.py:290-459 | a participant is known to another if and only if the two meet on a topic |
| TopicJoin.KnowingIsMutual | test/validation/GenerateValidator.py:290-459 | between clients knowing is mutual |
| TopicJoin.CopyIsSnapshot | test/validation/GenerateValidator.py:169-288 | the copied dictionary holds exactly what the databases of the snapshot show, with topics that they show |
| TopicJoin.AcceptedShowsJoin | test/validation/GenerateValidator.py:97-126 | if the dictionaries are equal the databases show exactly the join; if one is included in the other, at least that |
| TopicJoin.AcceptedShowsTopics | test/validation/GenerateValidator.py:97-126 | the same for the topics, if every endpoint has one |
| TopicJoin.AllNoticesMean | test/validation/GenerateValidator.py:290-327 | announced is what participants that are not servers say of themselves |
| TopicJoin.OwnWithMeans | test/validation/GenerateValidator.py:362-369 | the first own entry with endpoints of a role decides whether there is a match |
| TopicJoin.ServersMean | test/validation/GenerateValidator.py:153-167 | a server is found, once, if and only if a database before the first that names nobody names it |
| TopicJoin.HiddenServer | test/validation/GenerateValidator.py:153-167 | a snapshot in which a server is not found |
| SnapshotValidator.GenerateValidator.ProcessServers | test/validation/GenerateValidator.py:153-167 | the nested loops collect the servers, up to the first missing key |
| SnapshotValidator.GenerateValidator.CreateCopyAndValidate | test/validation/GenerateValidator.py:169-288 | the first pass fills both dictionaries |
| SnapshotValidator.GenerateValidator.FillMatching | test/validation/GenerateValidator.py:329-459 | one endpoint is added to every database with a match, unless a key is missing for one of them |
| SnapshotValidator.GenerateValidator.ProcessValidation | test/validation/GenerateValidator.py:290-327 | the second pass announces every endpoint of a snapshot to all its databases, unless a key is missing |
| SnapshotValidator.GenerateValidator.Validate | test/validation/GenerateValidator.py:44-134 | the return code for all snapshots of a file: skipped, an error at a missing key, or whether all of them pass |
| SnapshotVerdict.ErrorExactly | test/validation/GenerateValidator.py:75-81 | an error is reported if and only if there is no snapshot, one without databases, or one with an endpoint that belongs in a database which the last snapshot of its time does not have |
| SnapshotVerdict.VerdictOneByOne | test/validation/GenerateValidator.py:44-134 | with distinct timestamps the file passes if and only if every snapshot has databases and its dictionaries compare, and is an error if and only if one has none |
| SnapshotVerdict.PassesExactly | test/validation/GenerateValidator.py:88-126 | a snapshot passes if and only if every client's database shows whom and what the join says, with its topic, and without disposals nothing else |
| SnapshotVerdict.OkExactly | test/validation/GenerateValidator.py:44-134 | the two together: when a file passes, in terms of what its databases show |
| SnapshotVerdict.SharedTimestamp | test/validation/GenerateValidator.py:186-199 | two snapshots that are judged at different times, and are an error at one time |

## Left out

- Creation and deletion of Fast DDS participants, endpoints and topics, QoS profiles, transports and locators; Fast DDS is not part of this model.
- Threads and clocks: a method under the mutex is one step, times are integers, and the current time is a parameter.
- XML text and GUID text: documents are trees with typed attributes, and the GUID codec is taken as injective. The XML library drops text that is only white space, so a description of blanks should also come back as a null text.
- Merging snapshots with different process start times (`Snapshot::operator +=`), logging and stream operators.
- Printing the rows of the usage text: indentation between columns, the last column on lines of its own, the writer adapters. `LineWrap.Indent` covers only the indentation from column 0 that the line wrapper needs.
- Moving from one table of the usage array to the next; the iterator is given the help texts of one table.
- The byte 0xFF in help texts, for which the original calls `__builtin_clz(0)`; the model decodes it as zero bits.
- Integer widths other than the checks against 0x7fffffff and the 32-bit code points: indices, lengths and the `unsigned` sizes of the arrays do not wrap around.
- The action callbacks of the parser are not called one by one: the parse takes the number of options its action accepts, and the parser stores the options afterwards in the same order.
- TwoPasses.MeasureThenStore: in GNU mode, for `0x7fffffff` options or more, what is stored is given by the vector that the counting pass leaves when it gives up, and not by the first vector; the two may differ, as `TwoPasses.CutShort` shows for a smaller limit.
- What the generated ground truth means is stated for snapshots with one database per participant, and in it one entry per participant and one topic per endpoint, as sets keyed by GUID are saved. The class `GenerateValidator`, `ErrorExactly` and `VerdictOneByOne` are not limited to these.
- The text of the dictionary keys: an endpoint is named by role, prefix and entity, a snapshot by its timestamp. Missing parameters of the validator and files that are not snapshots, both errors before anything is read.
- Documents without a string attribute, for which the original builds a string from a null pointer; `SnapshotXml.Readable` excludes them, and no saved document is one.
- The other validators (exit code, error lines, number of lines, given ground truth) and the test runner.
