# Verified models of five programs

This project models five programs of the repository in Dafny and proves what they are for.

**push_swap** sorts a stack of numbers with eleven instructions on two stacks. `Parser` models which
argument lists are accepted (down to the treatment of leading zeros, `-0` and `-2147483648`),
`LinkedStack` the pointer surgery of the four operations on nodes, `Ranks` and `CyclicOrder` the
mathematics behind the algorithm, `Costs`, `PushSwapRun`, `PushSwapSort` and `PushSwap` the algorithm
itself as methods that change nodes in place, and `Program` the whole process. The central invariant is
hidden in the C code: while `b` is emptied, the ranks in `a` are always a rotation of an ascending list,
and a number has exactly one place in `a` where that stays so. Every run carries a log of the printed
instructions; a reference interpreter (`Instructions.Replay`) that knows nothing of linked lists turns
the first stack into the present two.

**philo** is n philosopher threads and a monitor over n fork mutexes, `deadmutex` and `mealmutex`.
`PhiloTable` is a state machine at the level of single lock and unlock actions, for any number of
philosophers and any schedule; `PhiloInvariant` ties mutex owners to program counters;
`PhiloTheorems` proves deadlock freedom for odd and even n, mutual exclusion, the meaning of `full`, and
that a shutdown is bounded, silent and clean; `PhiloSetup` is the loop that wires the ring. `PhiloCode`
writes the functions of the threads in the structure of the source and proves that the state machine
performs exactly their actions; `PhiloLines` proves what every philosopher prints and counts in any run.

**so_long** checks a map and plays it. `Flood` is the recursive fill on a grid in memory, `MapCheck` the
map checker, `Moves` the game step on mutable state, `Game` the same step on values with its invariant.
The two halves meet in one theorem: a well-formed map is accepted exactly when some sequence of moves
wins the game.

**get_next_line** answers one line per call from a file read in blocks of any size, with short reads and
read failures. `Split` says what the lines of a text are, independently of any reader, and `Reader`
proves the code against it, with one buffer and with one buffer per descriptor.

**webserv** contributes two runtime pieces. `Handles`, `Registry` and `EventLoop` model the
reference-counted handle, the registry of event contexts and the event loop that uses raw pointers while
handlers copy, assign and drop handles and register and unregister descriptors. `Coding` and
`ChunkStream` model the chunked streamer over full, short and failed writes, with a decoder for the
chunked coding of section 7.1 of RFC 9112 as the independent reference.

Whole-state predicates (`Run.Valid`, `World.Valid`, `ServerEvent.Valid`, `Server.Valid`, `Playing`,
`Inv`, `Good`) are the invariants; a method that requires and ensures one keeps it over every run.

## Where the code falls short of what one might expect

Each of these is a theorem with the exact condition, beside an input or a run that shows the failure.

- A combined operation prints in its second half only, so its text accounts for its effect exactly when
  the second stack has two nodes or the first has fewer than two (`Instructions.CombinedFaithfulIff`;
  `Instructions.CombinedSilent` has stacks where it does not).
  The program only calls it when both stacks are long enough.
- `sort_three` sorts exactly the triples that are not sorted already (`PushSwapSort.ThreeSortedIff`;
  `PushSwapSort.SortedTripleUndone` has one that is undone); every caller checks that first.
- A line can follow the "died" line, because printing it and setting `dead` are two critical sections:
  exactly while the monitor waits for `deadmutex` to set the flag, and from a philosopher that already
  holds that mutex to print (`PhiloTheorems.LineAfterDiedIff`; `PhiloTheorems.LineAfterDied` has a run
  for every n). Nothing is printed once `dead` or `full` is set.
- A chunk whose write was short or failed stays pending without `offset` moving on, so its block is sent
  again, once for every such write; the decoded stream is the file exactly when there was none
  (`ChunkStream.StreamTheorem`; in `ChunkStream.SentTwice` the client decodes the file twice over).
- `register_event` stores an empty handle and gives the kernel a null pointer, which the event loop
  then uses. Every pointer the kernel may deliver is to a live object exactly when no descriptor was
  registered with an empty handle (`Registry.ServerEvent.DeliverableIff`), and a run only ends that way
  if there was one (`EventLoop.Server.Launch`). `EventLoop.EmptyRegistered` gets there in one call.
- `set_data` and the constructor from a raw pointer leave sound counters exactly when no handle has
  managed the object before (`Handles.Handle.SetData`, `Handles.Handle.Of`); `Handles.HandedOverTwice`
  ends with one object under two counters.
- `create_stack` looks at the error of a token only before it reads the next one, so it succeeds exactly
  when all tokens but the last are acceptable (`Program.CreateStack`). `Program.BadTokenAccepted` has a bad token
  that passes. The caller has checked them all.

## Model

| member | source | states |
|---|---|---|
| Program.PushSwapMain | 42_push_swap/src/main.c:92-114 | refused arguments give the error text, status 1 and no run; accepted ones end with b empty, a ascending and a permutation of the numbers denoted, a log that a reference interpreter replays to that result, within the instruction bound, and empty for sorted input |
| Program.OneArgumentOrMany | 42_push_swap/src/parser.c:113-137 | acceptable numbers mean the same as one space-separated argument and as separate ones |
| Program.WordsOfJoin | 42_push_swap/src/parser.c:122-123 | splitting undoes joining for words without spaces |
| Program.WordsFound | 42_push_swap/src/parser.c:122-123 | words with any gaps of spaces before, between and after them are found again |
| Program.TextIsWords | 42_push_swap/src/parser.c:122-123 | every text is its words with such gaps |
| Program.CreateStack | 42_push_swap/src/stack.c:36-59 | succeeds exactly if every token before the last is acceptable; the new acyclic list has the numbers of acceptable tokens in order, every index 0 |
| Program.BadTokenAccepted | 42_push_swap/src/stack.c:43-58 | a single token that is no number still gives a list and success |
| Parser.ErrorFree | 42_push_swap/src/parser.c:86-111 | accepts if and only if there is a list and every token is an optional sign with digits, in int range, not negative zero, and all values are distinct |
| Parser.SpelledReads | 42_push_swap/src/parser.c:58-84 | the decimal spelling of an integer, by an independent speller, denotes that integer and is accepted exactly in int range |
| Parser.PaddedReads | 42_push_swap/src/parser.c:69-80 | a plus sign and any number of leading zeros change neither |
| Parser.ListReads | 42_push_swap/src/parser.c:86-111 | the spellings of a list of ints denote that list and are acceptable exactly if no number comes twice |
| Parser.FtAtoiCheck | 42_push_swap/src/parser.c:58-84 | sets the error exactly for unacceptable strings, keeps one that was set, and otherwise returns the number; the accumulator fits a long |
| Parser.FtSame | 42_push_swap/src/parser.c:31-56 | compares sign and digits after leading zeros |
| Parser.TrimZero | 42_push_swap/src/parser.c:20-29 | leaves the digits after the sign and the leading zeros |
| Parser.SameIffEqual | 42_push_swap/src/parser.c:31-56 | on accepted strings that comparison is equality of numbers |
| Parser.SameAsLowest | 42_push_swap/src/parser.c:67-68 | the specially treated string is INT_MIN, leading zeros or not, and nothing else |
| Parser.NumInjective | 42_push_swap/src/parser.c:46-55 | without leading zeros a number has one spelling |
| PushSwap.SortAll | 42_push_swap/src/main.c:103-111 | from any list of distinct numbers, unranked: b ends empty, a ascending, with permutation, replay and bound |
| PushSwap.SortMore | 42_push_swap/src/main.c:64-90 | four or more numbers end in a as a rotation of an ascending list, b empty, within the bound |
| PushSwap.PushSmallerHalf | 42_push_swap/src/main.c:69-76 | for n > 6 b gets exactly the ranks 1 to n/2 and a keeps the larger ones, in at most n instructions |
| PushSwap.Prepare | 42_push_swap/src/main.c:69-83 | afterwards a has three nodes, sorted, b the rest, within the set-up bound |
| PushSwap.InsertAll | 42_push_swap/src/main.c:84-89 | the insertion loop ends with b empty and a a rotation of an ascending list |
| PushSwap.InsertRound | 42_push_swap/src/main.c:84-89 | one round keeps a's ranks a rotation of an ascending list and costs at most size/2 + 1 instructions |
| PushSwap.CheapAtTheTop | 42_push_swap/src/effective_adjust.c:103-124 | the cheapest node of b costs at most half of a |
| PushSwap.AdjustStack | 42_push_swap/src/effective_adjust.c:37-59 | brings the minimum to the top by the shorter way, which makes a rotation of an ascending list ascending |
| PushSwap.InstructionBoundCoarse | 42_push_swap/src/main.c:64-111 | the proved bound is at most 2n-1 + (n-3)(n/2+1) + n/2 for n >= 4 |
| PushSwap.InsertKeepsCycle | 42_push_swap/src/pos_and_cost.c:60-75 | putting a node before its target keeps the ranks a rotation of an ascending list |
| PushSwap.NumbersReplay | 42_push_swap/src/operations.c:16-115 | the printed instructions replayed on the numbers give the numbers of the final stacks |
| PushSwap.ReplayPermutes | 42_push_swap/src/operations.c:16-115 | whatever instructions leave in a, with b empty before and after, is a permutation |
| PushSwap.Arrange | 42_push_swap/src/main.c:104-109 | each of main's cases leaves a rotation of an ascending list, and no instruction for sorted input |
| PushSwapSort.AssignIndex | 42_push_swap/src/main.c:16-37 | the nested selection loops give every node its rank 1..n in number order |
| PushSwapSort.LowestUnranked | 42_push_swap/src/main.c:25-35 | the inner loop finds a least number among the unranked nodes, if there are any |
| PushSwapSort.NextRank | 42_push_swap/src/main.c:20-36 | with the k lowest ranked, the least other number has rank k + 1 |
| PushSwapSort.IsSorted | 42_push_swap/src/main.c:39-51 | decides whether the whole list never descends |
| PushSwapSort.SortThree | 42_push_swap/src/main.c:53-62 | effect of the two tests and moves on three nodes, in at most two instructions |
| PushSwapSort.ThreeSortedIff | 42_push_swap/src/main.c:53-62 | the result is ascending if and only if the triple was not |
| PushSwapSort.SortedTripleUndone | 42_push_swap/src/main.c:53-62 | a sorted triple does not stay sorted |
| PushSwapSort.DoCostEffective | 42_push_swap/src/effective_adjust.c:103-124 | moves a node that minimises the sum of both costs over b; both signed rotations then the push |
| PushSwapSort.Price | 42_push_swap/src/pos_and_cost.c:60-92 | every node of b gets a target that is its cyclic successor in a, and costs equal to the shortest rotations |
| PushSwapSort.Insert | 42_push_swap/src/main.c:86-88 | one of the cheapest nodes ends directly before its successor, at the stated price |
| Costs.CurrentPos | 42_push_swap/src/pos_and_cost.c:16-28 | every node's pos becomes its place in the list |
| Costs.GetLowest | 42_push_swap/src/pos_and_cost.c:30-58 | the position of the smallest larger index, or of the minimum if none is larger |
| Costs.Target | 42_push_swap/src/pos_and_cost.c:60-75 | all nodes of b get their target in a |
| Costs.Cost | 42_push_swap/src/pos_and_cost.c:77-92 | costs are the signed shortest rotations of position and target |
| Costs.LowestPos | 42_push_swap/src/effective_adjust.c:16-35 | the position of the minimum |
| PushSwapRun.Run.SameMoves | 42_push_swap/src/effective_adjust.c:61-75 | shared rotations are taken off both costs and what remains to do is unchanged |
| PushSwapRun.Run.RollA | 42_push_swap/src/effective_adjust.c:77-101 | a's remaining cost is rotated away, one instruction each |
| PushSwapRun.Run.RollB | 42_push_swap/src/effective_adjust.c:77-101 | the same for b |
| PushSwapRun.Run.DoMove | 42_push_swap/src/effective_adjust.c:77-101 | a and b turn by their signed costs and the top of b goes on a; the instruction count is exact |
| LinkedStack.PushToX | 42_push_swap/src/operations.c:16-31 | head removal and insertion, both lists acyclic and disjoint, their nodes conserved, logged only if a node moved |
| LinkedStack.SwapX | 42_push_swap/src/operations.c:33-48 | the relinked list is the swapped one; short lists stay and print nothing |
| LinkedStack.RotateX | 42_push_swap/src/operations.c:50-67 | the relinked list is the rotated one |
| LinkedStack.ReverseRotateX | 42_push_swap/src/operations.c:69-89 | the relinked list is the list rotated back |
| LinkedStack.MultipleOperation | 42_push_swap/src/operations.c:98-115 | both stacks move; the text is printed by the second half only |
| Instructions.CombinedFaithfulIff | 42_push_swap/src/operations.c:98-115 | when the printed text of a combined operation accounts for its effect |
| Instructions.CombinedSilent | 42_push_swap/src/operations.c:98-115 | a combined swap with one node in b changes a and prints nothing |
| Instructions.ReplayKeepsContents | 42_push_swap/src/operations.c:16-115 | any list of instructions keeps the contents of the two stacks together |
| Instructions.ReplayNatural | 42_push_swap/src/operations.c:16-115 | instructions do not look at values: replay commutes with renaming |
| Instructions.ReadRender | 42_push_swap/src/operations.c:16-115 | the text printed can be read back as the instructions |
| CyclicOrder.CyclicIsRotation | 42_push_swap/src/pos_and_cost.c:30-58 | the invariant's local form is: some rotation is ascending |
| CyclicOrder.InsertionPoint | 42_push_swap/src/pos_and_cost.c:30-58 | inserting before position t keeps the invariant if and only if t is the target |
| CyclicOrder.LeastToTop | 42_push_swap/src/effective_adjust.c:37-59 | with its minimum on top such a list is ascending |
| CyclicOrder.CostIsShortest | 42_push_swap/src/pos_and_cost.c:77-92 | the signed cost rotates position to top and its size is min(pos, size - pos) |
| Ranks.RankOrder | 42_push_swap/src/main.c:16-37 | ranks compare as the numbers do |
| Ranks.RanksUpTo | 42_push_swap/src/main.c:69-76 | exactly h of n distinct numbers have a rank up to h |
| Ranks.AscendingRanks | 42_push_swap/src/main.c:110-111 | ranks ascend if and only if the numbers do |
| PhiloSetup.InitForksAndPhilos | 42_philosophers/philo/initialization.c:98-125 | returns 0 exactly if every mutex initialises, with n forks and the ring of fork pointers wired; the first one that fails ends it with the seats before it wired and the rest untouched |
| PhiloSetup.ForkBetweenTwo | 42_philosophers/philo/initialization.c:109-119 | every fork is the left one of exactly one philosopher and the right one of exactly the next |
| PhiloSetup.OrderFromId | 42_philosophers/philo/food.c:33-55 | the order of forks in the state machine is the one by parity of id, and the two differ |
| PhiloCode.RoundIsCode | 42_philosophers/philo/food.c:15-70 | for every answer of `dead_or_full`, a turn of a philosopher performs exactly the actions of eat, sleep and check as they are written, and ends or goes on as they return |
| PhiloCode.StartIsCode | 42_philosophers/philo/main.c:42-45 | before its loop a thread only sets its deadline under `mealmutex` |
| PhiloCode.TurnIsCode | 42_philosophers/philo/check.c:15-84 | whatever deadlines and counters it sees, a turn of the monitor performs exactly the actions of `check_is_dead` and `check_is_full` |
| PhiloCode.MainIsCode | 42_philosophers/philo/main.c:76-87 | n creations and a pause before the monitor, n joins and n + 3 destructions after it |
| PhiloLines.StepSays | 42_philosophers/philo/main.c:16-27 | which step prints which line with which id, counts a meal or sets a flag |
| PhiloLines.LifeOfPhilo | 42_philosophers/philo/food.c:33-70 | until a flag is set each philosopher has printed thinking first if its id is odd, then two forks, eating and sleeping for every meal counted, up to where it is |
| PhiloLines.MealsCounted | 42_philosophers/philo/food.c:57-70 | the counter is the number of eating lines, less one exactly between the line and the count |
| PhiloInvariant.PhiloAccounted | 42_philosophers/philo/food.c:15-70 | no philosopher action takes a mutex it has or leaves one it has not |
| PhiloInvariant.MainAccounted | 42_philosophers/philo/check.c:15-84 | the same for the monitor |
| PhiloInvariant.ReachableInv | 42_philosophers/philo/main.c:66-88 | in every reachable state recorded owners match program counters, flags match the monitor's phase, and fed counts are right |
| PhiloTheorems.DeadlockFree | 42_philosophers/philo/food.c:33-55 | for every n >= 2 and reachable state, every unfinished thread has a wait chain that ends in a thread that can step |
| PhiloTheorems.NoCircularWait | 42_philosophers/philo/check.c:38-49 | no row of waiting threads comes back to its start |
| PhiloTheorems.PhiloClimbs | 42_philosophers/philo/food.c:15-70 | a philosopher takes mutexes in ascending rank only, whatever the parity of n |
| PhiloTheorems.MainClimbs | 42_philosophers/philo/main.c:16-27 | so does the monitor |
| PhiloTheorems.HoldersDisjoint | 42_philosophers/philo/food.c:15-70 | two threads never hold the same mutex |
| PhiloTheorems.NeighboursNeverEatTogether | 42_philosophers/philo/food.c:57-70 | ring neighbours are never both at the table |
| PhiloTheorems.FullMeansFed | 42_philosophers/philo/check.c:51-74 | when `full` is set every philosopher has had all rounds, though counters are read one by one |
| PhiloTheorems.StepSpends | 42_philosophers/philo/main.c:29-56 | after a flag is set every step by any thread spends a budget and prints nothing |
| PhiloTheorems.ShutdownTheorem | 42_philosophers/philo/initialization.c:77-96 | after a flag at most 22n + 3 further actions happen, nothing is printed, and a halted system is a clean one |
| PhiloTheorems.HaltedIffClean | 42_philosophers/philo/initialization.c:77-96 | nobody can step if and only if all threads have returned and no mutex is owned |
| PhiloTheorems.CleanupSafe | 42_philosophers/philo/initialization.c:87-95 | when mutexes are destroyed all philosophers have returned and nothing is locked |
| PhiloTheorems.LineAfterDiedIff | 42_philosophers/philo/check.c:26-29 | once a death is reported, a step adds a line if and only if the monitor is at the lock before setting `dead` and the step is a philosopher's print |
| PhiloTheorems.RunReported | 42_philosophers/philo/check.c:22-31 | in every run a "died" line is out exactly from its print until the flag is set, and from then on |
| PhiloTheorems.LineAfterDied | 42_philosophers/philo/check.c:26-29 | for every n a run exists in which a line follows "died", so the condition occurs |
| MapCheck.CheckMap | 42_so_long/src/map_check.c:123-149 | invalid exactly for maps that fail the shape, border or content checks; a valid map is accepted if and only if it can be won |
| MapCheck.MapIsRectangular | 42_so_long/src/map_check.c:15-41 | takes the newlines off both ends of each row, and nothing else, and decides whether the rows have one length |
| MapCheck.TrimUnique | 42_so_long/src/map_check.c:25-26 | a row has only one such trimming |
| MapCheck.FileTrimmed | 42_so_long/src/map_check.c:20-29 | the rows of a file become its lines, with or without a newline at the end |
| MapCheck.MapIsClosed | 42_so_long/src/map_check.c:43-68 | decides whether walls surround the map |
| MapCheck.ContainsNotCorrect | 42_so_long/src/map_check.c:70-96 | decides whether a row has legal characters and counts and locates them |
| MapCheck.MapIsValid | 42_so_long/src/map_check.c:98-121 | accepts exactly closed maps of legal characters with one player, one exit and a collectible |
| MapCheck.FillArray | 42_so_long/src/error.c:59-77 | the grid is a copy of the rows |
| MapCheck.SomethingLeft | 42_so_long/src/map_check.c:131-145 | the scan finds whether the fill left a collectible or an exit |
| MapCheck.StartIsFresh | 42_so_long/src/map_check.c:98-121 | the counters and coordinates of a valid map describe the start of a game on it |
| Flood.FloodFill | 42_so_long/src/error.c:79-90 | terminates inside the grid and marks exactly the free cells connected to the start, changing nothing else |
| Grid.MarkedIsFilled | 42_so_long/src/error.c:79-90 | marking without a free neighbour left over is marking everything reachable |
| Grid.ClosedEncloses | 42_so_long/src/map_check.c:43-68 | on a closed rectangle no free cell has a neighbour outside |
| Game.StepKeeps | 42_so_long/src/game.c:58-77 | a step keeps the player tile, walls, collectible count, exit tile and the meaning of `end` |
| Game.EnterableIffFree | 42_so_long/src/movements.c:15-38 | a neighbouring tile can be entered exactly when it is no wall and the game is not won |
| Game.SolvableIffWinnable | 42_so_long/src/map_check.c:131-145 | the fill clears the map if and only if some finite sequence of moves wins |
| Game.CollectAll | 42_so_long/src/movements.c:15-102 | if exit and collectibles are reachable there is a winning sequence, past the exit if need be |
| Game.PlayExplores | 42_so_long/src/game.c:58-77 | whatever is collected or visited in any sequence was reachable from the start |
| Game.WalkAlong | 42_so_long/src/movements.c:40-102 | every path of free tiles can be walked, and it collects what lies on it |
| Moves.Vars.CanMove | 42_so_long/src/movements.c:15-38 | allows exactly the enterable tiles and updates counters and `end` |
| Moves.Vars.MoveForward | 42_so_long/src/movements.c:40-54 | the mutable state changes as the move upwards on values |
| Moves.Vars.MoveBackward | 42_so_long/src/movements.c:56-70 | as the move downwards |
| Moves.Vars.MoveLeft | 42_so_long/src/movements.c:72-86 | as the move to the left |
| Moves.Vars.MoveRight | 42_so_long/src/movements.c:88-102 | as the move to the right |
| Moves.Vars.RenderExit | 42_so_long/src/utils.c:74-82 | the exit tile is put back and nothing else changes |
| Moves.Vars.EventHandler | 42_so_long/src/game.c:58-77 | any key keeps the game invariant; w, a, s and d make one whole step up, left, down and right, escape leaves, and no other key does anything |
| Split.SplitIsLines | 42_get_next_line/get_next_line.c:124-145 | the only way to cut a text into maximal lines with a newline at the end only is the one the code answers |
| Split.LinesAreSplit | 42_get_next_line/get_next_line.c:124-145 | the lines concatenate to the text, each with a newline only at its end |
| Split.CallsDoNotMix | 42_get_next_line/get_next_line_bonus.c:125-146 | in interleaved calls each answer is the next line of its own descriptor |
| Reader.StrChrNewline | 42_get_next_line/get_next_line_utils.c:27-49 | finds the first newline, or keeps the position |
| Reader.CStringIs | 42_get_next_line/get_next_line_utils.c:15-25 | a block counts up to its first NUL, and whole without one |
| Reader.CreateCopyReturn | 42_get_next_line/get_next_line.c:23-48 | appends the block to the buffer |
| Reader.StaticHandler | 42_get_next_line/get_next_line.c:50-76 | keeps what follows the line |
| Reader.CopyUntilN | 42_get_next_line/get_next_line.c:78-104 | copies the line, or all, or nothing of an empty buffer |
| Reader.FtRead | 42_get_next_line/get_next_line.c:106-122 | reads until a newline or the end; the buffer grows by the blocks as C strings, and without NUL bytes nothing is lost |
| Reader.Single.GetNextLine | 42_get_next_line/get_next_line.c:124-145 | answers the first line of the buffer and the blocks read as C strings, which without NUL bytes is the next line of the file, for every block size and short-read pattern; NULL and an empty buffer on failure |
| Reader.Single.Parse | 42_get_next_line/get_next_line.c:124-145 | calls until NULL answer exactly the lines of the text read, which without NUL bytes is the file |
| Reader.Several.GetNextLine | 42_get_next_line/get_next_line_bonus.c:125-146 | the same for one descriptor, and no other descriptor is affected |
| Reader.Several.Calls | 42_get_next_line/get_next_line_bonus.c:125-146 | in any interleaving every descriptor without failed reads and NUL bytes gets its own lines in order, whatever fails on the others |
| Handles.CounterIsNumberOfSharers | webserv/Utilities/DolbayobPTR.hpp:28-77 | a handle's counter is the number of handles that share it |
| Handles.DeletedIffUnheld | webserv/Utilities/DolbayobPTR.hpp:54-76 | a managed object has been deleted, and once, exactly when no handle has it |
| Handles.Handle.Unlink | webserv/Utilities/DolbayobPTR.hpp:54-67 | the share is given up; the object is deleted exactly if this was the last one |
| Handles.Handle.DestroyPtr | webserv/Utilities/DolbayobPTR.hpp:70-76 | the object joins the deleted ones and its counter goes |
| Handles.Handle.Assign | webserv/Utilities/DolbayobPTR.hpp:28-41 | shares the other's object; self-assignment deletes nothing |
| Handles.Handle.SetData | webserv/Utilities/DolbayobPTR.hpp:45-52 | leaves the old object and takes the new one with a counter of its own; the counters are sound afterwards exactly if no handle has managed that object before |
| Handles.Handle.Copy | webserv/Utilities/DolbayobPTR.hpp:18-22 | one more handle on the same object and counter |
| Handles.Handle.Of | webserv/Utilities/DolbayobPTR.hpp:11-16 | a handle with counter one; sound exactly if no handle has managed the object before |
| Handles.Handle.Destroy | webserv/Utilities/DolbayobPTR.hpp:24-26 | one handle less, and the object deleted if it was the last |
| Handles.HandedOverTwice | webserv/Utilities/DolbayobPTR.hpp:11-16 | one raw pointer given to two handles leaves two counters that do not count the holders |
| Registry.ServerEvent.RegisterEvent | webserv/Server/ServerEvent.cpp:28-48 | answers and what enters the kernel for a full registry of 2000, known, failing and new descriptors, empty handles too; by-value copies come and go without deleting anything, and no stored handle is empty exactly if none was and the new one is not |
| Registry.ServerEvent.RegisterPointer | webserv/Server/ServerEvent.cpp:28-48 | given a raw pointer it owns the object: deleted on return if and only if it was not stored |
| Registry.ServerEvent.UnregisterEvent | webserv/Server/ServerEvent.cpp:50-64 | the descriptor leaves the map and the kernel, and its object is not deleted |
| Registry.ServerEvent.WaitEvent | webserv/Server/ServerEvent.cpp:66-76 | closed handles are destroyed, then any answer of the kernel becomes the batch |
| Registry.ServerEvent.BatchIsLive | webserv/Server/ServerEvent.cpp:50-76 | every pointer of the current batch that is not null is to a live object |
| Registry.ServerEvent.BatchLiveIff | webserv/Server/ServerEvent.cpp:37-45 | the whole batch is live exactly if none of the handles behind it is empty |
| Registry.ServerEvent.DeliverableIff | webserv/Server/ServerEvent.cpp:37-45 | every pointer the kernel may deliver is live exactly if no descriptor was registered with an empty handle |
| Registry.UnregisteredKept | webserv/Server/ServerEvent.cpp:60-62 | moving the handle to the closed ones keeps every pointer of the batch held |
| EventLoop.Server.Act | webserv/Server/ServerEvent.cpp:28-64 | what each action does to the program's handles and to the kernel's pointers, and that it is recorded |
| EventLoop.Server.HandleEvent | webserv/Server/Server.cpp:52-68 | crashes exactly on a null pointer; otherwise, without exceptions, the recorded turn is a use, the handler's actions unless there is an error or it is closing, a use, and the unregistering of a closing descriptor, which has left the kernel; every use is of a live object |
| EventLoop.Server.CloseIf | webserv/Server/Server.cpp:64-66 | a closing descriptor leaves the registry, another stays |
| EventLoop.Server.HandleEpollEvent | webserv/Server/Server.cpp:52-68 | the invariant survives a batch with any handler actions; without an exception it comes through exactly if no pointer is null, and then every event has had its whole turn |
| EventLoop.Server.Launch | webserv/Server/Server.cpp:33-50 | the invariant holds after any set-up and any number of turns with any kernel answers; a crash means that an empty handle was stored, and a run that ends well has done all of the set-up and of every turn, in order |
| EventLoop.Server.Guarantees | webserv/Server/ServerEvent.cpp:28-76 | at every point of a run: counters are sharer counts, deletion happens once and exactly when unheld, the size is the map's, batch pointers are live unless null, none is null unless an empty handle was stored, and every use so far was of a live object |
| EventLoop.EmptyRegistered | webserv/Server/ServerEvent.cpp:37-46 | after registering an empty handle the kernel has a null pointer for the descriptor |
| ChunkStream.StreamTheorem | webserv/Response/Chunk.cpp:35-130 | for all write results the bytes sent are complete chunks and a prefix of the pending one; a finished stream decodes to the blocks of the file in order, each once more for every interrupted write, and to the file exactly when there was none; every chunk is a piece of the file of the full size or its end, and without interruptions the pieces follow one another |
| ChunkStream.SentTwice | webserv/Response/Chunk.cpp:103-109 | a one-block file whose first write fails finishes as the file twice over |
| ChunkStream.SendsAmount | webserv/Response/Chunk.cpp:103-118 | the repeated blocks amount to the file so far without interruptions and to more bytes otherwise |
| ChunkStream.CallGood | webserv/Response/Chunk.cpp:35-130 | one call keeps framing, pending data and coverage of the file |
| ChunkStream.CanFinish | webserv/Response/Chunk.cpp:52-130 | from every state full writes finish the stream within a bounded number of calls |
| ChunkStream.FullCallAdvances | webserv/Response/Chunk.cpp:52-130 | a call whose writes go through makes progress |
| ChunkStream.Streamer.StreamFileChunked | webserv/Response/Chunk.cpp:35-130 | the state given by reference changes as specified for the configured size, or 8192, with exactly the stated writes; a file that does not open changes nothing |
| ChunkStream.Streamer.Flush | webserv/Response/Chunk.cpp:52-74 | pending bytes first: kept on failure, advanced on a short write, finished after the last chunk |
| ChunkStream.Streamer.SendNext | webserv/Response/Chunk.cpp:76-129 | next block or last chunk: the chunk offered has the full size or the rest of the file, and `offset` moves only when it was written whole |
| ChunkStream.BlockLength | webserv/Response/Chunk.cpp:88-97 | a block is the smaller of the size and the rest of the file, from the offset on |
| ChunkStream.SendsInOrder | webserv/Response/Chunk.cpp:87-118 | without interruptions the chunks are the successive pieces of the file |
| Coding.ChunkReads | webserv/Response/Chunk.cpp:8-12 | a decoder reads an encoded block back and goes on with the rest |
| Coding.StreamDecodes | webserv/Response/Chunk.cpp:8-16 | chunks and a last chunk decode to the concatenated blocks |
| Coding.HexReads | webserv/Response/Chunk.cpp:10-10 | the hexadecimal size is read back as the number |
| Coding.DataIsNotFinal | webserv/Response/Chunk.cpp:65-65 | no data chunk is mistaken for the last one |

## Left out

- Allocation failure and `free` in the C programs, and the exit paths they lead to.
- The clock: `get_time` and `ft_usleep` become a free outcome of each comparison and pauses that end at any time, so nothing is said about deadlines or starvation.
- The mutex `print` of philo, which no thread takes, the single-philosopher path `case_one`, and argument checking.
- PhiloSetup.InitForksAndPhilos: the texts printed for a mutex that fails to initialise.
- A mutex action and the statements of its critical section are one step each; the hardware memory model below pthread mutexes is not modelled.
- Program.PushSwapMain: requires fewer than INT_MAX numbers, because the argument count is an int that also counts the program name; `ft_split` enters as its specification `Words`.
- PushSwapRun.Run.RollA: the two pairs of loops of `do_move` are two methods, and nodes are records whose numbers never change.
- The list of map rows in so_long is an array of strings, as its nodes are never relinked; file reading, file names, rendering and the move counter's text are left out.
- Reader.Single.GetNextLine: with NUL bytes a block counts as the C string it starts with, so which bytes are lost depends on how the reads are cut; that the answers are the lines of the file is stated without them.
- Reader.Several.GetNextLine: descriptors from 0 to the size of the static array; a negative one is outside the array.
- ChunkStream.Streamer.StreamFileChunked: the file is the same in every call and reading it does not fail after its size was taken (webserv/Response/Chunk.cpp:92-98); the pending pointers are always given; it is two methods, one for each write.
- `is_chunked_response` and the helper that opens files are not part of this model.
- Registry.ServerEvent.WaitEvent: closed handles are destroyed from the last to the first; the C++ standard leaves that order open.
- Registry.ServerEvent.RegisterPointer: requires an object that no handle has managed, the condition under which Handles.Handle.Of is sound; every call that is reachable meets it (the timer class that registers a raw pointer on each start is used in a comment only).
- What happens to the registry after the event loop has ended.
- Copies that the vector of closed handles makes when it grows, handles inside the objects themselves, and destructors that call back into the registry.
- EventLoop.Server.HandleEpollEvent: what a handler does is any list of handle and registry actions, which handles it picks is free, empty ones included, and the descriptor it unregisters is a parameter; the insides of client and CGI contexts are not part of this model.
- `event_mod`, `get_event_context`, epoll itself, sockets and logging.
- minishell, cub3d, libft, ft_printf, pipex, the Piscine exercises, and webserv's configuration, requests, responses and sessions.
