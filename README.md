# Verified model of the Udacity "Design of Computer Programs" exercises

This project is a Dafny model of a collection of small Python teaching programs. They cover:

- **state-space search**: breadth-first `shortest_path_search`, uniform-cost
  `lowest_cost_search`, and the bridge-crossing searches, instantiated on the water-pouring,
  missionaries-and-cannibals and bridge puzzles;
- **string matching**: a recursive regular-expression matcher, the `matchset` pattern
  interpreter and its compiled twin, the longest sub-palindrome, anagram search,
  portmanteau words and cryptarithmetic compilation;
- **game rules**: poker hand ranking, Pig, and foxes and hens;
- **constraint puzzles**: the floor, logic and zebra puzzles, the integer generators, and a few
  small functions from the language notes (`generate_primes`, `evens`, `range_2d`, …).

Each source file is one Dafny module. Where the source loops or mutates, the model does too:

- the search engines, `add_to_frontier`, `allmax`, `kind`, `grow`, `removed`, `compute_ends`,
  `play_pig`, `foxes_and_hens`, `ints`, `all_ints`, `evens`, `range_2d` and `generate_primes` are
  methods with loop invariants;
- `swap` and `list_changer` work on arrays;
- the frontier list of the uniform-cost search is a class whose methods reassign its `paths`
  field.

The pure helpers are functions; their properties are lemmas.

Shared conventions:

- **Paths.** A path is the source's alternating list `[state, action, state, …]`, written
  `seq<Elem<S, A>>` with `Elem = St(state) | Act(action)`.
- **Dicts.** A dict that a successor function returns is its list of items in insertion order.
  `DictFromPairs` gives Python's semantics for a dict literal or comprehension with a repeated
  key: the key keeps the position of its first insertion and the value of its last.
- **Sets.** A frozenset is iterated in an order the caller passes in.
- **Termination.** Searches over an unbounded space take a ghost `universe` closed under
  successors, or a `fuel` bound.
- **Calls into other code.** Random choices, die rolls and drawn cards are parameters. Python's
  `eval` is a parameter too.

## Model

| member | source | states |
|---|---|---|
| Common.DictFromPairsSpec | Python/udacity_4_water_pouring.py:34-40 | a dict built from key/value pairs has distinct keys, holds each key once, in order of first insertion, with the last value given for it |
| Common.DictFromDistinctPairs | Python/udacity_4_missionaries_and_cannibals.py:35-39 | pairs whose keys are already distinct build exactly that dict |
| Common.CountMultiset | Python/udacity_1_poker.py:139-145 | `s.count(x)` is the multiplicity of x in s |
| Common.FirstMaxIndexSpec | Python/udacity_7_6_portmanteau.py:96 | `max(xs, key=…)` returns an element of maximal key, the first one among equals |
| Common.ReplaceOnceFirst | Python/udacity_6_anagrams.py:52-58 | `letters.replace(c, '', 1)` deletes exactly the first occurrence of c |
| Common.ReplaceOnceAbsent | Python/udacity_6_anagrams.py:52-58 | replacing an absent letter leaves the string as it was |
| Common.ReplaceOnceMultiset | Python/udacity_6_anagrams.py:52-58 | replacing once removes one copy of c from the multiset of letters, and nothing else |
| Paths.EvenSlice | Python/udacity_4_bridge_successors.py:59-61 | `path[0::2]` has ceil(n/2) elements, the i-th being `path[2i]` |
| Paths.OddSlice | Python/udacity_4_bridge_successors.py:63-65 | `path[1::2]` has floor(n/2) elements, the i-th being `path[2i+1]` |
| Paths.SlicesOfPath | Python/udacity_4_bridge_successors.py:59-65 | on a well-formed path the states are exactly the even slice, the actions exactly the odd slice, and there is one state more than actions |
| Paths.Extend | Python/udacity_4_shortest_path_search.py:20 | `path + [action, state]` with (state, action) a successor of the last state is again a valid path from start, one step longer |
| Paths.Prefix | Python/udacity_4_shortest_path_search.py:16-20 | dropping the last action and state of a valid path leaves a valid path whose last state has that step as a successor |
| ShortestPath.NoShortGoal | Python/udacity_4_shortest_path_search.py:15-24 | while the FIFO frontier is at level d, no goal path from start has fewer than d actions |
| ShortestPath.NoGoal | Python/udacity_4_shortest_path_search.py:25 | once every explored state is expanded with no goal among them, no valid path from start reaches a goal |
| ShortestPath.SearchPop | Python/udacity_4_shortest_path_search.py:16 | `frontier.pop(0)` keeps the search invariant: frontier paths are valid, ordered by length, within one level, and each state was explored once |
| ShortestPath.SearchAdd | Python/udacity_4_shortest_path_search.py:18-24 | marking a new state explored when generated and appending its path keeps the invariant |
| ShortestPath.SearchFinish | Python/udacity_4_shortest_path_search.py:17-24 | after a popped path's successors are all generated, its last state counts as expanded |
| ShortestPath.Expand | Python/udacity_4_shortest_path_search.py:17-24 | the loop over `successors(path[-1]).items()` adds each unexplored successor to `explored` and to the frontier once, and returns the first generated goal path at once |
| ShortestPath.ShortestPathSearch | Python/udacity_4_shortest_path_search.py:6-25 | `[start]` when start is a goal; otherwise a valid alternating path from start ending in a goal with the fewest actions of all goal paths, or `[]` only when no goal is reachable |
| Missionaries.LoadsSpec | Python/udacity_4_missionaries_and_cannibals.py:37-38 | the boat loads (m, c) tried are exactly those carrying one or two people |
| Missionaries.MovesAreCrossings | Python/udacity_4_missionaries_and_cannibals.py:34-45 | every entry of the comprehension is a load applied in the boat's direction that takes nobody below zero |
| Missionaries.ValidMoveEffect | Python/udacity_4_missionaries_and_cannibals.py:34-45 | every move carries 1 or 2 people, flips both boat bits, and keeps the missionary and cannibal totals |
| Missionaries.CrossingsDistinct | Python/udacity_4_missionaries_and_cannibals.py:35-45 | different loads reach different states, so the comprehension's keys never collide |
| Missionaries.CrossingsComplete | Python/udacity_4_missionaries_and_cannibals.py:37-38 | every load that fits the bank the boat is on yields a move |
| Missionaries.SuccessorsEmptyIff | Python/udacity_4_missionaries_and_cannibals.py:32-33 | for non-negative counts with somebody beside the boat, the result is `{}` exactly when cannibals outnumber missionaries on a bank; the shortest-path file's version exactly when they outnumber a non-zero number of missionaries |
| Missionaries.SuccessorsTest1 | Python/udacity_4_missionaries_and_cannibals.py:48-52 | `csuccessors((2,2,1,0,0,0))` is the dict of the first test |
| Missionaries.SuccessorsTest2 | Python/udacity_4_missionaries_and_cannibals.py:53-57 | `csuccessors((1,1,0,4,3,1))` is the dict of the second test |
| Missionaries.SuccessorsTest3 | Python/udacity_4_missionaries_and_cannibals.py:58 | `csuccessors((1,4,1,2,2,0))` is `{}`, in both files' versions |
| Missionaries.AllLoadsCross | Python/udacity_4_missionaries_and_cannibals.py:34-39 | with the boat on the start side, no dining and at least two of each there, all five loads cross, in comprehension order |
| Missionaries.AllLoadsCrossBack | Python/udacity_4_missionaries_and_cannibals.py:40-45 | the same going back from the other side |
| Missionaries.DefaultGoal | Python/udacity_4_missionaries_and_cannibals.py:8-9 | the default goal is `(0, 0, 0) + start[:3]` |
| Missionaries.BoxClosed | Python/udacity_4_missionaries_and_cannibals.py:28-45 | the states with the start's totals and boat bits form a finite set closed under both `csuccessors` |
| Missionaries.McProblem | Python/udacity_4_missionaries_and_cannibals.py:1-26 | `[start]` when start is the goal; otherwise a shortest valid path to the goal; the empty dict `{}` only when the goal is unreachable |
| Missionaries.McProblem2 | Python/udacity_4_shortest_path_search.py:32-38 | with no goal given, a shortest path (under the shortest-path file's `csuccessors`) to a state with nobody and no boat on the start side, or `[]` when none is reachable |
| Missionaries.CrossingInjective | Python/udacity_4_missionaries_and_cannibals.py:34-45 | two loads that lead from the same state to the same state and action are the same load |
| Missionaries.MovesInOrder | Python/udacity_4_missionaries_and_cannibals.py:34-45 | the dict lists the crossings in the order of the loads tried |
| Missionaries.CrossingsOfLoads | Python/udacity_4_missionaries_and_cannibals.py:37-45 | with at least two of each on the boat's side, every load crosses: C, CC, M, MC, MM in that order |
| Missionaries.FirstTestList | Python/udacity_4_missionaries_and_cannibals.py:48-52 | from (2, 2, 1, 0, 0, 0) the dict lists C->, CC->, M->, MC->, MM-> with their states |
| Missionaries.SecondTestList | Python/udacity_4_missionaries_and_cannibals.py:53-57 | from (1, 1, 0, 4, 3, 1) the dict lists <-C, <-CC, <-M, <-MC, <-MM with their states |
| Missionaries.BoundedInBox | Python/udacity_4_missionaries_and_cannibals.py:28-45 | every state within the start's totals, with one boat, lies in the finite box of states searched |
| Missionaries.MovesStayInBox | Python/udacity_4_missionaries_and_cannibals.py:28-45 | a move from a state of the box leads to a state of the box |
| WaterPouring.MovesEffect | Python/udacity_4_water_pouring.py:35-40 | X→Y moves min(x, Y−y), X←Y moves min(y, X−x), both keep x+y; fill and empty set one glass to its capacity or 0 and leave the other |
| WaterPouring.SuccessorsInRange | Python/udacity_4_water_pouring.py:33-40 | from levels within the capacities, every successor stays within `[0,X]×[0,Y]` |
| WaterPouring.SuccessorsLastWins | Python/udacity_4_water_pouring.py:34-40 | each reachable state is listed once with the action of the last move that reaches it, and every move's state is listed |
| WaterPouring.SuccessorsFromEmpty | Python/udacity_4_water_pouring.py:34-40 | from (0, 0) with glasses 4 and 9 the dict is `{(0,0): "empty Y", (4,0): "fill X", (0,9): "fill Y"}` |
| WaterPouring.PourProblem | Python/udacity_4_water_pouring.py:2-24 | `[start]` when the goal is in a glass; otherwise a shortest valid sequence of pours ending with the goal in a glass, or `Fail == []` only when no such state is reachable |
| Sorting.InsertBySpec | Python/udacity_4_lower_cost_search.py:57-58 | inserting after every element of no greater key adds exactly that element and keeps a sorted list sorted |
| Sorting.SortBySpec | Python/udacity_4_lower_cost_search.py:58 | `list.sort(key=…)` returns a permutation of the list, sorted by the key |
| Sorting.SortSorted | Python/udacity_4_lower_cost_search.py:58 | sorting an already sorted list changes nothing (the sort is stable) |
| Sorting.SortAppend | Python/udacity_4_lower_cost_search.py:57-58 | appending to a sorted list and re-sorting puts the new element after every element of no greater key |
| Sorting.InsertLast | Python/udacity_4_lower_cost_search.py:57-58 | a path costing no less than every path in the list goes at the end |
| CostPaths.PathCostIsLastTotal | Python/udacity_4_lower_cost_search.py:31-39 | `path_cost` is the total stored with the last action, 0 for the one-state path |
| CostPaths.TotalIsSum | Python/udacity_4_lower_cost_search.py:23-27 | on a valid cost path each stored total is the sum of the action costs up to it, so `path_cost` is the sum of all action costs |
| CostPaths.TotalMonotone | Python/udacity_4_lower_cost_search.py:26 | with non-negative action costs the stored totals never decrease along a path |
| CostPaths.CostExtend | Python/udacity_4_lower_cost_search.py:26-27 | `path + [(action, pcost + action_cost(action)), state]` is a valid cost path whose cost grows by the action's cost |
| CostPaths.CostPrefix | Python/udacity_4_lower_cost_search.py:23-27 | every prefix of a valid cost path is a valid cost path whose cost is the total stored at its end |
| Frontiers.FirstEnd | Python/udacity_4_lower_cost_search.py:47-51 | the `enumerate` loop finds the first frontier position whose path ends in the state, or none |
| Frontiers.Remove | Python/udacity_4_lower_cost_search.py:55 | `del frontier[old]` removes exactly that position |
| Frontiers.AddedSpec | Python/udacity_4_lower_cost_search.py:41-58 | from a sorted frontier with one path per end state, `add_to_frontier` keeps it sorted with one path per end state; a strictly cheaper old path leaves the frontier unchanged, otherwise (equal cost included) the new path replaces it; paths to other states stay |
| Frontiers.AddedUnsortedSpec | Python/udacity_4_bridge_successors.py:123-137 | the bridge file's `add_to_frontier` makes the same replacement and keeps one path per end state, but appends the new path last without sorting |
| Frontiers.AddedReaches | Python/udacity_4_lower_cost_search.py:52-57 | after `add_to_frontier`, every state some frontier path reached at cost c is still reached at cost c or less, and the new path's end at its cost |
| Frontiers.Frontier.constructor | Python/udacity_4_lower_cost_search.py:16 | the frontier starts as `[[start]]` |
| Frontiers.Frontier.Pop | Python/udacity_4_lower_cost_search.py:18 | `frontier.pop(0)` returns the first path and leaves the rest |
| Frontiers.Frontier.FindOld | Python/udacity_4_lower_cost_search.py:47-51 | the loop's `old` is the first index whose path ends in the new path's state, or None when no path does |
| Frontiers.Frontier.AddToFrontier | Python/udacity_4_lower_cost_search.py:41-58 | updates the frontier in place to the sorted replacement that `AddedSpec` describes |
| Frontiers.Frontier.AddToFrontierUnsorted | Python/udacity_4_bridge_successors.py:123-137 | updates the frontier in place to the unsorted replacement that `AddedUnsortedSpec` describes |
| Frontiers.RemoveDrops | Python/udacity_4_lower_cost_search.py:55 | with one path per end state, deleting position i removes the only path to its end state |
| Frontiers.RemoveKeeps | Python/udacity_4_lower_cost_search.py:55 | `del frontier[i]` keeps every other path |
| Frontiers.RemoveSorted | Python/udacity_4_lower_cost_search.py:55 | deleting one path keeps the frontier sorted by cost with one path per end state |
| Frontiers.InsertDistinct | Python/udacity_4_lower_cost_search.py:57-58 | inserting a path to a new end state keeps one path per end state |
| Frontiers.OnlyFirstEnd | Python/udacity_4_lower_cost_search.py:47-51 | with one path per end state, the path `enumerate` finds for a state is the only one ending there |
| Frontiers.FindOldIsFirstEnd | Python/udacity_4_lower_cost_search.py:47-51 | the index the loop finds, or its absence, is the first frontier position ending in the state |
| CostSearch.GoalPop | Python/udacity_4_lower_cost_search.py:18-21 | with a sorted frontier, the popped path costs no more than any goal path, so a popped goal is a cheapest one |
| CostSearch.SearchPop | Python/udacity_4_lower_cost_search.py:18-19 | the popped path is a valid cost path from start that ends in a known state |
| CostSearch.SearchExplore | Python/udacity_4_lower_cost_search.py:22 | marking the popped non-goal state explored keeps the search invariant, recording its cost as optimal when the frontier is sorted |
| CostSearch.NoGoalLeft | Python/udacity_4_lower_cost_search.py:29 | when the frontier empties, no valid cost path from start reaches a goal |
| CostSearch.Expand | Python/udacity_4_lower_cost_search.py:24-28 | the loop over the successors sends each unexplored successor's extended path through `add_to_frontier` and keeps the invariant |
| CostSearch.CostSearchLoop | Python/udacity_4_bridge_successors.py:108-119 | the loop shared by both searches: a path it returns is a valid cost path to a goal, cheapest when the frontier is re-sorted; `[]` only when no goal is reachable |
| CostSearch.LowestCostSearch | Python/udacity_4_lower_cost_search.py:5-29 | `[start]` when start is a goal; otherwise a valid cost path to a goal, of least total cost among all goal paths, or `Fail == []` only when no goal is reachable |
| ElapsedSearch.ElapsedTime | Python/udacity_4_bridge_successors.py:28-29 | `elapsed_time(path)` is the time recorded in the path's last state |
| ElapsedSearch.TimeGrows | Python/udacity_4_bridge_successors.py:45 | when no step goes back in time, no state along a path is later than its last one |
| ElapsedSearch.PopIsQuickest | Python/udacity_4_bridge_successors.py:12-17 | with the frontier re-sorted by elapsed time, the popped path is no slower than any goal path |
| ElapsedSearch.NoGoalLeft | Python/udacity_4_bridge_successors.py:26 | an empty frontier means no goal is reachable |
| ElapsedSearch.ElapsedTimeSearch | Python/udacity_4_bridge_successors.py:7-26 | the loop of `bridge_problem` (goal tested on pop, states explored when generated, frontier re-sorted after each append) returns a goal path no slower than any other, or `Fail` only when no goal is reachable |
| BridgeMoves.ListedMember | Python/udacity_4_lower_cost_search.py:81-82 | a set is enumerated as exactly its members |
| BridgeMoves.ListedDistinct | Python/udacity_4_lower_cost_search.py:81-82 | a set's enumeration repeats no member |
| BridgeMoves.TripsMembers | Python/udacity_4_lower_cost_search.py:77-82 | the nested comprehension produces f(a, b) for each a and b of the enumeration and nothing else |
| BridgeMoves.RecordedPair | Python/udacity_4_lower_cost_search.py:77-82 | when only the pairs (a, b) and (b, a) reach the same state, the dict records the crossing of the later of the two |
| Bridge.AllOver | Python/udacity_4_lower_cost_search.py:91-93 | `all_over` holds exactly when no person is left on the near side, with or without the light |
| Bridge.Bcost | Python/udacity_4_lower_cost_search.py:95-99 | a crossing takes as long as its slower walker: the larger of a and b |
| Bridge.Bsuccessors2Sound | Python/udacity_4_lower_cost_search.py:71-89 | every entry of `bsuccessors2` moves one or two people standing with the light, and the light, to the other side |
| Bridge.Bsuccessors2Complete | Python/udacity_4_lower_cost_search.py:71-89 | every pair of people with the light leads to a state of the dict |
| Bridge.Bsuccessors2Records | Python/udacity_4_lower_cost_search.py:71-89 | the crossing of the i-th and j-th waiting people, with j ≤ i, is the one the dict records for the state it reaches |
| Bridge.Cross2Moves | Python/udacity_4_lower_cost_search.py:78-86 | a crossing moves exactly the walkers and the light to the other side, leaves everyone else where they were, and keeps the two sides disjoint |
| Bridge.Banks2Closed | Python/udacity_4_lower_cost_search.py:71-89 | crossings keep every traveller among the puzzle's travellers, so the search space is finite |
| Bridge.BridgeProblem3 | Python/udacity_4_lower_cost_search.py:63-69 | `bridge_problem3(here)` returns a fastest way to get everybody over (each total the running sum of crossing times), or `[]` only when there is none |
| Bridge.ExpectedPathValid | Python/udacity_4_lower_cost_search.py:101-115 | the path the test expects is a valid path of the search, gets everybody over, and costs 17 |
| Bridge.BridgeProblem3Example | Python/udacity_4_lower_cost_search.py:101-115 | for people 1, 2, 5 and 10 the search gets everybody over at a cost of exactly 17, and the path it returns is the expected one or the only other way across at that cost |
| Bridge.BridgeProblem2 | Python/udacity_4_bridge_successors.py:99-119 | `bridge_problem2` (no re-sort) returns a valid cost path ending with nobody on the near side, or `Fail` only when none exists |
| Bridge.EmptyHere | Python/udacity_4_bridge_successors.py:111 | `not here_last` holds exactly when nothing is left on the near side |
| Bridge.SameTimesMerge | Python/udacity_4_bridge_successors.py:89-90 | people are known by their times alone, so two people who take as long are one traveller |
| Bridge.TimesEmpty | Python/udacity_4_lower_cost_search.py:91-93 | a side holds no time exactly when it holds nobody but perhaps the light |
| Bridge.TimesAll | Python/udacity_4_lower_cost_search.py:91-93 | the times of a side are exactly its people |
| Bridge.Bsuccessors2Entries | Python/udacity_4_lower_cost_search.py:71-89 | the dict entries are crossings of two people on the light's side, and every such crossing by two listed people is a key |
| Bridge.Cross2Keys | Python/udacity_4_lower_cost_search.py:78-86 | two crossings from the same state reach the same state exactly when they move the same pair, in either order |
| Bridge.StartInBanks | Python/udacity_4_lower_cost_search.py:66 | the start state lies in the finite set of states searched |
| Bridge.NeedStep | Python/udacity_4_lower_cost_search.py:95-99 | in the table of the time still needed, no crossing costs less than the drop it makes |
| Bridge.NeedTight | Python/udacity_4_lower_cost_search.py:95-99 | from each state, the crossings that lose no time against the table are exactly the ones listed; with nobody left, none is |
| Bridge.RemainingFlip | Python/udacity_4_lower_cost_search.py:78-86 | after a crossing of two people with the light, the time still needed is the table entry for the flipped sides |
| Bridge.RemainingStep | Python/udacity_4_lower_cost_search.py:71-99 | a crossing keeps the travellers split, and costs no less than the drop in the time still needed |
| Bridge.TightCrossings | Python/udacity_4_lower_cost_search.py:71-99 | a crossing that loses no time moves one of the listed pairs for its state |
| Bridge.StartFour | Python/udacity_4_lower_cost_search.py:102-104 | from the start with 1, 2, 5 and 10 on the near side, 17 is still needed |
| Bridge.RemainingAlong | Python/udacity_4_lower_cost_search.py:63-69 | along any path of the search, the total so far plus the time still needed is at least 17 |
| Bridge.AtLeast17 | Python/udacity_4_lower_cost_search.py:101-115 | no way to get 1, 2, 5 and 10 over costs less than 17, whatever the enumeration order |
| Bridge.EntryStep | Python/udacity_4_lower_cost_search.py:71-99 | a crossing from the dict keeps the travellers split and costs no less than the drop in the time still needed |
| Bridge.OtherPathValid | Python/udacity_4_bridge_successors.py:74 | the actions of S1 also make a valid cost path that gets everybody over at a cost of 17 |
| Bridge.OneEntryPerState | Python/udacity_4_lower_cost_search.py:71-89 | the dict holds at most one entry per state reached |
| Bridge.SamePairEntry | Python/udacity_4_lower_cost_search.py:78-86 | the dict entry for a pair is the same whichever order the pair is written in |
| Bridge.TightMovers | Python/udacity_4_lower_cost_search.py:71-89 | a dict entry that loses no time is a tight crossing of two people standing with the light |
| Bridge.TightFromStart | Python/udacity_4_lower_cost_search.py:104-105 | from the start, the one entry that loses no time sends 1 and 2 over |
| Bridge.TightFromFirst | Python/udacity_4_lower_cost_search.py:106-107 | with 5 and 10 left behind, the entries that lose no time bring back 1 alone or 2 alone |
| Bridge.TightFromOne | Python/udacity_4_lower_cost_search.py:108-109 | after 1 came back, the one entry that loses no time sends 5 and 10 over |
| Bridge.TightFromTwo | Python/udacity_4_lower_cost_search.py:108-109 | after 2 came back, the one entry that loses no time sends 5 and 10 over |
| Bridge.TightFromOneLeft | Python/udacity_4_lower_cost_search.py:110-111 | with 1 alone on the near side, the one entry that loses no time brings back 2 |
| Bridge.TightFromTwoLeft | Python/udacity_4_lower_cost_search.py:110-111 | with 2 alone on the near side, the one entry that loses no time brings back 1 |
| Bridge.TightFromLast | Python/udacity_4_lower_cost_search.py:112-113 | with 1 and 2 on the near side again, the one entry that loses no time sends them over |
| Bridge.NoLaterSooner | Python/udacity_4_lower_cost_search.py:63-69 | along a path, the total so far plus the time still needed never falls back |
| Bridge.TightAt | Python/udacity_4_lower_cost_search.py:101-115 | on a way across at a cost of 17, every crossing loses no time, and each stored total is the previous one plus the crossing cost |
| Bridge.FollowEnd | Python/udacity_4_lower_cost_search.py:113-114 | a way across at a cost of 17 that has reached the far side stops there |
| Bridge.QuickestPaths | Python/udacity_4_lower_cost_search.py:101-115 | the expected path and S1 are the only ways to get 1, 2, 5 and 10 over at a cost of 17 |
| Bridge.BridgeProblem2Example | Python/udacity_4_bridge_successors.py:185-187 | `bridge_problem2([1, 2, 5, 10])` returns a valid path that gets everybody over, costing at least 17 |
| Bridge3.Bcost2 | Python/udacity_4_lower_cost_search.py:153-156 | the cost of a move is the largest time among its walkers |
| Bridge3.Bsuccessors3Entries | Python/udacity_4_lower_cost_search.py:130-147 | every entry of `bsuccessors3` moves people standing with the light and flips the light; every such pair is an entry, so the dict does not depend on the enumeration order |
| Bridge3.Cross3Moves | Python/udacity_4_lower_cost_search.py:137-147 | a crossing keeps the sides disjoint with the same people overall, flips the light, moves exactly the walkers, and costs the larger of their times |
| Bridge3.EncodingsAgree | Python/udacity_4_lower_cost_search.py:129-147 | the (here, there, light) encoding agrees with the light-as-traveller one: the same people wait, a crossing lands on the same state, and it costs the same |
| Bridge3.BridgeProblem4 | Python/udacity_4_lower_cost_search.py:122-127 | `bridge_problem4(here)` returns a fastest way to get everybody over in the second encoding, or `[]` only when there is none |
| Bridge3.Bsuccessors3Sound | Python/udacity_4_lower_cost_search.py:130-147 | every entry of `bsuccessors3` is a crossing of two people from the light's side |
| Bridge3.Bsuccessors3Records | Python/udacity_4_lower_cost_search.py:130-147 | every crossing of two listed people from the light's side is an entry |
| Bridge3.Cross3Keys | Python/udacity_4_lower_cost_search.py:137-147 | two crossings from the same state reach the same state exactly when they move the same pair, in either order |
| Bridge3.PairDetermined | Python/udacity_4_lower_cost_search.py:137-147 | removing {a, b} or {c, q} from a side leaves the same people exactly when the pairs are the same |
| Bridge3.Banks3Closed | Python/udacity_4_lower_cost_search.py:130-147 | crossings keep every state within the finite set of (here, there, light) triples over the puzzle's people |
| BridgeTimed.BsuccessorsSound | Python/udacity_4_bridge_successors.py:32-56 | every entry of `bsuccessors` moves one or two people with the light across |
| BridgeTimed.TimedAgrees | Python/udacity_4_bridge_successors.py:40-56 | `bsuccessors` crosses like `bsuccessors2` and adds `max(a, b)` to the elapsed time |
| BridgeTimed.ClockAdvances | Python/udacity_4_bridge_successors.py:45 | no crossing goes back in time |
| BridgeTimed.ClockIsSum | Python/udacity_4_bridge_successors.py:28-56 | along a path from the start, the elapsed time in a state is the sum of the crossing times so far |
| BridgeTimed.BridgeProblem | Python/udacity_4_bridge_successors.py:1-26 | `bridge_problem(here)` returns a path that gets everybody over no slower than any other way across, or `Fail` only when there is none |
| BridgeTimed.TimedExpectedPathValid | Python/udacity_4_bridge_successors.py:70-77 | the doctest's second solution S2 is a valid path of the search that gets everybody over in 17 |
| BridgeTimed.BridgeProblemExample | Python/udacity_4_bridge_successors.py:70-77 | for people 1, 2, 5 and 10 an answer gets everybody over in exactly 17, and its actions are S1 or S2 |
| BridgeTimed.SoundEntry | Python/udacity_4_bridge_successors.py:32-56 | each dict entry is a crossing of two people on the light's side |
| BridgeTimed.BsuccessorsRecords | Python/udacity_4_bridge_successors.py:40-56 | the crossing of the i-th and j-th waiting people, j ≤ i, is recorded |
| BridgeTimed.ClockStep | Python/udacity_4_bridge_successors.py:45 | every successor's clock is the current clock plus the crossing's time |
| BridgeTimed.TimedRemainingStep | Python/udacity_4_bridge_successors.py:32-56 | a crossing keeps the travellers split, and the clock moves on by no less than the drop in the time still needed |
| BridgeTimed.TimedRemainingAlong | Python/udacity_4_bridge_successors.py:70-71 | along any path of the timed search, the elapsed time plus the time still needed is at least 17 |
| BridgeTimed.TimedAtLeast17 | Python/udacity_4_bridge_successors.py:70-71 | no way to get 1, 2, 5 and 10 over takes less than 17 on the clock |
| BridgeTimed.TimedOtherPathValid | Python/udacity_4_bridge_successors.py:74 | the actions of S1 make a valid path of the timed search that gets everybody over in 17 |
| BridgeTimed.OneEntryPerState | Python/udacity_4_bridge_successors.py:32-56 | the dict holds at most one entry per state reached |
| BridgeTimed.TightFromStart | Python/udacity_4_bridge_successors.py:74-75 | from the start, the one entry that loses no time sends 1 and 2 over |
| BridgeTimed.TightFromFirst | Python/udacity_4_bridge_successors.py:74-75 | with 5 and 10 left behind, the entries that lose no time bring back 1 alone or 2 alone |
| BridgeTimed.TightFromOne | Python/udacity_4_bridge_successors.py:74 | after 1 came back, the one entry that loses no time sends 5 and 10 over |
| BridgeTimed.TightFromTwo | Python/udacity_4_bridge_successors.py:75 | after 2 came back, the one entry that loses no time sends 5 and 10 over |
| BridgeTimed.TightFromOneLeft | Python/udacity_4_bridge_successors.py:74 | with 1 alone on the near side, the one entry that loses no time brings back 2 |
| BridgeTimed.TightFromTwoLeft | Python/udacity_4_bridge_successors.py:75 | with 2 alone on the near side, the one entry that loses no time brings back 1 |
| BridgeTimed.TightFromLast | Python/udacity_4_bridge_successors.py:74-75 | with 1 and 2 on the near side again, the one entry that loses no time sends them over |
| BridgeTimed.NoLaterSooner | Python/udacity_4_bridge_successors.py:70-71 | along a path, the elapsed time plus the time still needed never falls back |
| BridgeTimed.TightAt | Python/udacity_4_bridge_successors.py:70-71 | on a way across in 17, every crossing loses no time |
| BridgeTimed.FollowEnd | Python/udacity_4_bridge_successors.py:74-75 | a way across in 17 that has reached the far side stops there |
| BridgeTimed.QuickestPaths | Python/udacity_4_bridge_successors.py:74-77 | S1 and S2 are the only ways to get 1, 2, 5 and 10 over in 17 |
| BridgeTimed.SolutionActions | Python/udacity_4_bridge_successors.py:74-75 | the actions of the two paths are exactly the lists S1 and S2 |
| Poker.IndexOf | Python/udacity_1_poker.py:122 | `"--23456789TJQKA".index(r)` is the first position of r in the rank string |
| Poker.IsRankIn | Python/udacity_1_poker.py:122 | a rank character is valid exactly when it occurs in the rank string (`index` raises otherwise) |
| Poker.Ranks | Python/udacity_1_poker.py:122 | one rank per card, in card order |
| Poker.SortDescSorted | Python/udacity_1_poker.py:123 | `sort(reverse=True)` yields a list in descending order |
| Poker.InsertDescSorted | Python/udacity_1_poker.py:123 | inserting into a descending list keeps it descending |
| Poker.AceLowSorted | Python/udacity_1_poker.py:123-124 | the only descending list of the ranks A, 5, 4, 3, 2 is [14, 5, 4, 3, 2] |
| Poker.DescUnique | Python/udacity_1_poker.py:123 | two descending lists with the same elements are equal, so the sorted ranks are determined by the ranks |
| Poker.CardRanks | Python/udacity_1_poker.py:120-124 | `card_ranks` is the ranks in descending order, except that A5432 becomes `[5, 4, 3, 2, 1]` |
| Poker.SortedRanks | Python/udacity_1_poker.py:123-124 | the sorted ranks are `[14, 5, 4, 3, 2]` exactly when the ranks are those five, in any order |
| Poker.SeqMax | Python/udacity_1_poker.py:131 | `max(ranks)` is a rank no smaller than any other |
| Poker.SeqMin | Python/udacity_1_poker.py:131 | `min(ranks)` is a rank no larger than any other |
| Poker.StraightRun | Python/udacity_1_poker.py:129-131 | on five descending ranks, `straight` holds exactly when each rank is one below the one before |
| Poker.Suits | Python/udacity_1_poker.py:136 | the set of suits holds exactly the suits of the hand's cards |
| Poker.FlushSameSuit | Python/udacity_1_poker.py:134-136 | `flush` holds exactly when the hand is non-empty and every card has the first card's suit |
| Poker.FirstKindSpec | Python/udacity_1_poker.py:139-145 | `kind(n, ranks)` is the rank at the first position whose rank occurs exactly n times; None exactly when no rank occurs n times |
| Poker.Kind | Python/udacity_1_poker.py:139-145 | the scan loop of `kind` returns what `FirstKindSpec` describes |
| Poker.KindHighest | Python/udacity_1_poker.py:139-145 | on descending ranks, `kind` finds the highest rank occurring n times |
| Poker.TwoPairSpec | Python/udacity_1_poker.py:148-156 | on descending ranks, `two_pair` answers exactly when two different ranks each occur twice, and then returns (high, low) with high > low, the highest and lowest such ranks |
| Poker.KindLowest | Python/udacity_1_poker.py:152 | scanning the reversed descending ranks, `kind` finds the lowest rank occurring exactly n times |
| Poker.TwoPairBounds | Python/udacity_1_poker.py:148-156 | the two ranks `two_pair` compares each occur exactly twice |
| Poker.Group | Python/udacity_1_poker.py:184-187 | `group` lists each distinct rank once as (count, rank), sorted by count and then rank, both descending |
| Poker.GroupAnyOrder | Python/udacity_1_poker.py:186-187 | whatever order `set(items)` iterates in, `group` gives the same list |
| Poker.GroupOfMultiset | Python/udacity_1_poker.py:184-187 | `group` depends only on the ranks, not on their order |
| Poker.Tally | Python/udacity_1_poker.py:186 | the list of (count, rank) pairs gives each rank its number of occurrences |
| Poker.GroupFacts | Python/udacity_1_poker.py:184-187 | `group` lists each rank of the hand once with its count, in descending (count, rank) order |
| Poker.Counts | Python/udacity_1_poker.py:166 | the counts of `unzip(groups)` in group order |
| Poker.GroupRanks | Python/udacity_1_poker.py:166 | the ranks of `unzip(groups)` in group order |
| Poker.Category | Python/udacity_1_poker.py:171-181 | the category of `hand_rank` #2 is one of 0..9 |
| Poker.HandShape | Python/udacity_1_poker.py:165-168 | `unzip(groups)` gives as many counts as ranks, and at least one rank |
| Poker.HandRankOrderFree | Python/udacity_1_poker.py:163-181 | a hand's value does not depend on the order of its cards |
| Poker.HandRank3Relabels | Python/udacity_1_poker.py:195-212 | where `hand_rank` #3 answers (its `count_rankings` lookup succeeds), it gives the same ranks and #2's category relabelled: five of a kind 10, straight flush 9, the rest alike |
| Poker.RankingsAgree | Python/udacity_1_poker.py:163-212 | hands that #3 can rank compare the same way under #2 and #3 |
| Poker.PromoteKeepsOrder | Python/udacity_1_poker.py:195-212 | moving the categories to the ten-category scale keeps the order between any two hands |
| Poker.SeqLessTransitive | Python/udacity_1_poker.py:28-30 | Python's comparison of rank lists is transitive |
| Poker.SeqLessTotal | Python/udacity_1_poker.py:28-30 | of two different rank lists, one is less than the other |
| Poker.HandLessTotal | Python/udacity_1_poker.py:171-181 | Python's tuple comparison of hand values is a strict total order |
| Poker.KeepKey | Python/udacity_1_poker.py:41-44 | the items kept for a key value m are exactly the items whose key is m, in input order |
| Poker.MaxKeySpec | Python/udacity_1_poker.py:39-42 | the maximum the scan keeps is the key of some item, and no item has a larger key |
| Poker.AllMax | Python/udacity_1_poker.py:35-45 | `allmax` returns every item whose key equals the maximum, in input order; at least one item when the input has any; `[]` for no items |
| Poker.Poker | Python/udacity_1_poker.py:28-30 | `poker` returns the hands of the highest value, in input order, and no others |
| Poker.CardsOf | Python/udacity_1_poker.py:54-55 | `[r+s for r in ranks for s in suits]` holds each rank/suit combination |
| Poker.Replacements | Python/udacity_1_poker.py:63-68 | "?B" can be any of the 26 black cards, "?R" any of the 26 red cards, any other card only itself |
| Poker.Swap | Python/udacity_1_poker.py:288-291 | `swap` exchanges `deck[i]` and `deck[j]` and changes nothing else, so the deck keeps its cards |
| Poker.Shuffled | Python/udacity_1_poker.py:282-286 | every run of Knuth's algorithm P, whatever the random picks, rearranges the deck's cards |
| Poker.Shuffle | Python/udacity_1_poker.py:282-286 | `shuffle` with the picks given turns the deck into that rearrangement of itself |
| PokerTests.CardRanksTests | Python/udacity_1_poker.py:239-241 | `card_ranks` of the straight flush, four of a kind and full house of the tests |
| PokerTests.KindTests | Python/udacity_1_poker.py:231-236 | `kind` of the four of a kind's ranks gives 9, None, None, 7 for n = 4, 3, 2, 1 |
| PokerTests.StraightTests | Python/udacity_1_poker.py:237-238 | `[9,8,7,6,5]` is a straight and `[9,8,8,6,5]` is not |
| PokerTests.HandRankTests | Python/udacity_1_poker.py:250-252 | `hand_rank` #2 gives (8, (10,9,8,7,6)), (7, (9,7)) and (6, (10,7)) |
| PokerTests.PokerTests | Python/udacity_1_poker.py:242-246 | the five `poker` assertions of the tests, the hundred-hand one included |
| RegexString.MatchStarRuns | Python/udacity_3_regex.py:55-60 | `match_star(p, pattern, text)` holds exactly when some run of characters matched by p, of any length, is followed by text that pattern matches |
| RegexString.SearchAnywhere | Python/udacity_3_regex.py:13-21 | a `^` pattern matches only at the start of the text; any other pattern matches when it matches at the start of some tail of the text, the empty tail included |
| RegexString.PlainMatch | Python/udacity_3_regex.py:24-52 | a pattern with no `*`, `?` or `$` matches exactly when the text starts with as many characters, each equal to the pattern's or matched by `.` |
| RegexString.PlainMatchEnd | Python/udacity_3_regex.py:29-31 | such a pattern followed by `$` matches only a text of exactly its length |
| RegexString.MatchOptional | Python/udacity_3_regex.py:40-48 | `c?` followed by a pattern either consumes one character matched by c and goes on, or skips c |
| RegexString.SearchStarExample | Python/udacity_3_regex.py:69 | `search("a*c", "abc")` holds |
| RegexString.SearchAnchoredExample | Python/udacity_3_regex.py:70 | `search("^a*", "abc")` holds |
| RegexString.SearchEndExample | Python/udacity_3_regex.py:71 | `search("c$", "abc")` holds |
| RegexString.SearchOptionalExample | Python/udacity_3_regex.py:72 | `search("abd?c", "abc")` holds |
| Matchsets.Matchset | Python/udacity_3_regex.py:118-138 | every remainder `matchset` returns is a suffix of the text |
| Matchsets.OptRemainders | Python/udacity_3_regex.py:158 | `opt(x)` leaves the text itself or whatever x leaves |
| Matchsets.StarLitFront | Python/udacity_3_regex.py:133-136 | `star(lit(s))` on a text that starts with a non-empty s leaves the text itself or what the star leaves after s |
| Matchsets.StarLitNone | Python/udacity_3_regex.py:133-136 | `star(lit(s))` on a text that does not start with s leaves only the text |
| Matchsets.StarCharRun | Python/udacity_3_regex.py:133-136 | `star` of a one-character literal leaves every tail of the text within its leading run of that character |
| Matchsets.LongestMatch | Python/udacity_3_regex.py:104-109 | `match` is None exactly when there is no remainder; otherwise it is the prefix whose rest is a remainder, as long as any remainder allows |
| Matchsets.LongestOf | Python/udacity_3_regex.py:107-109 | with r a shortest remainder, `match` is `text[:len(text) - len(r)]` |
| Matchsets.Compile | Python/udacity_3_regex.py:214-224 | every compiled matcher leaves only suffixes of its text |
| Matchsets.SeqC | Python/udacity_3_regex.py:215 | the compiled `seq` of two matchers that leave suffixes leaves suffixes |
| Matchsets.AltC | Python/udacity_3_regex.py:216 | the compiled `alt` of two such matchers leaves suffixes |
| Matchsets.DotC | Python/udacity_3_regex.py:217 | the compiled `dot` leaves a suffix |
| Matchsets.OneOfC | Python/udacity_3_regex.py:218 | the compiled `oneof` leaves a suffix |
| Matchsets.EolC | Python/udacity_3_regex.py:219 | the compiled `eol` leaves a suffix |
| Matchsets.StarC | Python/udacity_3_regex.py:220-222 | the compiled `star` of a matcher that leaves suffixes leaves suffixes |
| Matchsets.ShortestLen | Python/udacity_3_regex.py:107-109 | some remainder has the least length among all of them |
| Matchsets.TailsStep | Python/udacity_3_regex.py:133-136 | the tails of a leading run are the text itself and the tails of the rest of the run |
| Matchsets.CompileAgrees | Python/udacity_3_regex.py:214-222 | each compiled closure leaves exactly the remainders the interpreter's `matchset` gives for the same pattern |
| Matchsets.MatchesAgree | Python/udacity_3_regex.py:201-206 | the compiled `match` and the interpreted `match` agree on every pattern and text |
| Matchsets.LitMatch | Python/udacity_3_regex.py:214 | the compiled `lit(s)` matches s exactly when the text starts with s |
| Matchsets.OneOfMatch | Python/udacity_3_regex.py:218 | the compiled `oneof(chars)` matches the first character when it is one of chars, otherwise None |
| Matchsets.Interpret | Python/udacity_3_regex.py:104-136 | the interpreter seen as a matcher gives `matchset` on every text |
| Matchsets.Search | Python/udacity_3_regex.py:193-198 | `search` returns the match at the earliest start position below `len(text)` that has one, and None exactly when no such position has a match |
| Matchsets.NArySnoc | Python/udacity_3_regex.py:314-319 | `n_ary(f)` folds to the right: a new last argument is joined with the previous last one first |
| Matchsets.SeqAssoc | Python/udacity_3_regex.py:123-124 | how a sequence of patterns is grouped does not change what it matches |
| Matchsets.NArySeqSplit | Python/udacity_3_regex.py:321-325 | the n-ary `seq` of xs + ys matches as the sequence of the n-ary `seq` of xs and of ys |
| RegexTests.LitTest | Python/udacity_3_regex.py:164 | `matchset(lit("abc"), "abcdef") == {"def"}` |
| RegexTests.SeqTest | Python/udacity_3_regex.py:165-166 | the `seq` test leaves `{"nice to meet you"}` |
| RegexTests.AltTest | Python/udacity_3_regex.py:167-168 | the `alt` test leaves `{" and cat"}` |
| RegexTests.DotTest | Python/udacity_3_regex.py:169 | `dot` consumes one character |
| RegexTests.OneOfTest | Python/udacity_3_regex.py:170 | `oneof("a")` on "aabc123" leaves `{"abc123"}` |
| RegexTests.EolTests | Python/udacity_3_regex.py:171-172 | `eol` leaves `{""}` on the empty text and nothing on any other |
| RegexTests.StarTest | Python/udacity_3_regex.py:173 | `star(lit("hey"))` on "heyhey!" leaves `{"!", "heyhey!", "hey!"}` |
| RegexTests.CompiledStarTest | Python/udacity_3_regex.py:229 | the compiled `match(star(lit('a')), 'aaaaabbbaa')` is 'aaaaa' |
| RegexTests.CompiledLitTests | Python/udacity_3_regex.py:230-231 | the compiled `lit` tests give 'hello' and None |
| RegexTests.CompiledOneOfFound | Python/udacity_3_regex.py:232 | the compiled `oneof('xyz')` test gives 'x' |
| RegexTests.CompiledOneOfMissing | Python/udacity_3_regex.py:233 | the compiled `oneof('xyz')` on '   x is here!' gives None |
| Subpalindrome.Grown | Python/udacity_2_subpalindrome.py:18-22 | `grow` widens the slice by the same amount on both sides, stays inside the text, and stops only at an end of the text or at two outer characters that differ once upper-cased |
| Subpalindrome.Grow | Python/udacity_2_subpalindrome.py:18-22 | the loop returns the slice `Grown` describes |
| Subpalindrome.Slices | Python/udacity_2_subpalindrome.py:8-10 | two candidate slices per start position, one for each of `end in (start, start+1)` |
| Subpalindrome.SliceAt | Python/udacity_2_subpalindrome.py:8-10 | candidate 2c is grown from the centre (c, c) and candidate 2c+1 from the gap (c, c+1) |
| Subpalindrome.SlicesArePalindromes | Python/udacity_2_subpalindrome.py:8-10 | every candidate slice is a palindrome, ignoring case |
| Subpalindrome.GrowCovers | Python/udacity_2_subpalindrome.py:19-21 | growing from the centre of any palindrome reaches at least that palindrome |
| Subpalindrome.CentreCovers | Python/udacity_2_subpalindrome.py:8-10 | every palindrome in a non-empty text is at most as long as one of the candidates |
| Subpalindrome.LongestIsPalindrome | Python/udacity_2_subpalindrome.py:4-11 | `longest_subpalindrome_slice` returns a palindrome slice of the text, and no palindrome slice of the text is longer |
| Subpalindrome.LongestIsSlice | Python/udacity_2_subpalindrome.py:4-11 | the answer is a palindrome slice of the text |
| Subpalindrome.LongestBeats | Python/udacity_2_subpalindrome.py:11 | no palindrome slice is longer than the answer |
| Subpalindrome.WholePalindrome | Python/udacity_2_subpalindrome.py:4-11 | a text that is a palindrome as a whole is its own answer, (0, len(text)) |
| Subpalindrome.AllButLast | Python/udacity_2_subpalindrome.py:11 | when only the text without its last character is a palindrome of that length, `max` keeps the first such candidate, (0, len(text) - 1) |
| Subpalindrome.EmptyText | Python/udacity_2_subpalindrome.py:6-7 | the empty text gives (0, 0) |
| Subpalindrome.RacecarTest | Python/udacity_2_subpalindrome.py:27 | `L("Racecar") == (0, 7)` |
| Subpalindrome.RacecarXTest | Python/udacity_2_subpalindrome.py:28 | `L("RacecarX") == (0, 7)` |
| Subpalindrome.XxxxxTest | Python/udacity_2_subpalindrome.py:32 | `L("xxxxx") == (0, 5)` |
| Subpalindrome.MadamTest | Python/udacity_2_subpalindrome.py:33 | `L("Mad am I ma dam.") == (0, 15)` |
| Subpalindrome.LowerRacecarTest | Python/udacity_2_subpalindrome.py:26 | `L("racecar") == (0, 7)` |
| Subpalindrome.OneCentre | Python/udacity_2_subpalindrome.py:4-22 | when a text has a single short palindrome and no other, the answer is that palindrome grown outward |
| Subpalindrome.GrowStep | Python/udacity_2_subpalindrome.py:19-21 | when the characters on both sides of a slice match ignoring case, growing it goes through the wider slice |
| Subpalindrome.RaceCarrTest | Python/udacity_2_subpalindrome.py:29 | `L("Race carr") == (7, 9)` |
| Subpalindrome.SomethingGrown | Python/udacity_2_subpalindrome.py:18-22 | grown from " e ", the slice of "something rac e car going" widens to (8, 21) |
| Subpalindrome.SomethingTest | Python/udacity_2_subpalindrome.py:31 | `L("something rac e car going") == (8, 21)` |
| Anagrams.Prefixes | Python/udacity_6_anagrams.py:4-8 | `prefixes(word)` has one entry per letter, and holds exactly the proper prefixes of the word |
| Anagrams.PrefixSet | Python/udacity_6_anagrams.py:15 | the prefix set holds exactly the proper prefixes of the words |
| Anagrams.RemovedMultiset | Python/udacity_6_anagrams.py:52-58 | `removed(letters, remove)` leaves the letters as a multiset minus the letters removed |
| Anagrams.RemovedLength | Python/udacity_6_anagrams.py:52-58 | when every letter to remove is present, the result is shorter by exactly that many letters |
| Anagrams.Remove | Python/udacity_6_anagrams.py:52-58 | the loop of `str.replace(L, '', 1)` calls computes `removed` |
| Anagrams.FitsStep | Python/udacity_6_anagrams.py:66-67 | a word reachable after extending the prefix by a letter taken from the pool was reachable before |
| Anagrams.FitsNext | Python/udacity_6_anagrams.py:66-67 | a word longer than the prefix is reached by extending with its next letter, which is in the pool |
| Anagrams.ExtendedSound | Python/udacity_6_anagrams.py:63-68 | every word `extend_prefix` adds is in WORDS, starts with the prefix, and its rest is made of pool letters |
| Anagrams.ExtendedComplete | Python/udacity_6_anagrams.py:63-68 | every word in WORDS that fits the prefix and pool, and whose longer prefixes are all in PREFIXES, is added |
| Anagrams.ExtendedPre | Python/udacity_6_anagrams.py:64 | the prefix itself is added exactly when it is a word |
| Anagrams.ExtendPrefix | Python/udacity_6_anagrams.py:63-68 | the recursive method adds to the results exactly the words the specification reaches |
| Anagrams.FindWords | Python/udacity_6_anagrams.py:60-61 | `find_words(letters)` is the specification's set of words from the letters |
| Anagrams.WordsInSound | Python/udacity_6_anagrams.py:60-61 | each word found is in WORDS and uses only letters from the pool, counted with multiplicity |
| Anagrams.WordsInExact | Python/udacity_6_anagrams.py:60-68 | with PREFIXES built from WORDS, a word is found exactly when it is in WORDS and can be spelled from the letters |
| Anagrams.FindAnagrams | Python/udacity_6_anagrams.py:40-50 | the method returns the specification's set of anagram phrases |
| Anagrams.Contribute | Python/udacity_6_anagrams.py:43-49 | what one first word adds: itself when it uses up the letters, otherwise itself joined to each anagram of the rest |
| Anagrams.AddAll | Python/udacity_6_anagrams.py:46-47 | the loop adds `w + " " + rest` for every rest and nothing else |
| Anagrams.NoSpaces | Python/udacity_6_anagrams.py:30 | `phrase.replace(" ", "")` contains no space |
| Anagrams.AnagramSetSound | Python/udacity_6_anagrams.py:40-50 | each phrase returned is a space-joined list of words from WORDS, each at least `shortest` long, strictly increasing from `pre`, spelling exactly the letters |
| Anagrams.AnagramSetComplete | Python/udacity_6_anagrams.py:40-50 | every such list of words, joined with spaces, is returned |
| Anagrams.AnagramsOfSound | Python/udacity_6_anagrams.py:23-30 | every answer of `anagrams(phrase)` uses, spaces aside, exactly the letters of the phrase |
| Portmanteau.Splits | Python/udacity_7_6_portmanteau.py:118-119 | `splits(w)` has one entry per cut point, the i-th with a first part of i + 1 letters |
| Portmanteau.SplitsExact | Python/udacity_7_6_portmanteau.py:118-119 | a pair is listed exactly when both parts are non-empty and together spell w |
| Portmanteau.ComputeEnds | Python/udacity_7_6_portmanteau.py:111-116 | after the loops, `ends[mid]` (empty when missing, as a defaultdict) lists the ends of every split with that mid, in word and split order |
| Portmanteau.AppendEnds | Python/udacity_7_6_portmanteau.py:114-115 | the inner loop appends to each key exactly the ends of that word's splits with that mid |
| Portmanteau.EndsInExact | Python/udacity_7_6_portmanteau.py:114-115 | an end is recorded under mid exactly when (mid, end) is one of the splits |
| Portmanteau.EndsForExact | Python/udacity_7_6_portmanteau.py:111-116 | e is in `ends[mid]` exactly when both are non-empty and mid + e is one of the words |
| Portmanteau.AllTriplesExact | Python/udacity_7_6_portmanteau.py:102-108 | `alltriples` lists exactly the triples of non-empty parts where start + mid and mid + end are two different words of the list |
| Portmanteau.ScoreTimesFour | Python/udacity_7_6_portmanteau.py:121-124 | the integer score used by the model is exactly four times `portman_score`, so both pick the same maximum |
| Portmanteau.AdolescentedScore | Python/udacity_7_6_portmanteau.py:24-32 | 'adole' + 'scent' + 'ed' scores 8 |
| Portmanteau.NatalieNone | Python/udacity_7_6_portmanteau.py:93-96 | whenever the list has a portmanteau, `natalie` returns a word |
| Portmanteau.NatalieBest | Python/udacity_7_6_portmanteau.py:93-96 | the word returned joins a portmanteau of the list, and no portmanteau of the list scores higher |
| Portmanteau.NatalieOneWord | Python/udacity_7_6_portmanteau.py:148-153 | a list of at most one word has no portmanteau, so `natalie` returns None (the tests with `['test']`, `['']` and `[]`) |
| Portmanteau.MiddleOverlap | Python/udacity_7_6_portmanteau.py:102-108 | the middle of a portmanteau is the last letters of its first word and the first letters of its second, shorter than both |
| Portmanteau.ElephantomTriple | Python/udacity_7_6_portmanteau.py:133 | of circus, elephant, lion, opera and phantom, the only portmanteau is ("ele", "phant", "om") |
| Portmanteau.NatalieOnly | Python/udacity_7_6_portmanteau.py:93-96 | when a list has just one portmanteau, `natalie` returns it |
| Portmanteau.ElephantomOnly | Python/udacity_7_6_portmanteau.py:133 | ("ele", "phant", "om") is a portmanteau of the list, and every portmanteau of it is that one |
| Portmanteau.ElephantomTest | Python/udacity_7_6_portmanteau.py:133 | `natalie(['circus', 'elephant', 'lion', 'opera', 'phantom']) == 'elephantom'` |
| Portmanteau.NoTripleNone | Python/udacity_7_6_portmanteau.py:93-95 | a list with no portmanteau gives None |
| Portmanteau.TwoWordsNone | Python/udacity_7_6_portmanteau.py:93-95 | two words neither of which can follow the other give None |
| Portmanteau.NightDayTest | Python/udacity_7_6_portmanteau.py:148 | `natalie(['night', 'day']) == None` |
| Portmanteau.DogDogsTest | Python/udacity_7_6_portmanteau.py:149 | `natalie(['dog', 'dogs']) == None`: a word and its own extension are no portmanteau |
| Portmanteau.LettersDigitsTest | Python/udacity_7_6_portmanteau.py:152 | `natalie(['ABC', '123']) == None` |
| Pig.Other | Python/udacity_5_pig.py:38 | `other` swaps players 0 and 1 |
| Pig.Hold | Python/udacity_5_pig.py:41-47 | `hold` banks the pending points for the player who moved, passes the turn with nothing pending, leaves the opponent's score alone and keeps `me + you + pending` |
| Pig.Roll | Python/udacity_5_pig.py:49-59 | a roll of 1 scores one point for the mover, drops the pending points and passes the turn; any other roll adds to the pending points and changes no score |
| Pig.StepKeepsScores | Python/udacity_5_pig.py:41-59 | with die values of at least 1, neither move lowers any player's score or makes the pending points negative |
| Pig.PigActions | Python/udacity_5_pig.py:197-199 | rolling is always legal; holding is legal exactly when points are pending |
| Pig.HoldAtHolds | Python/udacity_5_pig.py:120-128 | `hold_at(x)` holds exactly when x points are pending or holding reaches the goal exactly, and rolls otherwise |
| Pig.PlayPig | Python/udacity_5_pig.py:85-99 | the loop returns the winner of the game the specification plays with the same strategies and die rolls |
| Pig.GameEnd | Python/udacity_5_pig.py:88-99 | a finished game ends with the winner at or past the goal and the loser below it, or with the loser naming an illegal action while both are below |
| Pig.PlayPigWinner | Python/udacity_5_pig.py:90-99 | the strategy returned is the one that reached the goal, or whose opponent named an action other than "hold" or "roll" |
| Pig.HoldersNeverFinish | Python/udacity_5_pig.py:85-99 | two `always_hold` players never finish a game, whatever the budget |
| Pig.ForfeitAtOnce | Python/udacity_5_pig.py:98-99 | a first player naming an illegal action loses to the second at once |
| Pig.StatesCount | Python/udacity_5_pig.py:207-212 | the list `states` has (goal+1)²(goal+2)/2 entries: 35301 for goal 40 |
| FoxesHens.Do | Python/udacity_5_foxes_hens.py:48-63 | gathering banks the yard and empties it; waiting on a hen adds it to the yard and waiting on a fox empties the yard; each of these takes the drawn card out of the deck; any other action leaves the state as it is |
| FoxesHens.DoDraws | Python/udacity_5_foxes_hens.py:53-54 | a legal action on a fox or hen card removes exactly that one card from the deck, as a multiset |
| FoxesHens.DeckAfterDraw | Python/udacity_5_foxes_hens.py:54 | taking one card out of a deck of foxes and hens leaves a deck of foxes and hens |
| FoxesHens.Step | Python/udacity_5_foxes_hens.py:25-26 | one pass of the game loop leaves a deck one card shorter |
| FoxesHens.NewDeck | Python/udacity_5_foxes_hens.py:23 | `"F"*foxes + "H"*hens` has foxes + hens cards, all foxes or hens, with exactly `hens` hens |
| FoxesHens.FoxesAndHens | Python/udacity_5_foxes_hens.py:19-27 | the loop returns `score + yard` of the game the specification plays with the same strategy and draws |
| FoxesHens.StepBounds | Python/udacity_5_foxes_hens.py:48-61 | a step never lowers the score and never raises banked + yard + hens left in the deck |
| FoxesHens.FinalBounds | Python/udacity_5_foxes_hens.py:24-27 | the final result lies between the current score and the hens that can still be won |
| FoxesHens.GameBounds | Python/udacity_5_foxes_hens.py:19-27 | a game scores between 0 and the number of hens |
| FoxesHens.Take5 | Python/udacity_5_foxes_hens.py:86-94 | `take5` waits exactly while fewer than 5 hens are in the yard, and otherwise gathers |
| FoxesHens.Strategy1CrossMultiplied | Python/udacity_5_foxes_hens.py:68-84 | `strategy` waits when no fox is left, gathers when no hen is left, and otherwise waits exactly when 2 · yard · n_f < n_f + n_h |
| FoxesHens.StrategiesLegal | Python/udacity_5_foxes_hens.py:68-94 | both strategies only ever answer "wait" or "gather" |
| FoxesHens.GatherTest | Python/udacity_5_foxes_hens.py:106-108 | gathering on (4, 5, 'F'*4 + 'H'*10) gives (9, 0, ...) with one fox or one hen fewer, depending on the card drawn |
| FoxesHens.WaitTest | Python/udacity_5_foxes_hens.py:110-112 | waiting on (10, 3, 'FFHH') gives (10, 4, 'FFH') on a hen and (10, 0, 'FHH') on a fox |
| Cryptarithmetic.ReadShow | Python/udacity_2_cryptarithmetic.py:82 | the decimal text `str(10**i)` of a number is non-empty, all digits, and reads back as that number |
| Cryptarithmetic.SplitJoin | Python/udacity_2_cryptarithmetic.py:82-83 | splitting the `"+".join(terms)` text at '+' gives back the terms |
| Cryptarithmetic.TermRead | Python/udacity_2_cryptarithmetic.py:82 | the i-th term `"%s*%s" % (10**i, d)` is worth 10^i times the value of the i-th letter from the right, and holds no '+' |
| Cryptarithmetic.ValueFront | Python/udacity_2_cryptarithmetic.py:77-85 | a word's value is its first letter times 10^(length-1) plus the value of the rest |
| Cryptarithmetic.TermsSum | Python/udacity_2_cryptarithmetic.py:82 | the terms of a word add up to the number the word spells |
| Cryptarithmetic.CompiledValue | Python/udacity_2_cryptarithmetic.py:77-85 | for a word of capitals, `compile_word` gives an expression whose value, with each letter standing for a digit, is the number the word spells |
| Cryptarithmetic.YouTest | Python/udacity_2_cryptarithmetic.py:79 | `compile_word('YOU') == '(1*U+10*O+100*Y)'` |
| Cryptarithmetic.UpperFrom | Python/udacity_2_cryptarithmetic.py:67 | the scan of `re.split("([A-Z]+)")` stops at the next capital letter, having passed only other characters |
| Cryptarithmetic.RunFrom | Python/udacity_2_cryptarithmetic.py:67 | the run of capitals found ends at the first character that is not a capital |
| Cryptarithmetic.SplitWordsCons | Python/udacity_2_cryptarithmetic.py:67 | where the formula holds a word, the split gives the text before it, the word, and the split of the rest |
| Cryptarithmetic.SplitWordsConcat | Python/udacity_2_cryptarithmetic.py:67-68 | the pieces of `re.split` join back into the formula |
| Cryptarithmetic.SplitWordsOdd | Python/udacity_2_cryptarithmetic.py:67 | a split with one capturing group always has an odd number of pieces |
| Cryptarithmetic.SplitWordsPieces | Python/udacity_2_cryptarithmetic.py:67 | the odd-numbered pieces are words of capitals and the even-numbered ones hold no capital |
| Cryptarithmetic.SplitWordsApart | Python/udacity_2_cryptarithmetic.py:67 | between two words there is always a non-empty piece, so a word is a maximal run of capitals |
| Cryptarithmetic.BodyPieces | Python/udacity_2_cryptarithmetic.py:67-68 | compiling keeps the text between words and replaces each word by an expression worth the number the word spells |
| Cryptarithmetic.FirstLettersTest | Python/udacity_2_cryptarithmetic.py:62-66 | for "YOU == ME**2" the guarded letters are exactly Y and M |
| Cryptarithmetic.PermsLength | Python/udacity_2_cryptarithmetic.py:17 | each permutation of the digits chosen has one digit per letter |
| Cryptarithmetic.PoolDigits | Python/udacity_2_cryptarithmetic.py:17 | the pool "1234567890" holds every digit exactly once |
| Cryptarithmetic.FillInDistinct | Python/udacity_2_cryptarithmetic.py:14-19 | every filling-in gives each letter a digit, and different letters different digits |
| Cryptarithmetic.FillInComplete | Python/udacity_2_cryptarithmetic.py:14-19 | every assignment of distinct digits to the letters is among the fillings-in |
| Cryptarithmetic.TranslateChar | Python/udacity_2_cryptarithmetic.py:18-19 | `translate` replaces each listed letter by a digit, leaves every other character alone, and keeps which characters are `\w` |
| Cryptarithmetic.GuardZeroLeads | Python/udacity_2_cryptarithmetic.py:66-71 | giving 0 to a guarded first letter makes the filled-in formula have a leading zero, which `valid` rejects |
| Cryptarithmetic.DigitFromLetter | Python/udacity_2_cryptarithmetic.py:18-19 | in the filling-in of a formula without digits, every digit stands where a letter stood |
| Cryptarithmetic.FirstLetterAt | Python/udacity_2_cryptarithmetic.py:66 | a capital at a word boundary followed by another capital is a guarded first letter |
| Cryptarithmetic.LeadingZeroGuarded | Python/udacity_2_cryptarithmetic.py:21-26 | conversely, in a formula without digits a leading zero can only come from a guarded first letter set to 0: the `valid` check and the `!=0` guards of `compile_formula` reject the same fillings |
| Cryptarithmetic.SolveFirst | Python/udacity_2_cryptarithmetic.py:5-10 | the answer of `solve` is the first valid filling-in, and in it no guarded first letter is 0 |
| Cryptarithmetic.SolveNone | Python/udacity_2_cryptarithmetic.py:5-10 | `solve` returns None only when no filling-in is valid |
| Floor.FirstFitFirst | Python/udacity_2_floor.py:16-26 | the answer of the generator is an ordering of the floors that passes every clue, and every ordering before it in `itertools.permutations` order fails one |
| Floor.OnlyFit | Python/udacity_2_floor.py:19-26 | the clues admit exactly one ordering: Hopper 3, Kay 2, Liskov 4, Perlis 5, Ritchie 1 |
| Floor.FitFound | Python/udacity_2_floor.py:18-26 | once some ordering fits, `next` finds an answer and does not raise StopIteration |
| Floor.FirstFitAnswer | Python/udacity_2_floor.py:16-26 | over the orderings of floors 1 to 5, in whatever order they are listed, the answer is [3, 2, 4, 5, 1] |
| Floor.FloorAnswer | Python/udacity_2_floor.py:16-28 | `floor_puzzle()` returns [3, 2, 4, 5, 1] |
| Permutations.Prepend | Python/udacity_2_floor.py:17 | fixing a first element keeps one permutation per tail |
| Permutations.PrependHas | Python/udacity_2_floor.py:17 | a sequence is listed with x in front exactly when it starts with x and its tail was listed |
| Permutations.PermsFromHas | Python/udacity_2_floor.py:17 | the permutations that start from position i of the pool are those starting with a later pool element followed by a permutation of the rest |
| Permutations.WithoutHas | Python/udacity_2_floor.py:17 | removing one element of a pool of distinct elements leaves exactly the others, still distinct |
| Permutations.PermsSound | Python/udacity_2_floor.py:17 | `itertools.permutations(pool, k)` yields only sequences of k distinct elements of the pool |
| Permutations.PermsComplete | Python/udacity_2_floor.py:17 | every sequence of k distinct elements of the pool is yielded |
| Permutations.PermsExact | Python/udacity_2_floor.py:17 | both directions together |
| Permutations.FindFirstAt | Python/udacity_2_floor.py:18-26 | `next` over a filtered generator returns the candidate at the first position that passes, no earlier one passing |
| Permutations.FindFirstSome | Python/udacity_2_floor.py:18-26 | `next` finds something as soon as any candidate passes |
| Orderings.AllFive | Python/udacity_7_2_logic_puzzle.py:47 | five different numbers from 1 to 5 are all of them |
| Orderings.OrderingsExact | Python/udacity_7_2_logic_puzzle.py:47 | the permutations of an ordering of 1..5 are exactly the orderings of 1..5 |
| LogicPuzzle.Zip | Python/udacity_7_2_logic_puzzle.py:49-51 | `zip` pairs each of the five days with its name |
| LogicPuzzle.Arrivals | Python/udacity_7_2_logic_puzzle.py:49-51 | `[name for _, name in sorted(zip(...))]` has five names |
| LogicPuzzle.ArrivalsInOrder | Python/udacity_7_2_logic_puzzle.py:49-51 | the name arriving on day d stands at place d - 1 of the answer |
| LogicPuzzle.SortedDays | Python/udacity_7_2_logic_puzzle.py:49 | sorted by day, the pairs carry days 1 to 5 in that order |
| LogicPuzzle.NameCandidateExact | Python/udacity_7_2_logic_puzzle.py:48-67 | for one names ordering the nested loops yield an answer exactly when some professions and items orderings satisfy every clue, and the answer lists the names by day |
| LogicPuzzle.SolveFirst | Python/udacity_7_2_logic_puzzle.py:45-68 | the answer comes from the first names ordering, in permutation order, that can be completed |
| LogicPuzzle.SolveSome | Python/udacity_7_2_logic_puzzle.py:45-68 | any assignment satisfying every clue makes the generator yield an answer |
| LogicPuzzle.OnlyNames | Python/udacity_7_2_logic_puzzle.py:52-67 | every assignment satisfying the clues puts Hamming on day 4, Knuth 3, Minsky 5, Simon 2, Wilkes 1 |
| LogicPuzzle.AnswerSolves | Python/udacity_7_2_logic_puzzle.py:52-67 | that names ordering, with programmer 4, writer 3, manager 2, designer 5 and laptop 3, droid 1, tablet 4, iphone 2, satisfies every clue |
| LogicPuzzle.AnswerArrivals | Python/udacity_7_2_logic_puzzle.py:49-51 | ordered by day, that assignment reads Wilkes, Simon, Knuth, Hamming, Minsky |
| LogicPuzzle.FirstIsAnswer | Python/udacity_7_2_logic_puzzle.py:48-53 | the first names ordering that can be completed is the unique one |
| LogicPuzzle.SolveAnswer | Python/udacity_7_2_logic_puzzle.py:45-68 | over any listing of the orderings of 1..5, the answer is Wilkes, Simon, Knuth, Hamming, Minsky |
| LogicPuzzle.PuzzleAnswer | Python/udacity_7_2_logic_puzzle.py:45-68 | `logic_puzzle()` returns ['Wilkes', 'Simon', 'Knuth', 'Hamming', 'Minsky'] |
| LogicPuzzle.DaysOrdering | Python/udacity_7_2_logic_puzzle.py:47 | [1, 2, 3, 4, 5] is an ordering of the days |
| Zebra.NextToRight | Python/udacity_2_zebra.py:37-43 | two houses are `nextto` exactly when one is `imright` of the other, so `nextto` is symmetric |
| Zebra.SmokeLevel | Python/udacity_2_zebra.py:67-75 | when the two innermost loops yield, they yield (WATER, ZEBRA) of orderings satisfying the smoke and pet clues |
| Zebra.DrinkLevel | Python/udacity_2_zebra.py:63-75 | when the drinks loop yields, the orderings found satisfy the drink, smoke and pet clues |
| Zebra.NationLevel | Python/udacity_2_zebra.py:59-75 | when the nations loop yields, the orderings found satisfy every clue from the nations on |
| Zebra.ColorLevel | Python/udacity_2_zebra.py:57-75 | for one colour ordering, the nested loops yield exactly when other orderings complete it into a solution, and then yield (WATER, ZEBRA) of such a solution |
| Zebra.CompletionFound | Python/udacity_2_zebra.py:57-75 | any completion of a colour ordering into a solution makes the loops yield |
| Zebra.SolveFirst | Python/udacity_2_zebra.py:51-75 | the answer comes from a solution whose colour ordering is the first, in permutation order, that can be completed |
| Zebra.SolveSome | Python/udacity_2_zebra.py:51-75 | any solution makes `zebra_puzzle` return an answer rather than raise StopIteration |
| Zebra.OnlyAnswer | Python/udacity_2_zebra.py:56-75 | in every solution water is drunk in house 1 and the zebra lives in house 5 |
| Zebra.Bounded | Python/udacity_2_zebra.py:53-54 | an ordering of the houses has five different entries from 1 to 5 |
| Zebra.SolutionHolds | Python/udacity_2_zebra.py:56-75 | the classic assignment satisfies every clue |
| Zebra.SolveAnswer | Python/udacity_2_zebra.py:51-75 | over any listing of the orderings of the houses, the answer is (1, 5) |
| Zebra.HousesOrdering | Python/udacity_2_zebra.py:53 | [1, 2, 3, 4, 5] is an ordering of the houses |
| Zebra.ZebraAnswer | Python/udacity_2_zebra.py:51-75 | `zebra_puzzle()` returns (WATER, ZEBRA) == (1, 5) |
| Zebra.Ints | Python/udacity_2_zebra.py:122-126 | `ints(start, end)` yields start, start + 1, ..., end, and nothing when end < start |
| Zebra.AllIntsEvery | Python/udacity_2_zebra.py:129-136 | the order 0, +1, -1, +2, -2, ... reaches every integer |
| Zebra.AllIntsOnce | Python/udacity_2_zebra.py:129-136 | it reaches each integer only once |
| Zebra.AllIntsPairs | Python/udacity_2_zebra.py:129-136 | the first `all_ints` (yield 0, then +i and -i) yields that order |
| Zebra.AllIntsStep | Python/udacity_2_zebra.py:144-146 | each value of the order is the previous one plus k + 1 with alternating sign |
| Zebra.AllIntsStepping | Python/udacity_2_zebra.py:139-146 | the second `all_ints` (adding `to_add * to_multiply`) yields the same order |
| LanguageNotes.GreaterLessEqual5 | Python/python.py:319-325 | the answer is 1 exactly above 5, -1 exactly below 5 and 0 exactly at 5 |
| LanguageNotes.GreaterLessEqual5Mirror | Python/python.py:319-325 | reflecting the argument around 5 negates the answer |
| LanguageNotes.Evens | Python/python.py:906-909 | the generator yields exactly the even elements of the stream, in their order |
| LanguageNotes.EvensOfConcat | Python/python.py:906-909 | filtering a stream in two parts gives the evens of the first part followed by those of the second |
| LanguageNotes.EvensOfCount | Python/python.py:906-909 | every even value occurs as often as in the stream, and no odd value occurs |
| LanguageNotes.CellAt | Python/python.py:932-935 | position y · width + x of the walk is the cell (x, y) |
| LanguageNotes.CellOrder | Python/python.py:932-935 | the walk is row-major: a later position lies in a later row, or in the same row further right |
| LanguageNotes.Range2D | Python/python.py:932-935 | `range_2d` yields width · height cells (none when either is not positive), position i being cell (i mod width, i div width) |
| LanguageNotes.PyList.constructor | Python/python.py:388-389 | a fresh list is empty |
| LanguageNotes.PyList.Append | Python/python.py:390 | `append` adds the element at the end and changes nothing else |
| LanguageNotes.F | Python/python.py:385-392 | with no list given, `f` returns a new list holding only a; with a list given, it returns that same object with a appended |
| LanguageNotes.ListChanger | Python/python.py:176-185 | the caller's list gets 10 in its first place and keeps the rest, or an IndexError leaves it unchanged when it is empty; the local rebinding ends as [10, 2, ..., 9] and never reaches the caller |
| LanguageNotes.PrimesToSpec | Python/python.py:952-966 | the reference list holds exactly the primes up to m, in increasing order |
| LanguageNotes.LeastDivisorFrom | Python/python.py:958-963 | the least divisor of n from d on divides n and no number between d and it does |
| LanguageNotes.LeastDivisorPrime | Python/python.py:958-963 | the least divisor of n from 2 on is prime |
| LanguageNotes.LeastDivisorSquare | Python/python.py:961-962 | n is prime exactly when it is its own least divisor, and otherwise that divisor's square is at most n |
| LanguageNotes.TrialDivisionSound | Python/python.py:958-963 | n is composite exactly when some smaller prime p with p² ≤ n divides it |
| LanguageNotes.SmallFactor | Python/python.py:958-963 | a composite n has a factor among the primes below it whose square is at most n |
| LanguageNotes.TrialDivision | Python/python.py:957-963 | the inner loop over the primes found so far, stopping at the first divisor or once p² > n, sets `composite` exactly when n is not prime |
| LanguageNotes.GeneratePrimes | Python/python.py:952-966 | the generator yields exactly the primes up to `stop_at` in increasing order, the consumer's own bound `upTo` standing for an unbounded `count(2)` |
| LanguageNotes.GeneratePrimesBound | Python/python.py:955-956 | with a positive `stop_at`, only primes up to it are yielded, and all of them when the consumer reads that far |

Python/Python.py holds the same language-note functions as Python/python.py, character for
character: `list_changer` at 156-165, `greater_less_equal_5` at 251-261, `f(a, L=None)` at
293-300, `evens` at 637-640, `range_2d` at 663-666 and `generate_primes` at 683-697. The
LanguageNotes rows cite python.py and model both copies.

## Left out

- Printing: `print(state)` in `mc_problem`, the `print` calls of the tests and language notes, and `story` in Pig produce output only.
- Timing and instrumentation: `timedcall`, `timedcalls`, `average`, the counting generator `c` and `instrument_fn` measure time or count calls; the answers they return do not depend on them.
- Dynamic evaluation: `eval` in `valid`, `compile_formula` and `faster_solve` runs a Python interpreter. `valid` takes the truth of the arithmetic as a parameter `holds`; `faster_solve` and the lambda text of `compile_formula` are not modelled, only its parameter list, its guarded first letters and its compiled body.
- Randomness: `deal`, `random.shuffle` and `random.randrange` in poker, `dierolls` and `clueless` in Pig, `random.choice` in `do`, and `average_score` and `superior` in foxes and hens. The random picks, die rolls and drawn cards are parameters; `average_score` and `superior` average floats over random games and are not modelled.
- Float probability in Pig: `Pwin`, `win_diff`, `Q_pig`, `best_action`, `max_wins` and `max_diffs` compute float expectations through `memo` caches.
- Decorators: `decorator`, `memo`, `countcalls`, `trace` and `disabled` wrap functions in hidden caches and printing.
- File input: `readwordlist` and the module-level `WORDS`/`PREFIXES` read words4k.txt. The word and prefix sets are parameters, so the anagram tests, which depend on that file, are not stated.
- Python/udacity_3_inverse.py (Newton and step inverses over floats) and the numpy/pandas notes (Python/python_data_analysis.py, Python/Python_Data_Analysis.py, Python/python_pandas.py, Python/Python_Pandas.py) are not part of this model: they are float numerics and foreign libraries.
- The rest of the language notes (class and price examples, `requests`, `datetime`, file I/O, `clean_strings`, shell magics) are not part of this model.
- The mutable-default `f(a, L=[])` of the language notes is only shown there as the wrong way; the model has the corrected `f(a, L=None)`.
- Buggy drafts: the `genseq` length-set generator of the regex file (it uses `len(x)` for `m`), the first `natalie`/`find_natalie` (it returns a set of float-scored tuples), `mc_problem2` with an explicit goal (it raises NameError on `goal_fu`) and `ints(start)` with no end (it compares an int with None) are not modelled.
- Character classes: `str.isupper`, `str.upper` and the regex classes `[A-Z]` and `\w` are taken on ASCII only.
- Set iteration order: a Python set or frozenset is iterated in an order the caller passes in; the results that depend on it (the letters of `fill_in`, the dict order of the bridge successors) are stated for every order.
- Identity tests: `is` between small integers and `is None` are read as equality.
- StopIteration: `next` over an exhausted generator raises; the puzzle models return None instead, and prove that the puzzles do have an answer.
- Pig.PlayPig: `play_pig` loops for ever when both strategies always hold; the model takes a budget of decisions and returns None when it runs out. It also asks the strategy once per decision, where `play_pig` (Python/udacity_5_pig.py:94-96) calls `strategies[p](state)` a second time when the first answer is not "hold"; a strategy is a function of the state here, so one that answers differently on the second call (a random one) is not captured.
- WaterPouring.Moves: `successors` asserts that the levels fit the glasses and raises AssertionError otherwise (Python/udacity_4_water_pouring.py:33); the model states this as a precondition of `Moves` and `Successors` and does not model the error.
- Poker.Straight: `max` and `min` of no ranks raise ValueError; the model requires at least one rank, and `Poker.HandRank2` requires a card, instead of modelling the error.
- Bridge.BridgeProblem3Example: the test compares the answer with one exact path (Python/udacity_4_lower_cost_search.py:103-114); the model proves that the answer is that path or the only other path of cost 17, which differs from it in the order 1 and 2 come back. Which of the two the search returns depends on how its frontier breaks ties, and the model does not follow the search's run step by step.
- BridgeTimed.BridgeProblemExample: likewise, the doctest only asks that the actions be S1 or S2, and that is what the model proves. The other doctests of the timed search (Python/udacity_4_bridge_successors.py:80-91) are not stated. These are the paths for six people and the elapsed times of the series [1, 2, 7, 15, 28] and [1, 1, 2, 6, 12, 19, 30]. Their lower bounds would each need a table of the time still needed for their own set of people, and the model has that table only for 1, 2, 5 and 10.
- Bridge.BridgeProblem2Example: `path_cost(bridge_problem2([1, 2, 5, 10])) == 17` (Python/udacity_4_bridge_successors.py:186-187) is stated only as a valid path costing at least 17. The queue-ordered search is not proved to return a fastest path, so the upper bound would need its run followed step by step. For the same reason the series of Python/udacity_4_bridge_successors.py:189-193 are not stated.
- Portmanteau.NatalieBest: `natalie` is proved to return a best-scoring portmanteau for every list. Only the single-answer tests are stated as examples: elephantom, the None cases, and the one-word and empty lists. The other tests (Python/udacity_7_6_portmanteau.py:131-146 and 154-172) each need every split of every word pair enumerated and their scores compared, so they are not stated one by one.
- BridgeTimed.BridgeProblem: `bridge_problem` searches an unbounded space of elapsed times; the model takes a `fuel` budget and promises its answers only when the budget suffices.
- Bridge.BridgeProblem2: because the bridge file's `add_to_frontier` does not re-sort, the path returned is proved valid and complete but not the fastest.
- FoxesHens.FoxesAndHens: requires a strategy that answers only "wait" or "gather"; with any other answer `do` returns the state unchanged and `foxes_and_hens` loops for ever.
- Poker.Category: its contract states only the range 0..9; the categories of particular hands are stated by `PokerTests.HandRankTests`.
- hand_rank #1 (Python/udacity_1_poker.py:95) and the second `group` are shadowed by later definitions and are not modelled; at run time #3 shadows #2 too. The model follows #2, which the tests at Python/udacity_1_poker.py:250-252 expect, and relates #3 to it by `Poker.HandRank3Relabels`.
