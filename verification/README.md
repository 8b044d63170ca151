# rocket signals and slots in Dafny

A model of the in-process signal/slot library shipped in three generations:

- `rocket.hpp` (v1.3): a signal is a sentinel-bounded doubly linked list of `connection_base` nodes, and emission walks `next` pointers from `head` to `tail`;
- `simple.hpp` (v1.1): a signal is a `stable_list` of shared connection nodes, and emission erases disconnected entries as it meets them;
- `simplesig.hpp` (v1.0): a signal is a `deque` of connection nodes guarded by a `recursion_lock`, and collectors reduce the whole range of results at the end.

Slots are scripted behaviours (`Slots.Behaviour`). Each slot is a list of side effects followed by an outcome. The side effects are:

- disconnect itself, a given node, or everything;
- connect a new slot at the front or back;
- request an abort;
- emit the signal again.

The outcome is a returned value or a thrown exception. This makes emission a deterministic, fuel-bounded function whose result can be stated exactly:

- the list of nodes whose slots were called;
- the values handed to the collector;
- the error flag;
- the signal and thread data left behind.

The modules follow the headers:

| module | models |
|---|---|
| `Optional` | `optional::value` and `value_or`, with `bad_optional_access` as an error value |
| `Collectors` | the incremental collectors `minimum`, `maximum`, `first`, `last`, `range` (with simple.hpp's `hint`) and `default_collector` |
| `RangeCollectors` | simplesig.hpp's batch collectors over an iterator range |
| `StableList` | `stable_list`, common to rocket.hpp and simple.hpp, over a map from node ids to `{value, prev, next}` links. Its `elements` counter is a `std::size_t`, so decrements wrap modulo 2^64 |
| `RocketSignal` | rocket.hpp's connection list (`connected()` is `prev != nullptr`); `connect`, `make_link`, `disconnect`, `clear`, `destroy`, `copy`, copy/move construction and assignment, `swap` |
| `RocketEmission` | rocket.hpp's `invoke`; the thread-local data (`current_connection`, `emission_aborted`) is a parameter and a result |
| `RocketBehaviour` | what an emission does, for quiet slots and for one side effect at a chosen slot |
| `RocketHandles` | `connection`, `scoped_connection`, `scoped_connection_container`, `trackable`, `current_connection`, `abort_emission` |
| `SimpleSignal` | simple.hpp's signal list, `connect`, `clear`, copy construction and assignment |
| `SimpleConnection` | simple.hpp's `functional_connection` and `connection` handles |
| `SimpleEmission` | simple.hpp's void and non-void `invoke` with lazy erasure |
| `SimpleSigSignal` | simplesig.hpp's deque signal, `connect`, `clear`, copy, move, `swap` and the `connection` handle |
| `SimpleSigEmission` | `invoke_generic`, `invoke_get_all`, `invoke_impl` and `recursion_guard` |
| `Generations` | the three generations agree on every emission without side effects |

## Model

| member | source | states |
|---|---|---|
| Optional.Value | simple.hpp:344-358 | `value()` succeeds exactly on an engaged optional, returning its value; a disengaged one raises `bad_optional_access` |
| Optional.ValueOrAgreesWithValue | simple.hpp:360-364 | `value_or` gives `value()`'s result where that succeeds and the default exactly where it raises |
| Collectors.MinimumStep | rocket.hpp:444-467 | one observation: the kept value has a key no larger than the new value or the old kept value, and a value that is not strictly smaller leaves the state alone |
| Collectors.MaximumStep | rocket.hpp:469-492 | the same for `maximum` with strictly larger |
| Collectors.FirstStep | rocket.hpp:494-517 | `first` keeps the first observation and ignores later ones |
| Collectors.RangeHint | simple.hpp:166-169 | `hint` only reserves capacity; the collected values do not change |
| Collectors.MinimumOver | simple.hpp:42-69 | after a run of observations: `value_type{}` when there were none, otherwise the earliest of the least elements |
| Collectors.MaximumOver | simple.hpp:71-98 | after a run: the earliest of the greatest elements, `value_type{}` when empty |
| Collectors.FirstOver | simple.hpp:100-127 | after a run: the first element, `value_type{}` when empty |
| Collectors.LastOver | simple.hpp:129-152 | after a run: the final element, `value_type{}` when empty |
| Collectors.RangeOver | simple.hpp:154-178 | after a run: every observed value appended in order, whatever was reserved |
| Collectors.DefaultOf | rocket.hpp:2205-2208 | `default_collector` is empty exactly when no slot returned, and otherwise holds the last value |
| Collectors.EarliestLeastUnique | rocket.hpp:444-467 | ties are resolved: there is exactly one earliest least element, so `minimum`'s result is determined |
| Collectors.MinimumIsLeast | rocket.hpp:444-467 | `minimum`'s result is an observed value with a key no larger than any other, and it is the first such value |
| Collectors.MaximumIsGreatest | rocket.hpp:469-492 | `maximum`'s result is an observed value with a key no smaller than any other, and among values with that key the earliest one is returned |
| Collectors.RangeIgnoresHint | simple.hpp:154-178 | `range` returns exactly the observed values whatever size was hinted |
| Collectors.FirstStable | rocket.hpp:494-517 | later observations never change `first` |
| Collectors.UsageExample | example.cpp:76-117 | slots `x * 3`, `x * 1` and `x * 2` emitted with 5: minimum 5, maximum 15, first 15, last 10, range `[15, 5, 10]`, default collector 10 and empty with no slots |
| RangeCollectors.Minimum | simplesig.hpp:34-56 | the range scan returns `value_type{}` on an empty range, otherwise the earliest least element, the same as the incremental `minimum` |
| RangeCollectors.Maximum | simplesig.hpp:58-80 | the scan returns the earliest greatest element, the same as the incremental `maximum` |
| RangeCollectors.First | simplesig.hpp:82-92 | the batch `first` agrees with the incremental `first` |
| RangeCollectors.LastBidirectional | simplesig.hpp:107-111 | `*(--last)` agrees with the incremental `last` |
| RangeCollectors.LastForward | simplesig.hpp:113-124 | the forward-iterator walk gives the same element as the bidirectional path and the incremental `last` |
| RangeCollectors.Range | simplesig.hpp:127-137 | the batch `range` equals the incremental `range` for every hint |
| StableList.Inc | rocket.hpp:1811-1822 | `++elements` adds one below 2^64 and stays a `size_t` |
| StableList.Dec | rocket.hpp:1734-1740 | `--elements` subtracts one from a positive counter and wraps zero to 2^64 - 1 |
| StableList.CounterSteps | rocket.hpp:1724-1727 | a counter holding `x` modulo 2^64 holds `x + 1` after `++` and `x - 1` after `--` |
| StableList.EmptyValid | rocket.hpp:1795-1802 | `init()` gives a well-formed empty list |
| StableList.MakeLinkInserts | rocket.hpp:1811-1822 | `make_link` puts the value at the iterator's position in the sequence of values, adds one to `elements`, and moves nothing else |
| StableList.EraseRemoves | rocket.hpp:1734-1740 | `erase(pos)` removes the value at `pos`, subtracts one, leaves the erased link's own pointers intact and returns its successor |
| StableList.PopFrontRemovesFirst | rocket.hpp:1600-1605 | `pop_front` removes the first value and subtracts one |
| StableList.PopBackRemovesLast | rocket.hpp:1607-1612 | `pop_back` removes the last value and subtracts one |
| StableList.EraseRangeRemoves | rocket.hpp:1742-1756 | `erase(first, last)` cuts out the nodes in between, subtracts their number, and leaves each erased link pointing at the range's neighbours |
| StableList.EraseRangeKeepsValues | rocket.hpp:1742-1756 | the values after `erase(first, last)` are the values before and after the range |
| StableList.ClearEmpties | simple.hpp:1029-1032 | `clear()` leaves no values, a zero counter, and every former element pointing at `head` and `tail` |
| StableList.EraseAfterClear | simple.hpp:1114-1120 | erasing a link that `clear()` already unlinked leaves the list empty but wraps `elements` to 2^64 - 1, so the list is no longer well formed |
| StableList.SizeAndEmpty | rocket.hpp:1558-1561 | on a well-formed list `size()` counts the values and `empty()` holds exactly when there are none |
| StableList.Front | rocket.hpp:1538-1556 | `front()` is the first value |
| StableList.Back | rocket.hpp:1538-1556 | `back()` is the last value |
| StableList.PushBack | rocket.hpp:1568-1586 | `push_back` appends the value and adds one |
| StableList.PushFront | rocket.hpp:1568-1586 | `push_front` prepends the value and adds one |
| StableList.InsertRange | rocket.hpp:1624-1635 | inserting a range before `pos` splices the values in, in order; `pos` stays valid after them; the iterator returned is the first inserted link, or `end()` for an empty range |
| StableList.InsertCopies | rocket.hpp:1642-1652 | `insert(pos, count, value)` splices in `count` copies and returns the first one, or `end()` |
| StableList.Assign | rocket.hpp:1686-1703 | `assign` leaves exactly the given values and counter |
| StableList.Resize | rocket.hpp:1705-1722 | `resize(count, value)` ends with `count` elements, truncating or padding with copies of `value` |
| StableList.RemoveIf | rocket.hpp:1767-1775 | `remove_if` leaves exactly the values the predicate rejects, in order |
| StableList.Remove | rocket.hpp:1758-1765 | `remove(value)` removes every equal value, because the walk steps on through each erased link's `next` |
| RocketSignal.ConnectedIffInOrder | rocket.hpp:1837-1861 | in a well-formed signal, `connected()` (`prev != nullptr`) holds exactly for the nodes on the walk from `head` to `tail` |
| RocketSignal.EmptyValid | rocket.hpp:2422-2428 | a fresh signal has no connected nodes |
| RocketSignal.MakeLinkValid | rocket.hpp:2451-2460 | `make_link` splices a new connected node at the given position and keeps every other node as it was |
| RocketSignal.ConnectInserts | rocket.hpp:2278-2285 | `connect` places the new slot last, or first with `first`, so emission order is connection order with prepended slots ahead |
| RocketSignal.DisconnectRemoves | rocket.hpp:1841-1857 | `disconnect` removes a connected node from the order: its neighbours point at each other, its `prev` becomes null and its `next` is unchanged. It leaves a disconnected node alone |
| RocketSignal.DisconnectIdempotent | rocket.hpp:1841-1857 | disconnecting twice is disconnecting once |
| RocketSignal.ClearDisconnectsAll | rocket.hpp:2324-2336 | `clear()` disconnects every node, points each former member's `next` at `tail` and leaves the list empty |
| RocketSignal.AppendAllValues | rocket.hpp:2437-2449 | `copy` appends the source's slots in order after the existing ones and leaves those in place |
| RocketSignal.CopyConstructs | rocket.hpp:2254-2258 | the copy constructor gives a signal holding the source's connected slots in order |
| RocketSignal.CopyAssignReplaces | rocket.hpp:2269-2276 | copy assignment to itself changes nothing; otherwise the target holds the source's slots and all its earlier nodes are disconnected |
| RocketSignal.SwapExchanges | rocket.hpp:2338-2350 | `swap` exchanges the connected slots, and swapping back restores both signals |
| RocketSignal.MoveAssignTransfers | rocket.hpp:2260-2267 | move assignment gives the target the source's slots, leaves the source empty and disconnects every node the target held |
| RocketSignal.NextInList | rocket.hpp:2363-2389 | every node's `next`, connected or not, is `tail` or a node of the list, so the emission cursor never meets a null pointer |
| RocketSignal.Settles | rocket.hpp:2363-2389 | stepping forward from any node over disconnected ones comes to rest on `tail` or a connected node |
| RocketEmission.InvokeSafe | rocket.hpp:2352-2398 | an emission on a well-formed signal never leaves the list; it keeps the list well formed and every node in existence, restores the thread data, and never calls a node that was disconnected when it started |
| RocketEmission.RunSafe | rocket.hpp:1882-1916 | a slot body keeps the list well formed, and any nested emission in it restores `current_connection` |
| RocketEmission.ApplySafe | rocket.hpp:2195-2203 | `disconnect`, `connect`, `clear` and `abort_emission` called from a slot keep the list well formed and leave `current_connection` alone |
| RocketBehaviour.QuietEmission | rocket.hpp:2352-2398 | with slots that have no side effects, every connected slot is called once in list order. The result is `invocation_slot_error` if one threw, otherwise the last returned value; list and thread data are as before |
| RocketBehaviour.AbortStops | rocket.hpp:2383-2385 | when the `i`-th slot calls `abort_emission()`, the loop calls nothing after it; the outer abort flag is restored |
| RocketBehaviour.OneEffect | rocket.hpp:2363-2389 | with one side effect at the `i`-th slot, the emission is the first `i + 1` calls followed by the walk of what the changed list holds after that node |
| RocketBehaviour.EffectOnList | rocket.hpp:2278-2336 | on a well-formed list each side effect keeps the list well formed. A disconnect drops exactly that node from the order and leaves it unconnected; `clear()` empties the order and leaves no earlier node connected; `connect` adds one node not seen before, holding the slot, at the front or the back; `abort_emission()` leaves the list alone |
| RocketBehaviour.SelfDisconnectContinues | rocket.hpp:2363-2389 | a slot disconnecting itself does not stop the walk: every slot is called once, and the disconnected slot is gone for the next emission |
| RocketBehaviour.DisconnectAheadSkipped | rocket.hpp:2369 | a slot disconnecting a later peer means that peer is not called, and all others are |
| RocketBehaviour.DisconnectBehindCalled | rocket.hpp:2363-2389 | disconnecting an earlier peer does not change the emission; that peer is gone afterwards |
| RocketBehaviour.ConnectFrontNotCalled | rocket.hpp:2278-2285 | a slot connected at the front during an emission is not called by it |
| RocketBehaviour.ConnectBackCalled | rocket.hpp:2278-2285 | a slot connected at the back during an emission is called after all the others |
| RocketBehaviour.ClearEndsEmission | rocket.hpp:2324-2336 | `clear()` from the `i`-th slot ends the walk after it |
| RocketHandles.ConnectedIffListed | rocket.hpp:2040-2043 | `connection::connected()` holds exactly when the handle's node is on the list |
| RocketHandles.ConnectHandle | rocket.hpp:2278-2285 | the returned handle is connected, differs from every earlier handle, and every other handle's state is unchanged |
| RocketHandles.DisconnectDrops | rocket.hpp:2045-2051 | `connection::disconnect` removes the handle's node from the order and resets the handle; a disconnected handle changes nothing |
| RocketHandles.DisconnectNode | rocket.hpp:1841-1857 | disconnecting node `id` removes exactly `id` from the order |
| RocketHandles.DisconnectDropsOrder | rocket.hpp:1841-1857 | the order after a node's disconnect is the order with that node dropped |
| RocketHandles.ScopedDestroyDisconnects | rocket.hpp:2066-2118 | a `scoped_connection` going out of scope disconnects its node |
| RocketHandles.ScopedAssignReplaces | rocket.hpp:2066-2118 | assigning a new connection to a `scoped_connection` disconnects the old one first and keeps the new one connected |
| RocketHandles.AppendListReverses | rocket.hpp:2141-2151 | appending a list of connections to a container pushes each to the front, so they end up in reverse order ahead of the earlier ones |
| RocketHandles.DisconnectEachDrops | rocket.hpp:2167-2170 | destroying a run of scoped connections disconnects exactly the nodes they hold |
| RocketHandles.ContainerDisconnectDrops | rocket.hpp:2167-2170 | `scoped_connection_container::disconnect` disconnects every held handle, empties the container and leaves other nodes alone |
| RocketHandles.ContainerMoveAssignDrops | rocket.hpp:2120-2177 | move assignment disconnects what the target held and takes over the source's handles untouched |
| RocketHandles.TrackedDisconnected | rocket.hpp:2179-2193 | a connection added to a `trackable` is disconnected with it, together with those added earlier |
| RocketHandles.CurrentConnection | rocket.hpp:2195-2198 | `current_connection()` is null exactly outside any slot |
| RocketHandles.AbortEmission | rocket.hpp:2200-2203 | `abort_emission()` raises the abort request and keeps the current connection |
| RocketHandles.EffectsAreHandleCalls | rocket.hpp:2195-2203 | a slot's self-disconnect is `current_connection().disconnect()`, and its abort is `abort_emission()` |
| RocketHandles.DisconnectAfterDestroy | rocket.hpp:2430-2435 | after the signal is destroyed, every handle reports disconnected and `disconnect()` through it changes nothing |
| SimpleSignal.ValidCounted | simple.hpp:1157-1160 | a well-formed list is counted: `size()` equals the number of entries |
| SimpleSignal.CountedValid | simple.hpp:1157-1160 | a counted list with fewer than 2^64 entries is well formed |
| SimpleSignal.EmptyCounted | simple.hpp:1499-1506 | a fresh signal's list is empty and counted |
| SimpleSignal.NullSlotKeeps | simple.hpp:1243-1246 | `functional_connection::disconnect` nulls only that slot; every entry keeps its place |
| SimpleSignal.ConnectCounted | simple.hpp:1528-1540 | `connect` places a fresh connected entry at the front with `first` and at the back otherwise, and keeps `size()` exact |
| SimpleSignal.ClearCounted | simple.hpp:1571-1574 | `clear()` empties the list and sets `size()` to zero |
| SimpleSignal.EraseClosed | simple.hpp:1114-1120 | erasing a link keeps every pointer inside the list, and the iterator returned is one a loop can stand on |
| SimpleSignal.PresentMembers | simple.hpp:1237-1241 | the connected slots are exactly the non-null entries |
| SimpleSignal.ConnectBackValues | simple.hpp:1528-1540 | `connect(slot)` appends exactly one connected entry |
| SimpleSignal.AppendLive | simple.hpp:1499-1506 | appending another signal's entries adds its connected slots, in order, and skips the null ones |
| SimpleSignal.Copy | simple.hpp:1499-1506 | the copy constructor keeps only the connected slots, in order |
| SimpleSignal.CopyAssign | simple.hpp:1514-1526 | copy assignment to itself changes nothing; otherwise the target holds only the source's connected slots, in order |
| SimpleConnection.Lock | simple.hpp:1354-1360 | for a signal at rest, `base.lock()` succeeds only on the handle's own node while that node is on the list |
| SimpleConnection.ConnectHandleConnects | simple.hpp:1528-1540 | the handle `connect` returns is connected to the new entry at the front or back, and earlier connected handles stay connected |
| SimpleConnection.DisconnectEnds | simple.hpp:1362-1368 | `disconnect` nulls the slot and resets the handle, so neither that handle nor a copy is connected; entries and other handles are unchanged |
| SimpleConnection.DisconnectIdempotent | simple.hpp:1362-1368 | disconnecting through a handle a second time changes nothing |
| SimpleConnection.ClearExpiresHandles | simple.hpp:1338-1341 | after `clear()` on a signal at rest no handle is connected, and all compare equal to an empty handle |
| SimpleEmission.InvokeNeverFaults | simple.hpp:1581-1656 | whatever the slots do, an emission on a closed list never leaves it, keeps every link and restores `current_connection` |
| SimpleEmission.GuardedInvokeCounts | simple.hpp:1628-1648 | with the guarded lazy erase, `size()` still counts the entries after any emission |
| SimpleEmission.QuietInvoke | simple.hpp:1589-1609 | with slots that have no side effects, null entries are erased without being called. Every connected entry is called once in list order; the error is raised exactly when one threw |
| SimpleEmission.QuietResults | simple.hpp:1617-1656 | void `invoke` raises exactly when a slot threw. Non-void `invoke` returns the default selector's last value, or with `range` every returned value in order |
| SimpleEmission.RunSafe | simple.hpp:1581-1615 | a slot body keeps the list closed, and counted when the erase is guarded |
| SimpleEmission.LazyEraseSafe | simple.hpp:1628-1648 | the lazy erase keeps the list closed and returns an iterator a loop can stand on |
| SimpleEmission.StaleEraseWrapsSize | simple.hpp:1628-1648 | with the erase as written, an emission in which the first slot calls `clear()` erases the second, already-unlinked entry. `size()` of the empty list then reads 2^64 - 1 |
| SimpleEmission.GuardedStaleEraseCounts | simple.hpp:1628-1648 | with the guarded erase the same emission leaves an empty list whose `size()` is zero |
| SimpleEmission.NestedEraseOfStale | simple.hpp:1628-1648 | on `[x, y]` with `y` disconnected, an emission whose `x` only returns calls `x` once and erases `y`; the erased link keeps its own pointers, as a nested emission leaves it for the outer loop |
| SimpleEmission.ResumeAtErasedEntry | simple.hpp:1628-1648 | the outer loop, resuming on the link the nested emission erased, erases it again as written: `x` is still listed but `size()` reads 0. The guarded erase steps past it and `size()` stays 1 |
| SimpleEmission.LaterEraseWraps | simple.hpp:1114-1120 | once `x` of that undercounted list is disconnected, the next emission erases it and `size()` of the empty list wraps to 2^64 - 1 |
| SimpleSigSignal.Empty | simplesig.hpp:583-598 | a new signal is empty and at rest |
| SimpleSigSignal.ConnectPlaces | simplesig.hpp:634-646 | `connect` pushes a fresh connected entry to the front with `first`, otherwise to the back |
| SimpleSigSignal.NullSlotKeeps | simplesig.hpp:377-421 | disconnecting a node nulls its slot only, and every entry stays in place |
| SimpleSigSignal.ClearDisconnects | simplesig.hpp:665-674 | `clear()` leaves nothing connected: mid-emission it only disconnects and keeps every entry, at rest it empties the deque |
| SimpleSigSignal.CopyKeepsLive | simplesig.hpp:591-598 | the copy holds only the connected slots, in order, each in a fresh node |
| SimpleSigSignal.CopyAssignReplaces | simplesig.hpp:608-624 | copy assignment to itself changes nothing; otherwise the target holds only the source's connected slots |
| SimpleSigSignal.MoveTransfers | simplesig.hpp:583-589 | moving hands the deque over and leaves the source empty; both are at rest, as the source asserts |
| SimpleSigSignal.MoveAssignTransfers | simplesig.hpp:600-606 | move assignment between signals at rest hands the deque over and leaves the source empty |
| SimpleSigSignal.SwapExchanges | simplesig.hpp:676-682 | `swap` of two signals at rest exchanges their deques, and swapping back restores both |
| SimpleSigSignal.Lock | simplesig.hpp:497-503 | `base.lock()` succeeds only on the handle's own node while its entry is in the deque |
| SimpleSigSignal.ConnectHandleConnects | simplesig.hpp:634-646 | the handle `connect` returns is connected and locks its node |
| SimpleSigSignal.DisconnectEnds | simplesig.hpp:505-511 | `disconnect` resets the handle and leaves the node disconnected; a second `disconnect` changes nothing |
| SimpleSigSignal.ClearAndHandles | simplesig.hpp:665-674 | after `clear()` no handle is connected. At rest every node is gone; mid-emission each node still locks |
| SimpleSigEmission.LockReleased | simplesig.hpp:423-437 | an emission at rest releases the `recursion_lock` on every path; one started while locked stops at the assertion and calls nothing |
| SimpleSigEmission.ReentryAsserts | simplesig.hpp:690-722 | a slot that emits the same signal again hits the recursion assertion, after its own call and with the lock released |
| SimpleSigEmission.QuietInvoke | simplesig.hpp:690-722 | with slots that have no side effects, disconnected entries are erased uncalled. Every connected entry is called once in deque order, and the error is raised exactly when one threw |
| SimpleSigEmission.QuietResults | simplesig.hpp:653-663 | `invoke_get_all` returns every value in deque order; the default selector returns the last; both raise exactly when a slot threw |
| SimpleSigEmission.ClearFromFirstSlot | simplesig.hpp:665-674 | `clear()` from the first slot disconnects the rest mid-emission, so nothing more is called and only the disconnected first entry stays |
| SimpleSigEmission.DefaultSelectorsAgree | simplesig.hpp:724-743 | the selector applied to the `get_all` vector gives what rocket.hpp's and simple.hpp's incremental `default_collector` gives over the same values |
| Generations.SimpleGenerationsAgree | simple.hpp:1617-1656 | simple.hpp and simplesig.hpp holding the same connected slots report the same values, error, default result, void result and `range`/`get_all` vector |
| Generations.RocketGenerationsAgree | rocket.hpp:2352-2398 | rocket.hpp and simplesig.hpp holding the same connected slots report the same `invoke` outcome |

## Left out

- Memory management: `intrusive_ptr`, `ref_count`, `shared_ptr` and `weak_ptr`. Nodes are ids in a map and are never reclaimed. A node that is still reachable from a handle or a cursor stays readable, which is what the reference counts guarantee.
- Thread-local storage: `get_thread_local_data` is an explicit `ThreadData` parameter and result, through which `connection_scope` and `current_connection()` are modelled in all three generations. In simple.hpp `current_connection()` builds its handle with `shared_from_this`; the model names the node directly. simple.hpp and simplesig.hpp have no `abort_emission`, so that scripted effect does nothing there.
- Concurrency, `ROCKET_NO_EXCEPTIONS` builds, `max_size`, and the `length_error` from `reserve`. A throwing slot is an outcome flag.
- Slot adaptation: the `connect` overloads for member functions and function pointers, `bind_weak_ptr` and `bind_shared_ptr`. A slot is a scripted behaviour.
- The iterator classes and reverse iterators of `stable_list`; iterators are node pointers.
- Fuel: every emission takes a `fuel` bound. Running out gives the status `OutOfFuel`, and the lemmas require enough fuel for the list at hand. Nested emissions deeper than the fuel allows are not described.
- NDEBUG assertions become preconditions, for example `first` and `last` in `erase(first, last)` bounding a stretch of the list. simplesig.hpp's recursion assertion is the emission status `RecursionAsserted`.
- A slot that disconnects itself in simple.hpp or simplesig.hpp nulls the `std::function` that is running. In C++ that destroys the running callable; the model lets the slot finish.
- A slot that calls `clear()` in simple.hpp or simplesig.hpp destroys the running callable in the same way. In simple.hpp `clear()` releases the running entry's link and so its `connection_base` (simple.hpp:1029-1032, 1122-1136), while the loop holds only raw pointers to it (simple.hpp:1288-1302, 1632). In simplesig.hpp a locked `clear()` nulls the running slot (simplesig.hpp:665-669). The model lets the slot finish, so `SimpleEmission.StaleEraseWrapsSize`, `SimpleSigEmission.ClearFromFirstSlot` and the `SimpleEmission.Walk` line below describe what the code does after that point.
- In simplesig.hpp, a slot that connects a new slot during an emission invalidates the deque iterator, which is undefined behaviour. The model resumes after the entry that was called.
- In simple.hpp, `signal::swap` calls `connections.swap`, but simple.hpp's `stable_list` has no `swap` member, so the call cannot compile. It is not modelled; rocket.hpp's `swap` is.
- simple.hpp's move constructor and move assignment of `signal`, and rocket.hpp's `stable_list::swap`: a pure exchange of members, shown through `RocketSignal.Swap`.
- Handles of one signal used on another signal are not modelled; every handle refers to the signal it is applied to. Node ids are numbered per signal, not allocated globally: copy construction numbers the copies from 0, and simplesig.hpp's move assignment (`SimpleSigSignal.MoveAssign`) and `swap` carry the source's ids over. So a handle to a node the target held before a move assignment can name a node of the new contents when the ids coincide, where in C++ it would have expired.
- SimpleConnection.Lock: `lock()` is modelled as "the node is on the list", which is exact only outside an emission. During an emission the loop's iterator has already moved to the next link and keeps it alive (simple.hpp:1639). A handle to that node still locks in C++ after a nested emission erases it, or after `clear()`, until the loop moves on; the model reports it gone. `SimpleConnection.ClearExpiresHandles` is stated for a signal at rest for the same reason.
- RocketEmission.Walk: rocket.hpp steps from a node disconnected mid-emission through its stale `next`. A slot connected at the back after that point is not visited, although a slot connected while the cursor sits on a connected node is. The model follows the code.
- SimpleEmission.Walk: in simple.hpp the cursor has already moved to the next entry when a slot runs, so `clear()` from a slot still lets that next entry run once. The model follows the code.
- RocketBehaviour.OneEffect: stated for one side effect at one slot. Interleavings of several side effects are covered only by the safety lemmas `RocketEmission.InvokeSafe` and `SimpleEmission.InvokeNeverFaults`.

## Findings

| source | as written | input that shows it | evidently intended | confidence | as-written member | corrected member |
|---|---|---|---|---|---|---|
| simple.hpp:1628-1648 | the lazy erase in `invoke` calls `erase` on an entry whose slot is null even when `clear()` already unlinked it. `stable_list::erase` (simple.hpp:1114-1120) then decrements `elements` a second time, and the `size_t` wraps | a signal holding `[x, y]` where `y` was disconnected before the emission and `x`'s slot calls `clear()`: afterwards the list is empty but `size()` is 2^64 - 1, and the next `range` collector's `hint(size())` asks `reserve` for that much. That input passes through a `clear()` from a running slot, which destroys the slot in C++ (see "Left out"). The same double erase happens without it when `x`'s slot emits the signal again once: the nested emission erases `y`, the outer loop, whose iterator already stands on `y`, erases it again and `size()` reads 0 with `x` still listed, and once `x` is disconnected the next emission wraps `size()` (`SimpleEmission.NestedEraseOfStale`, `SimpleEmission.ResumeAtErasedEntry`, `SimpleEmission.LaterEraseWraps`). A slot that re-emits only on its first call needs state, which scripted slots do not have, so that chain is proved step by step rather than as one emission | skip an entry that is no longer linked, so `size()` keeps counting the entries | medium, not executed | SimpleEmission.StaleEraseWrapsSize | SimpleEmission.GuardedStaleEraseCounts |
