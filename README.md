# Listener manager

A model of the generic `ListenerManager[T]` in `listeners.go`. The manager is a registry of callbacks. Each callback is registered for one of two phases, `Pre` or `Post`, under a fresh `ListenerID`. The manager holds three pieces of state:

- `listeners`, a map from ID to a holder of (callback, mode);
- `order`, the IDs in registration order;
- `id`, the counter from which the next ID is taken.

It has four operations:

- `Add` stores a holder under the next ID and appends that ID to `order`.
- `Remove` deletes an ID from the map and from `order`.
- `InvokePre` hands each `Pre` callback, in order, to a caller-supplied function. It keeps the largest `PluginResult` returned (`Continue < Changed < Handled < Stop`). It stops as soon as that maximum reaches `Handled`.
- `InvokePost` hands every `Post` callback, in order, to a caller-supplied function, with no early exit.

Files:

- `listeners.dfy` (module `Listeners`) holds the class `ListenerManager<T>` and the functions its contracts are stated in:
  - `Without` is removal of an ID by value;
  - `WithMode` selects one phase's IDs from `order`;
  - `Callbacks` and `Outcomes` give the callbacks and their results;
  - `MaxResult` is the pre pass's running maximum;
  - `PreRun` states, on result sequences alone, what a pre pass may report.

  The class invariant `Valid()` covers three facts. `order` and the map's keys hold the same IDs. `order` is strictly ascending, so it has no duplicates. Every ID is non-negative and below the counter.
- `remove_as_written.dfy` (module `RemoveAsWritten`) models `Remove` as the code writes it. This is Go's `slices.DeleteFunc` with a test that uses each element as a position. It is modelled step by step and compared with removal by value (see Findings).
- `scenarios.dfy` (module `Scenarios`) holds short client methods that use only the contracts: a fresh manager, ID allocation across removals, a pre pass that stops at its first listener, and the removal sequence that makes the as-written code panic.

`Remove` is modelled as its doc comment describes it (listeners.go:71): every occurrence of the ID leaves `order`. The code at listeners.go:76-78 does something else. The model follows the documented behaviour and records the code's behaviour as a finding.

## Model

| member | source | states |
|---|---|---|
| Listeners.ListenerManager.constructor | listeners.go:44-48 | a new manager has an empty map, an empty order and counter 0, and satisfies the invariant |
| Listeners.ListenerManager.Add | listeners.go:53-68 | returns the old counter and raises it by exactly one; the returned ID was not in use; the map gains exactly that ID with (callback, mode); order is the old order with the ID appended; the invariant is preserved |
| Listeners.ListenerManager.Remove | listeners.go:70-81 | the map loses the ID; order loses every occurrence of it; the counter is unchanged; an unknown ID leaves the state unchanged; the invariant is preserved |
| Listeners.ListenerManager.InvokePre | listeners.go:83-111 | the callbacks run are a prefix of the Pre-mode IDs in order; the result is the maximum of Continue and their results; the maximum was below Handled before the last one ran; the pass stops early only once it reaches Handled, so a report below Handled is the maximum over every Pre callback; the state is unchanged |
| Listeners.ListenerManager.InvokePost | listeners.go:113-129 | exactly the Post-mode callbacks are passed on, each once, in registration order; the state is unchanged |
| Listeners.WithoutMembers | listeners.go:71 | removal by value keeps exactly the IDs other than the removed one and never lengthens the sequence |
| Listeners.WithoutAppend | listeners.go:75-78 | removal by value works piecewise over concatenation, so the relative order of the remaining IDs is preserved |
| Listeners.WithoutAbsent | listeners.go:71 | removing an ID that is not present leaves the order unchanged |
| Listeners.WithoutOccurrence | listeners.go:75-78 | in a duplicate-free order, removing the ID at position k is the same as cutting out position k |
| Listeners.WithoutAscending | listeners.go:75-78 | removal by value keeps the order ascending |
| Listeners.WithModeMembers | listeners.go:92-94 | a phase selects exactly the registered IDs of that mode from order, so no other phase's listener is passed on |
| Listeners.WithModeAppend | listeners.go:92-94 | phase selection works piecewise, so it keeps registration order |
| Listeners.WithModeAscending | listeners.go:121-123 | the selected IDs are ascending, so each listener is visited once |
| Listeners.WithModeAfterAdd | listeners.go:57-62 | after Add, the new ID is last in its own phase's list and the other phase's list is unchanged |
| Listeners.WithModeAfterRemove | listeners.go:75-78 | after Remove, a phase's list is the old list without the removed ID |
| Listeners.MaxResultIsMax | listeners.go:91-99 | the running maximum is at least Continue, at least every result, and is Continue or one of the results |
| Listeners.MaxResultPrefix | listeners.go:97-99 | the running maximum never decreases as more results come in |
| Listeners.PreRunUnique | listeners.go:92-103 | the pre-pass contract fixes the outcome: for given results only one stopping point and one report satisfy it |
| Listeners.PreRunBelowHandledSeesAll | listeners.go:101-103 | a pre pass that reports less than Handled has run every Pre callback |
| Listeners.PreRunStopsAtFirstHandled | listeners.go:101-103 | a pre pass that reports Handled or more stops right after the first result that is Handled or more |
| Listeners.PreRunExamples | listeners.go:83-87 | worked cases: no Pre listeners gives Continue; Continue, Changed, Continue gives Changed after all three; Continue, Handled, Changed stops after two with Handled; Changed, Stop, Handled stops after two with Stop; Stop first stops after one with Stop |
| Listeners.OutcomesPrefix | listeners.go:92-95 | running a prefix of the IDs yields a prefix of the results of running them all |
| Listeners.OutcomesLength | listeners.go:93-95 | with every ID registered there is one result per ID |
| Listeners.PassIsPreRun | listeners.go:92-103 | a pass over a prefix of the Pre IDs that follows the stopping rule is a PreRun over the results of all Pre callbacks; its report is at least Continue, and a report below Handled is the maximum over all of them |
| RemoveAsWritten.PositionalTest | listeners.go:76-78 | the deletion closure `cm.order[i] == index`, with the element used as a position: it fails exactly when the element is not a valid position; while the element sits at its own position it is the by-value test `e == index` |
| RemoveAsWritten.CompactAsWritten | listeners.go:76-78 | DeleteFunc's in-place compaction, with the test reading the slice being compacted: it fails, or it keeps the slots before the write position and yields at most one element per slot still to be read |
| RemoveAsWritten.DeleteFuncAsWritten | listeners.go:76-78 | the order after the code's Remove, or None where the test indexes out of range: a result is either the old order unchanged or shorter than it; AsWrittenOnReachableOrder relates it to removal by value |
| RemoveAsWritten.ScanAsWritten | listeners.go:76-78 | the first phase of DeleteFunc returns a position within the slice, or fails |
| RemoveAsWritten.AgreesOnIdentity | listeners.go:76-78 | while every ID sits at its own position, the code's removal equals removal by value |
| RemoveAsWritten.PanicsWhenLastOutOfRange | listeners.go:76-78 | once the last ID is not a valid position in order, the code's removal indexes out of range for any argument |
| RemoveAsWritten.AsWrittenOnReachableOrder | listeners.go:76-78 | on any ascending order of non-negative IDs, the code's removal agrees with removal by value exactly while every ID sits at its own position, and panics otherwise |
| RemoveAsWritten.RemoveAfterRemovePanics | listeners.go:76-78 | with IDs 0 and 1 registered, removing 0 gives [1]; removing 1 from [1] then panics where removal by value gives [] |
| Scenarios.FreshManagerInvokesNothing | listeners.go:44-48 | on a new manager the pre pass returns Continue and the post pass calls nothing |
| Scenarios.IdsAreNeverReused | listeners.go:56-67 | IDs are issued 0, 1, 2 across two removals of the first, so a removed ID is never reissued |
| Scenarios.StopFirstOfTwo | listeners.go:92-103 | on two registered listeners whose first result is Stop, the pre-pass contract leaves only one outcome: the first alone is run and Stop is reported |
| Scenarios.PreStopsAtFirst | listeners.go:88-111 | a manager with two Pre listeners, the first returning Stop: InvokePre runs ID 0 only and returns Stop |
| Scenarios.RemoveAfterRemove | listeners.go:72-78 | Add twice and remove the first: the manager reaches order [1], on which the code's removal of 1 panics |

## Left out

- The `sync.RWMutex` and all locking are left out (listeners.go:40, 54, 65, 73, 80, 89, 107, 121, 128). Each operation is modelled as one atomic step. The deadlock a callback causes by calling back into the manager is not modelled either.
- Listeners.ListenerManager.Add: the counter is an unbounded integer. The `int32` wrap-around after 2^31 registrations, which would reissue IDs, is not modelled.
- `PluginResult`, `HookMode` and `ListenerID` are unbounded integers rather than `int32`. A callback may return any value, and only the order between values matters. A mode other than `Pre` or `Post` is stored but run by neither pass, as in the code.
- Listeners.ListenerManager.InvokePre: the invoke function is a pure function `T -> PluginResult`. Side effects of the callbacks and of the invoke function are not modelled. A ghost `visited` records which callbacks ran.
- Listeners.ListenerManager.InvokePost: the invoke function is dropped. The method returns the sequence of callbacks it would be handed, in order.
- Listeners.ListenerManager.InvokePre and Listeners.ListenerManager.InvokePost require every ID in order to be registered. The class invariant guarantees this. The code's zero-value holder lookup for an unregistered ID (listeners.go:93, 122) cannot happen on valid states and is not modelled.
- Listeners.ListenerManager.Remove: modelled as removal by value, as its doc comment describes. The code's positional test is modelled separately in `RemoveAsWritten`. The rest of the model does not use it. The panic inside `Remove` leaving the mutex locked is not modelled.

## Findings

| source | as written | input that shows it | evidently intended | confidence | as-written member | corrected member |
|---|---|---|---|---|---|---|
| listeners.go:76-78 | the `DeleteFunc` test gets each ID and reads `cm.order[i]` with it as a position, in the slice being compacted | `Add`, `Add`, `Remove(0)` leaves order [1]; then `Remove(1)` indexes order[1] out of range and panics. On every ascending order whose IDs are not all at their own positions, removal panics for any argument | remove every occurrence of the ID from order, as the doc comment at listeners.go:71 says | high; not executed | RemoveAsWritten.DeleteFuncAsWritten, RemoveAsWritten.RemoveAfterRemovePanics | Listeners.ListenerManager.Remove |
