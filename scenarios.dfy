/**
 * Clients of the manager that check, from the contracts alone, the behaviour
 * the manager promises to its users.
 */
module Scenarios {
  import opened Listeners
  import RemoveAsWritten

  /** A new manager: the pre pass yields Continue and the post pass runs nothing. */
  method FreshManagerInvokesNothing<T>(invokeFunc: T -> PluginResult) returns (r: PluginResult, calls: seq<T>)
    ensures r == Continue && calls == []
  {
    var m := new ListenerManager<T>();
    ghost var visited;
    r, visited := m.InvokePre(invokeFunc);
    calls, visited := m.InvokePost();
  }

  /** IDs start at 0 and go up by one per registration; a removed ID is not reissued. */
  method IdsAreNeverReused<T>(cb: T) returns (a: ListenerID, b: ListenerID, c: ListenerID)
    ensures a == 0 && b == 1 && c == 2
  {
    var m := new ListenerManager<T>();
    a := m.Add(cb, Pre);
    b := m.Add(cb, Post);
    m.Remove(a);
    m.Remove(a);
    c := m.Add(cb, Pre);
  }

  /** The results of running two registered IDs in order. */
  lemma OutcomesOfTwo<T>(x: ListenerID, y: ListenerID, ls: map<ListenerID, Holder<T>>, f: T -> PluginResult)
    requires x in ls && y in ls
    ensures Outcomes(Callbacks([x, y], ls), f) == [f(ls[x].callback), f(ls[y].callback)]
  {
    CallbacksSnoc([], x, ls);
    CallbacksSnoc([x], y, ls);
    OutcomesSnoc([], ls[x].callback, f);
    OutcomesSnoc([ls[x].callback], ls[y].callback, f);
  }

  /** A pre pass over two registered listeners whose first result is Stop runs the first only. */
  lemma StopFirstOfTwo<T>(x: ListenerID, y: ListenerID, ls: map<ListenerID, Holder<T>>, f: T -> PluginResult,
                          visited: seq<ListenerID>, r: PluginResult)
    requires x in ls && y in ls && f(ls[x].callback) == Stop
    requires visited <= [x, y]
    requires PreRun(Outcomes(Callbacks([x, y], ls), f), Outcomes(Callbacks(visited, ls), f), r)
    ensures r == Stop && visited == [x]
  {
    var all := Outcomes(Callbacks([x, y], ls), f);
    OutcomesOfTwo(x, y, ls, f);
    assert [Stop][..0] == [] && all[..1] == [Stop];
    PreRunUnique(all, Outcomes(Callbacks(visited, ls), f), r, [Stop], Stop);
    assert forall z :: z in visited ==> z in [x, y];
    OutcomesLength(visited, ls, f);
    assert visited == [x, y][..1];
  }

  /** Two pre listeners, the first of whose callbacks makes the invoke function
      return Stop: the pre pass runs that one only and reports Stop. */
  method PreStopsAtFirst<T>(cb1: T, cb2: T, f: T -> PluginResult) returns (r: PluginResult, ghost visited: seq<ListenerID>)
    requires f(cb1) == Stop
    ensures r == Stop && visited == [0]
  {
    var m := new ListenerManager<T>();
    var a := m.Add(cb1, Pre);
    ghost var m1, o1 := m.listeners, m.order;
    assert o1 == [0] && m1 == map[0 := Holder(cb1, Pre)];
    WithModeAfterAdd([], map[], 0, Holder(cb1, Pre), Pre);
    var b := m.Add(cb2, Pre);
    ghost var ls := m.listeners;
    assert m.order == [0, 1] && ls == m1[1 := Holder(cb2, Pre)];
    WithModeAfterAdd([0], m1, 1, Holder(cb2, Pre), Pre);
    assert WithMode(m.order, ls, Pre) == [0, 1];
    r, visited := m.InvokePre(f);
    StopFirstOfTwo(0, 1, ls, f, visited, r);
  }

  /** The reachable state on which the source's Remove fails: after registering two
      listeners and removing the first, removing the second panics. */
  method RemoveAfterRemove<T>(cb: T) returns (order: seq<ListenerID>)
    ensures order == [1]
    ensures RemoveAsWritten.DeleteFuncAsWritten(order, 1) == RemoveAsWritten.None
    ensures Without(order, 1) == []
  {
    var m := new ListenerManager<T>();
    var a := m.Add(cb, Pre);
    var b := m.Add(cb, Post);
    m.Remove(a);
    order := m.order;
    RemoveAsWritten.RemoveAfterRemovePanics();
  }
}
