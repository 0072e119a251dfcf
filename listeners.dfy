/**
 * An ordered registry of callbacks with a "pre" and a "post" invocation pass.
 *
 * The manager keeps a map from listener IDs to (callback, mode) holders, the
 * registration order of those IDs, and a counter from which IDs are issued.
 * The callback type T is opaque to the manager.
 */
module Listeners {

  /** Outcome of a pre-phase callback. The codes are ordered by value; a callback
      may return any integer, and only the order between values matters. */
  type PluginResult = int

  const Continue: PluginResult := 0
  const Changed: PluginResult := 1
  const Handled: PluginResult := 2
  const Stop: PluginResult := 3

  /** The phase a listener runs in. Any other value is stored but never invoked. */
  type HookMode = int

  const Pre: HookMode := 0
  const Post: HookMode := 1

  type ListenerID = int

  /** A registered callback together with the phase it was registered for. */
  datatype Holder<T> = Holder(callback: T, mode: HookMode)

  ghost predicate NoDuplicates(s: seq<ListenerID>) {
    forall i, j :: 0 <= i < j < |s| ==> s[i] != s[j]
  }

  /** IDs are issued in increasing order, so registration order is ascending. */
  ghost predicate Ascending(s: seq<ListenerID>) {
    forall i, j :: 0 <= i < j < |s| ==> s[i] < s[j]
  }

  lemma AscendingCons(x: ListenerID, t: seq<ListenerID>)
    requires Ascending(t)
    requires forall y :: y in t ==> x < y
    ensures Ascending([x] + t)
  {
    forall i, j | 0 <= i < j < |[x] + t| ensures ([x] + t)[i] < ([x] + t)[j] {
      assert ([x] + t)[j] == t[j - 1];
      if i > 0 {
        assert ([x] + t)[i] == t[i - 1];
      } else {
        assert t[j - 1] in t;
      }
    }
  }

  // ---------------------------------------------------------------------------
  // Removal from the order sequence
  // ---------------------------------------------------------------------------

  /** The order sequence with every occurrence of `x` removed. */
  function Without(s: seq<ListenerID>, x: ListenerID): seq<ListenerID> {
    if s == [] then []
    else if s[0] == x then Without(s[1..], x)
    else [s[0]] + Without(s[1..], x)
  }

  /** Removal drops `x` and keeps every other ID. */
  lemma {:induction false} WithoutMembers(s: seq<ListenerID>, x: ListenerID)
    ensures forall y :: y in Without(s, x) <==> y in s && y != x
    ensures |Without(s, x)| <= |s|
  {
    if s != [] {
      WithoutMembers(s[1..], x);
      assert s == [s[0]] + s[1..];
    }
  }

  /** Removal keeps the relative order of the remaining IDs: it works piecewise. */
  lemma {:induction false} WithoutAppend(a: seq<ListenerID>, b: seq<ListenerID>, x: ListenerID)
    ensures Without(a + b, x) == Without(a, x) + Without(b, x)
  {
    if a == [] {
      assert a + b == b;
    } else {
      assert (a + b)[0] == a[0];
      assert (a + b)[1..] == a[1..] + b;
      WithoutAppend(a[1..], b, x);
    }
  }

  /** Removing an ID that is not there changes nothing. */
  lemma {:induction false} WithoutAbsent(s: seq<ListenerID>, x: ListenerID)
    requires x !in s
    ensures Without(s, x) == s
  {
    if s != [] {
      assert s[1..] + [] == s[1..];
      assert x !in s[1..];
      WithoutAbsent(s[1..], x);
      assert [s[0]] + s[1..] == s;
    }
  }

  /** In a sequence without duplicates, an element occurs neither before nor after its position. */
  lemma DistinctAt(s: seq<ListenerID>, k: nat)
    requires NoDuplicates(s)
    requires k < |s|
    ensures s[k] !in s[..k] && s[k] !in s[k + 1..]
  {
    var a, b := s[..k], s[k + 1..];
    forall y | y in a ensures y != s[k] {
      var i :| 0 <= i < |a| && a[i] == y;
      assert s[i] == y;
    }
    forall y | y in b ensures y != s[k] {
      var i :| 0 <= i < |b| && b[i] == y;
      assert s[k + 1 + i] == y;
    }
  }

  /** In a sequence without duplicates, removal takes out exactly the one occurrence. */
  lemma WithoutOccurrence(s: seq<ListenerID>, k: nat, x: ListenerID)
    requires NoDuplicates(s)
    requires k < |s| && s[k] == x
    ensures Without(s, x) == s[..k] + s[k + 1..]
  {
    var a, b := s[..k], s[k + 1..];
    assert s == a + ([x] + b);
    DistinctAt(s, k);
    WithoutAppend(a, [x] + b, x);
    WithoutAbsent(a, x);
    assert ([x] + b)[0] == x && ([x] + b)[1..] == b;
    WithoutAbsent(b, x);
  }

  /** Removal keeps the order sequence ascending. */
  lemma {:induction false} WithoutAscending(s: seq<ListenerID>, x: ListenerID)
    requires Ascending(s)
    ensures Ascending(Without(s, x))
  {
    if s != [] {
      assert Ascending(s[1..]);
      WithoutAscending(s[1..], x);
      WithoutMembers(s[1..], x);
      forall y | y in Without(s[1..], x) ensures s[0] < y {
        var i :| 0 <= i < |s[1..]| && s[1..][i] == y;
        assert s[i + 1] == y;
      }
      if s[0] != x {
        AscendingCons(s[0], Without(s[1..], x));
      }
    }
  }

  // ---------------------------------------------------------------------------
  // Selecting the listeners of one phase
  // ---------------------------------------------------------------------------

  /** The IDs of `s`, in their order, whose holder is registered for `mode`. */
  function WithMode<T>(s: seq<ListenerID>, m: map<ListenerID, Holder<T>>, mode: HookMode): seq<ListenerID> {
    if s == [] then []
    else if s[0] in m && m[s[0]].mode == mode then [s[0]] + WithMode(s[1..], m, mode)
    else WithMode(s[1..], m, mode)
  }

  /** Exactly the IDs of `s` registered for `mode` are selected; no other phase's listener is. */
  lemma {:induction false} WithModeMembers<T>(s: seq<ListenerID>, m: map<ListenerID, Holder<T>>, mode: HookMode)
    ensures forall y :: y in WithMode(s, m, mode) <==> y in s && y in m && m[y].mode == mode
    ensures |WithMode(s, m, mode)| <= |s|
  {
    if s != [] {
      WithModeMembers(s[1..], m, mode);
      assert s == [s[0]] + s[1..];
    }
  }

  /** A walk over `s` that has selected `done` from `s[..i]` and meets a listener of `mode` at `s[i]`. */
  lemma WithModeTake<T>(s: seq<ListenerID>, i: nat, m: map<ListenerID, Holder<T>>, mode: HookMode, done: seq<ListenerID>)
    requires i < |s| && s[i] in m && m[s[i]].mode == mode
    ensures done + WithMode(s[i..], m, mode) == (done + [s[i]]) + WithMode(s[i + 1..], m, mode)
  {
    assert s[i..][0] == s[i] && s[i..][1..] == s[i + 1..];
    var rest := WithMode(s[i + 1..], m, mode);
    assert done + ([s[i]] + rest) == (done + [s[i]]) + rest;
  }

  /** A walk whose selection so far plus what remains is `whole` has selected a prefix of `whole`. */
  lemma SelectedPrefix(done: seq<ListenerID>, rest: seq<ListenerID>, whole: seq<ListenerID>)
    requires done + rest == whole
    ensures done <= whole
    ensures rest == [] ==> done == whole
  {
    assert whole[..|done|] == done;
  }

  /** A walk over `s` that meets a listener of another phase at `s[i]` passes it by. */
  lemma WithModeSkip<T>(s: seq<ListenerID>, i: nat, m: map<ListenerID, Holder<T>>, mode: HookMode)
    requires i < |s| && !(s[i] in m && m[s[i]].mode == mode)
    ensures WithMode(s[i..], m, mode) == WithMode(s[i + 1..], m, mode)
  {
    assert s[i..][0] == s[i] && s[i..][1..] == s[i + 1..];
  }

  /** Phase selection keeps relative order: it works piecewise. */
  lemma {:induction false} WithModeAppend<T>(a: seq<ListenerID>, b: seq<ListenerID>, m: map<ListenerID, Holder<T>>, mode: HookMode)
    ensures WithMode(a + b, m, mode) == WithMode(a, m, mode) + WithMode(b, m, mode)
  {
    if a == [] {
      assert a + b == b;
    } else {
      assert (a + b)[0] == a[0];
      assert (a + b)[1..] == a[1..] + b;
      WithModeAppend(a[1..], b, m, mode);
    }
  }

  /** The listeners of one phase are visited in ascending ID order, hence each once. */
  lemma {:induction false} WithModeAscending<T>(s: seq<ListenerID>, m: map<ListenerID, Holder<T>>, mode: HookMode)
    requires Ascending(s)
    ensures Ascending(WithMode(s, m, mode))
  {
    if s != [] {
      assert Ascending(s[1..]);
      WithModeAscending(s[1..], m, mode);
      WithModeMembers(s[1..], m, mode);
      forall y | y in WithMode(s[1..], m, mode) ensures s[0] < y {
        var i :| 0 <= i < |s[1..]| && s[1..][i] == y;
        assert s[i + 1] == y;
      }
      if s[0] in m && m[s[0]].mode == mode {
        AscendingCons(s[0], WithMode(s[1..], m, mode));
      }
    }
  }

  /** A newly added listener runs last in its own phase and leaves the other phase's list as it was. */
  lemma {:induction false} WithModeAfterAdd<T>(s: seq<ListenerID>, m: map<ListenerID, Holder<T>>, x: ListenerID, h: Holder<T>, mode: HookMode)
    requires x !in s
    ensures WithMode(s + [x], m[x := h], mode)
         == WithMode(s, m, mode) + (if h.mode == mode then [x] else [])
  {
    if s == [] {
      assert s + [x] == [x];
    } else {
      assert (s + [x])[0] == s[0];
      assert (s + [x])[1..] == s[1..] + [x];
      assert x !in s[1..];
      WithModeAfterAdd(s[1..], m, x, h, mode);
    }
  }

  /** Removing a listener takes it out of its phase's list and nothing else. */
  lemma {:induction false} WithModeAfterRemove<T>(s: seq<ListenerID>, m: map<ListenerID, Holder<T>>, x: ListenerID, mode: HookMode)
    ensures WithMode(Without(s, x), m - {x}, mode) == Without(WithMode(s, m, mode), x)
  {
    if s != [] {
      WithModeAfterRemove(s[1..], m, x, mode);
      var rest := WithMode(s[1..], m, mode);
      if s[0] in m && m[s[0]].mode == mode {
        assert ([s[0]] + rest)[0] == s[0];
        assert ([s[0]] + rest)[1..] == rest;
      }
      if s[0] != x {
        assert ([s[0]] + Without(s[1..], x))[0] == s[0];
        assert ([s[0]] + Without(s[1..], x))[1..] == Without(s[1..], x);
      }
    }
  }

  // ---------------------------------------------------------------------------
  // Invoking callbacks
  // ---------------------------------------------------------------------------

  /** The callbacks registered under `ids`, in that order (an unregistered ID contributes none). */
  function Callbacks<T>(ids: seq<ListenerID>, m: map<ListenerID, Holder<T>>): seq<T> {
    if ids == [] then []
    else
      var last := ids[|ids| - 1];
      Callbacks(ids[..|ids| - 1], m) + (if last in m then [m[last].callback] else [])
  }

  lemma CallbacksSnoc<T>(ids: seq<ListenerID>, x: ListenerID, m: map<ListenerID, Holder<T>>)
    requires x in m
    ensures Callbacks(ids + [x], m) == Callbacks(ids, m) + [m[x].callback]
  {
    assert (ids + [x])[..|ids|] == ids;
  }

  /** What `f` returns for each of `cbs`, in that order. */
  function Outcomes<T>(cbs: seq<T>, f: T -> PluginResult): seq<PluginResult> {
    if cbs == [] then [] else Outcomes(cbs[..|cbs| - 1], f) + [f(cbs[|cbs| - 1])]
  }

  lemma OutcomesSnoc<T>(cbs: seq<T>, cb: T, f: T -> PluginResult)
    ensures Outcomes(cbs + [cb], f) == Outcomes(cbs, f) + [f(cb)]
  {
    assert (cbs + [cb])[..|cbs|] == cbs;
  }

  /** The aggregate of a run of pre-phase results, folded left to right as the
      pre pass does: a result replaces the aggregate when it is larger. */
  function MaxResult(rs: seq<PluginResult>): PluginResult {
    if rs == [] then Continue
    else
      var acc := MaxResult(rs[..|rs| - 1]);
      if rs[|rs| - 1] > acc then rs[|rs| - 1] else acc
  }

  /** The aggregate is the largest of Continue and all the results. */
  lemma {:induction false} MaxResultIsMax(rs: seq<PluginResult>)
    ensures Continue <= MaxResult(rs)
    ensures forall k :: 0 <= k < |rs| ==> rs[k] <= MaxResult(rs)
    ensures MaxResult(rs) == Continue || MaxResult(rs) in rs
  {
    if rs != [] {
      var init := rs[..|rs| - 1];
      MaxResultIsMax(init);
      assert forall k :: 0 <= k < |init| ==> rs[k] == init[k];
      assert rs == init + [rs[|rs| - 1]];
    }
  }

  /** One step of the fold: a new result replaces the aggregate when it is larger. */
  lemma MaxResultSnoc(rs: seq<PluginResult>, x: PluginResult)
    ensures MaxResult(rs + [x]) == if x > MaxResult(rs) then x else MaxResult(rs)
  {
    assert (rs + [x])[..|rs|] == rs;
  }

  /** The aggregate only grows as more results come in. */
  lemma {:induction false} MaxResultPrefix(rs: seq<PluginResult>, k: nat)
    requires k <= |rs|
    ensures MaxResult(rs[..k]) <= MaxResult(rs)
  {
    if k < |rs| {
      assert rs[..|rs| - 1][..k] == rs[..k];
      MaxResultPrefix(rs[..|rs| - 1], k);
    } else {
      assert rs[..k] == rs;
    }
  }

  /** An aggregate below `bound` was below it at every earlier point. */
  lemma BelowAllAlong(rs: seq<PluginResult>, bound: PluginResult)
    requires MaxResult(rs) < bound
    ensures forall k :: 0 <= k <= |rs| ==> MaxResult(rs[..k]) < bound
  {
    forall k | 0 <= k <= |rs| ensures MaxResult(rs[..k]) < bound {
      MaxResultPrefix(rs, k);
    }
  }

  /** A pass that was below `bound` before its last result never reached it earlier. */
  lemma BelowBeforeLast(before: seq<PluginResult>, last: PluginResult, bound: PluginResult)
    requires MaxResult(before) < bound
    ensures forall k :: 0 <= k < |before + [last]| ==> MaxResult((before + [last])[..k]) < bound
  {
    BelowAllAlong(before, bound);
    forall k | 0 <= k < |before + [last]| ensures MaxResult((before + [last])[..k]) < bound {
      assert (before + [last])[..k] == before[..k];
    }
  }

  /**
   * What a pre pass may report, stated on results alone: `all` is what every
   * pre-phase callback would return, in order; `seen` is what the pass actually
   * obtained and `r` what it reports. The pass reads a prefix of `all`, reports
   * its largest result (at least Continue), had not reached Handled before its
   * last result, and stops short of the end only once it has reached Handled.
   */
  ghost predicate PreRun(all: seq<PluginResult>, seen: seq<PluginResult>, r: PluginResult) {
    && seen <= all
    && r == MaxResult(seen)
    && (forall k :: 0 <= k < |seen| ==> MaxResult(seen[..k]) < Handled)
    && (|seen| < |all| ==> Handled <= r)
  }

  /** What PreRun implies for the report alone: it is at least Continue, and
      below Handled only as the maximum over all the results. */
  ghost predicate PreReport(all: seq<PluginResult>, r: PluginResult) {
    Continue <= r && (r < Handled ==> r == MaxResult(all))
  }

  /** The results determine the pre pass: only one prefix and one report fit PreRun. */
  lemma PreRunUnique(all: seq<PluginResult>, s1: seq<PluginResult>, r1: PluginResult,
                     s2: seq<PluginResult>, r2: PluginResult)
    requires PreRun(all, s1, r1) && PreRun(all, s2, r2)
    ensures s1 == s2 && r1 == r2
  {
    // Both are prefixes of `all`, so they agree up to the shorter length; the
    // longer one was still below Handled there, which the shorter one's stop forbids.
    var n := if |s1| < |s2| then |s1| else |s2|;
    assert s1[..n] == all[..n] == s2[..n];
    assert s1 == all[..|s1|] && s2 == all[..|s2|];
  }

  /** A pass that reports less than Handled has seen every result. */
  lemma PreRunBelowHandledSeesAll(all: seq<PluginResult>, seen: seq<PluginResult>, r: PluginResult)
    requires PreRun(all, seen, r) && r < Handled
    ensures seen == all
  {
  }

  /** A pass that reports Handled or more stops at the first result that reaches it. */
  lemma PreRunStopsAtFirstHandled(all: seq<PluginResult>, seen: seq<PluginResult>, r: PluginResult)
    requires PreRun(all, seen, r) && Handled <= r
    ensures 0 < |seen| && Handled <= seen[|seen| - 1]
    ensures forall k :: 0 <= k < |seen| - 1 ==> seen[k] < Handled
  {
    assert seen != [];
    var init := seen[..|seen| - 1];
    assert seen == init + [seen[|seen| - 1]];
    MaxResultIsMax(init);
  }

  /** The pre pass on a few result sequences. */
  lemma PreRunExamples(seen: seq<PluginResult>, r: PluginResult)
    ensures PreRun([], seen, r) ==> seen == [] && r == Continue
    ensures PreRun([Continue, Changed, Continue], seen, r) ==> seen == [Continue, Changed, Continue] && r == Changed
    ensures PreRun([Continue, Handled, Changed], seen, r) ==> seen == [Continue, Handled] && r == Handled
    ensures PreRun([Changed, Stop, Handled], seen, r) ==> seen == [Changed, Stop] && r == Stop
    ensures PreRun([Stop, Continue], seen, r) ==> seen == [Stop] && r == Stop
  {
  }

  /** With every ID registered, there is one callback, and so one result, per ID. */
  lemma {:induction false} OutcomesLength<T>(ids: seq<ListenerID>, m: map<ListenerID, Holder<T>>, f: T -> PluginResult)
    requires forall x :: x in ids ==> x in m
    ensures |Outcomes(Callbacks(ids, m), f)| == |ids|
  {
    if ids != [] {
      var init := ids[..|ids| - 1];
      var last := ids[|ids| - 1];
      assert last in ids;
      assert forall x :: x in init ==> x in ids;
      OutcomesLength(init, m, f);
      OutcomesSnoc(Callbacks(init, m), m[last].callback, f);
    }
  }

  /** Running a prefix of the IDs yields a prefix of the results of running them all. */
  lemma {:induction false} OutcomesPrefix<T>(a: seq<ListenerID>, b: seq<ListenerID>, m: map<ListenerID, Holder<T>>, f: T -> PluginResult)
    requires a <= b
    requires forall x :: x in b ==> x in m
    ensures Outcomes(Callbacks(a, m), f) <= Outcomes(Callbacks(b, m), f)
    decreases |b|
  {
    if |a| < |b| {
      var init := b[..|b| - 1];
      assert a <= init;
      var last := b[|b| - 1];
      assert last in b;
      assert forall x :: x in init ==> x in b;
      OutcomesPrefix(a, init, m, f);
      var cb := m[last].callback;
      assert Callbacks(b, m) == Callbacks(init, m) + [cb];
      OutcomesSnoc(Callbacks(init, m), cb, f);
      var ra, ri := Outcomes(Callbacks(a, m), f), Outcomes(Callbacks(init, m), f);
      assert (ri + [f(cb)])[..|ra|] == ri[..|ra|];
    } else {
      assert a == b[..|a|] == b;
    }
  }

  /** One pre-phase listener met by the walk over `s` at position i: it joins the
      selection, and its result is folded into the running maximum. */
  lemma PreStep<T>(s: seq<ListenerID>, i: nat, m: map<ListenerID, Holder<T>>, f: T -> PluginResult,
                   visited: seq<ListenerID>, pre: seq<ListenerID>)
    requires i < |s| && s[i] in m && m[s[i]].mode == Pre
    requires visited + WithMode(s[i..], m, Pre) == pre
    ensures (visited + [s[i]]) + WithMode(s[i + 1..], m, Pre) == pre
    ensures (visited + [s[i]])[..|visited|] == visited
    ensures var r := MaxResult(Outcomes(Callbacks(visited, m), f));
            var x := f(m[s[i]].callback);
            MaxResult(Outcomes(Callbacks(visited + [s[i]], m), f)) == if x > r then x else r
  {
    WithModeTake(s, i, m, Pre, visited);
    CallbacksSnoc(visited, s[i], m);
    OutcomesSnoc(Callbacks(visited, m), m[s[i]].callback, f);
    MaxResultSnoc(Outcomes(Callbacks(visited, m), f), f(m[s[i]].callback));
  }

  /** A pass whose maximum was below Handled before its last callback ran never
      reached Handled before that point. */
  lemma PassBelowHandled<T>(visited: seq<ListenerID>, m: map<ListenerID, Holder<T>>, f: T -> PluginResult, r: PluginResult)
    requires forall x :: x in visited ==> x in m
    requires r == MaxResult(Outcomes(Callbacks(visited, m), f))
    requires visited != [] && Handled <= r ==> MaxResult(Outcomes(Callbacks(visited[..|visited| - 1], m), f)) < Handled
    ensures var rs := Outcomes(Callbacks(visited, m), f);
            forall k :: 0 <= k < |rs| ==> MaxResult(rs[..k]) < Handled
  {
    if r < Handled {
      BelowAllAlong(Outcomes(Callbacks(visited, m), f), Handled);
    } else if visited != [] {
      var init, last := visited[..|visited| - 1], visited[|visited| - 1];
      assert visited == init + [last];
      CallbacksSnoc(init, last, m);
      OutcomesSnoc(Callbacks(init, m), m[last].callback, f);
      BelowBeforeLast(Outcomes(Callbacks(init, m), f), f(m[last].callback), Handled);
    }
  }

  /** A pass over a prefix `visited` of the registered IDs `ids` that meets the pre
      pass's stopping rule is a PreRun over the results of all of `ids`. */
  lemma PassIsPreRun<T>(visited: seq<ListenerID>, rest: seq<ListenerID>, ids: seq<ListenerID>,
                        m: map<ListenerID, Holder<T>>, f: T -> PluginResult, r: PluginResult)
    requires visited + rest == ids
    requires forall x :: x in ids ==> x in m
    requires r == MaxResult(Outcomes(Callbacks(visited, m), f))
    requires visited != [] && Handled <= r ==> MaxResult(Outcomes(Callbacks(visited[..|visited| - 1], m), f)) < Handled
    requires rest != [] ==> Handled <= r
    ensures visited <= ids
    ensures PreRun(Outcomes(Callbacks(ids, m), f), Outcomes(Callbacks(visited, m), f), r)
    ensures PreReport(Outcomes(Callbacks(ids, m), f), r)
  {
    SelectedPrefix(visited, rest, ids);
    assert forall x :: x in visited ==> x in ids by {
      forall x | x in visited ensures x in ids {
        var k :| 0 <= k < |visited| && visited[k] == x;
        assert ids[k] == x;
      }
    }
    PassBelowHandled(visited, m, f, r);
    OutcomesPrefix(visited, ids, m, f);
    OutcomesLength(visited, m, f);
    OutcomesLength(ids, m, f);
    MaxResultIsMax(Outcomes(Callbacks(visited, m), f));
    if r < Handled {
      PreRunBelowHandledSeesAll(Outcomes(Callbacks(ids, m), f), Outcomes(Callbacks(visited, m), f), r);
    }
  }

  // ---------------------------------------------------------------------------
  // The manager
  // ---------------------------------------------------------------------------

  class ListenerManager<T> {
    var listeners: map<ListenerID, Holder<T>>
    var order: seq<ListenerID>
    var id: ListenerID

    /** The order sequence and the map describe the same IDs, the order holds each
        ID once and ascending, and every ID issued so far is below the counter. */
    ghost predicate Valid()
      reads this
      ensures Valid() ==> Registered() && NoDuplicates(order)
    {
      && 0 <= id
      && Ascending(order)
      && (forall x :: x in order <==> x in listeners)
      && (forall x :: x in order ==> 0 <= x < id)
    }

    /** Every ID in the order sequence has a holder in the map: the part of
        Valid() that the invocation passes rely on. */
    ghost predicate Registered()
      reads this
    {
      forall x :: x in order ==> x in listeners
    }

    /** A manager with no listeners whose first ID will be 0. */
    constructor ()
      ensures Valid()
      ensures listeners == map[] && order == [] && id == 0
    {
      listeners := map[];
      order := [];
      id := 0;
    }

    /** Registers `callback` for `mode` under a fresh ID, which is returned. */
    method Add(callback: T, mode: HookMode) returns (lid: ListenerID)
      requires Valid()
      modifies this
      ensures Valid()
      ensures lid == old(id) && id == old(id) + 1
      ensures lid !in old(listeners) && lid !in old(order)
      ensures listeners == old(listeners)[lid := Holder(callback, mode)]
      ensures order == old(order) + [lid]
    {
      lid := id;
      forall i, j | 0 <= i < j < |order + [lid]| ensures (order + [lid])[i] < (order + [lid])[j] {
        assert order[i] in order;
      }
      listeners := listeners[lid := Holder(callback, mode)];
      order := order + [lid];
      id := id + 1;
    }

    /** Unregisters the listener `index`; an unknown ID is a no-op. */
    method Remove(index: ListenerID)
      requires Valid()
      modifies this
      ensures Valid()
      ensures listeners == old(listeners) - {index}
      ensures order == Without(old(order), index)
      ensures id == old(id)
      ensures index !in old(listeners) ==> listeners == old(listeners) && order == old(order)
    {
      if index !in order {
        WithoutAbsent(order, index);
      }
      WithoutAscending(order, index);
      WithoutMembers(order, index);
      listeners := listeners - {index};
      order := Without(order, index);
    }

    /**
     * Runs the pre-phase callbacks in registration order, feeding each to
     * `invokeFunc`, and returns the largest result seen (at least Continue).
     * It stops right after the first callback that brings that maximum to
     * Handled or above. `visited` records the IDs whose callbacks were run:
     * a prefix of the pre-phase IDs, whose results form the PreRun over the
     * results of every pre-phase callback.
     */
    method InvokePre(invokeFunc: T -> PluginResult) returns (finalResult: PluginResult, ghost visited: seq<ListenerID>)
      requires Registered()
      ensures visited <= WithMode(order, listeners, Pre)
      ensures PreRun(Outcomes(Callbacks(WithMode(order, listeners, Pre), listeners), invokeFunc),
                     Outcomes(Callbacks(visited, listeners), invokeFunc), finalResult)
      ensures PreReport(Outcomes(Callbacks(WithMode(order, listeners, Pre), listeners), invokeFunc), finalResult)
    {
      ghost var pre := WithMode(order, listeners, Pre);
      ghost var rest: seq<ListenerID> := [];
      finalResult := Continue;
      visited := [];
      var i := 0;
      assert order[0..] == order;
      while i < |order|
        invariant 0 <= i <= |order|
        invariant visited + WithMode(order[i..], listeners, Pre) == pre
        invariant finalResult == MaxResult(Outcomes(Callbacks(visited, listeners), invokeFunc)) < Handled
      {
        var idx := order[i];
        var holder := listeners[idx];
        if holder.mode == Pre {
          var result := invokeFunc(holder.callback);
          if result > finalResult {
            finalResult := result;
          }
          PreStep(order, i, listeners, invokeFunc, visited, pre);
          visited := visited + [idx];
          if finalResult >= Handled {
            rest := WithMode(order[i + 1..], listeners, Pre);
            break;
          }
        } else {
          WithModeSkip(order, i, listeners, Pre);
        }
        i := i + 1;
      }
      if finalResult < Handled {
        assert order[i..] == [];
        rest := WithMode(order[i..], listeners, Pre);
      }
      WithModeMembers(order, listeners, Pre);
      PassIsPreRun(visited, rest, pre, listeners, invokeFunc, finalResult);
    }

    /**
     * Runs every post-phase callback once, in registration order, with no early
     * exit. `calls` is the sequence of callbacks handed to the invoke function;
     * `visited` records their IDs.
     */
    method InvokePost() returns (calls: seq<T>, ghost visited: seq<ListenerID>)
      requires Registered()
      ensures visited == WithMode(order, listeners, Post)
      ensures calls == Callbacks(WithMode(order, listeners, Post), listeners)
    {
      calls := [];
      visited := [];
      var i := 0;
      assert order[0..] == order;
      while i < |order|
        invariant 0 <= i <= |order|
        invariant visited + WithMode(order[i..], listeners, Post) == WithMode(order, listeners, Post)
        invariant calls == Callbacks(visited, listeners)
      {
        var idx := order[i];
        var holder := listeners[idx];
        if holder.mode == Post {
          WithModeTake(order, i, listeners, Post, visited);
          CallbacksSnoc(visited, idx, listeners);
          calls := calls + [holder.callback];
          visited := visited + [idx];
        } else {
          WithModeSkip(order, i, listeners, Post);
        }
        i := i + 1;
      }
      assert order[i..] == [];
    }
  }
}
