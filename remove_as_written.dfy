/**
 * The removal of an ID from the order sequence as the source writes it.
 *
 * The source removes with Go's `slices.DeleteFunc`, whose deletion test is
 * handed each ELEMENT of the order slice (an ID) but uses it as a POSITION
 * into that same slice, which DeleteFunc is compacting in place. This module
 * models that call step by step and shows that on every state the manager can
 * reach it either agrees with removal by value (while `order[k] == k` for
 * every k, i.e. while the order is exactly [0, 1, ..., |order| - 1]) or fails
 * with an out-of-range index, whatever the ID removed.
 */
module RemoveAsWritten {
  import opened Listeners

  datatype Option<X> = None | Some(value: X)

  /** The deletion test as written: `order[e] == index`, read from the slice as it
      stands at that moment. `None` is Go's index-out-of-range panic. */
  function PositionalTest(buf: seq<ListenerID>, e: ListenerID, index: ListenerID): (r: Option<bool>)
    ensures r.None? <==> !(0 <= e < |buf|)
    ensures 0 <= e < |buf| && buf[e] == e ==> r == Some(e == index)
  {
    if 0 <= e < |buf| then Some(buf[e] == index) else None
  }

  /** DeleteFunc's first phase: the position of the first element the test deletes
      from position `k` on, or `|buf|` when there is none. */
  function ScanAsWritten(buf: seq<ListenerID>, index: ListenerID, k: nat): (r: Option<nat>)
    requires k <= |buf|
    ensures r.Some? ==> k <= r.value <= |buf|
    decreases |buf| - k
  {
    if k == |buf| then Some(k)
    else match PositionalTest(buf, buf[k], index)
      case None => None
      case Some(true) => Some(k)
      case Some(false) => ScanAsWritten(buf, index, k + 1)
  }

  /** DeleteFunc's second phase: elements at `j` and after that the test keeps are
      copied down to position `i`, in the slice the test itself reads. */
  function CompactAsWritten(buf: seq<ListenerID>, index: ListenerID, i: nat, j: nat): (r: Option<seq<ListenerID>>)
    requires i < j <= |buf|
    ensures r.Some? ==> i <= |r.value| <= i + (|buf| - j)
    ensures r.Some? ==> r.value[..i] == buf[..i]
    decreases |buf| - j
  {
    if j == |buf| then Some(buf[..i])
    else
      var v := buf[j];
      match PositionalTest(buf, v, index)
        case None => None
        case Some(true) => CompactAsWritten(buf, index, i, j + 1)
        case Some(false) => CompactAsWritten(buf[i := v], index, i + 1, j + 1)
  }

  /** The new order sequence after the source's Remove(index), or None when it panics. */
  function DeleteFuncAsWritten(order: seq<ListenerID>, index: ListenerID): (r: Option<seq<ListenerID>>)
    ensures r.Some? ==> r.value == order || |r.value| < |order|
  {
    match ScanAsWritten(order, index, 0)
      case None => None
      case Some(p) => if p == |order| then Some(order) else CompactAsWritten(order, index, p, p + 1)
  }

  // ---------------------------------------------------------------------------
  // While every ID sits at its own position, the positional test is harmless
  // ---------------------------------------------------------------------------

  ghost predicate Identity(s: seq<ListenerID>) {
    forall k :: 0 <= k < |s| ==> s[k] == k
  }

  lemma {:induction false} ScanOnIdentity(buf: seq<ListenerID>, index: ListenerID, k: nat)
    requires Identity(buf) && k <= |buf|
    ensures ScanAsWritten(buf, index, k) == Some(if k <= index < |buf| then index else |buf|)
    decreases |buf| - k
  {
    if k < |buf| && buf[k] != index {
      ScanOnIdentity(buf, index, k + 1);
    }
  }

  lemma {:induction false} CompactOnIdentity(buf: seq<ListenerID>, index: ListenerID, i: nat, j: nat)
    requires i < j <= |buf| && index < j
    requires forall p :: j <= p < |buf| ==> buf[p] == p
    ensures CompactAsWritten(buf, index, i, j) == Some(buf[..i] + buf[j..])
    decreases |buf| - j
  {
    if j == |buf| {
      assert buf[..i] + buf[j..] == buf[..i];
    } else {
      assert buf[j] == j && PositionalTest(buf, buf[j], index) == Some(false);
      var next := buf[i := j];
      CompactOnIdentity(next, index, i + 1, j + 1);
      assert next[..i + 1] + next[j + 1..] == buf[..i] + buf[j..];
    }
  }

  /** Before any removal the source's Remove removes by value, as documented. */
  lemma AgreesOnIdentity(order: seq<ListenerID>, index: ListenerID)
    requires Identity(order)
    ensures DeleteFuncAsWritten(order, index) == Some(Without(order, index))
  {
    ScanOnIdentity(order, index, 0);
    if 0 <= index < |order| {
      CompactOnIdentity(order, index, index, index + 1);
      WithoutOccurrence(order, index, index);
    } else {
      WithoutAbsent(order, index);
    }
  }

  // ---------------------------------------------------------------------------
  // Once the last ID lies beyond the end of the order, every removal panics
  // ---------------------------------------------------------------------------

  ghost predicate LastOutOfRange(s: seq<ListenerID>) {
    |s| > 0 && !(0 <= s[|s| - 1] < |s|)
  }

  lemma {:induction false} ScanStopsEarly(buf: seq<ListenerID>, index: ListenerID, k: nat)
    requires LastOutOfRange(buf) && k < |buf|
    ensures match ScanAsWritten(buf, index, k)
      case None => true
      case Some(p) => k <= p < |buf| - 1
    decreases |buf| - k
  {
    if PositionalTest(buf, buf[k], index) == Some(false) {
      ScanStopsEarly(buf, index, k + 1);
    }
  }

  lemma {:induction false} CompactPanics(buf: seq<ListenerID>, index: ListenerID, i: nat, j: nat)
    requires LastOutOfRange(buf) && i < j < |buf|
    ensures CompactAsWritten(buf, index, i, j) == None
    decreases |buf| - j
  {
    if j < |buf| - 1 {
      var v := buf[j];
      if PositionalTest(buf, v, index) == Some(true) {
        CompactPanics(buf, index, i, j + 1);
      } else if PositionalTest(buf, v, index) == Some(false) {
        CompactPanics(buf[i := v], index, i + 1, j + 1);
      }
    }
  }

  /** When the last ID is not a valid position, the source's Remove panics, whatever the ID. */
  lemma PanicsWhenLastOutOfRange(order: seq<ListenerID>, index: ListenerID)
    requires LastOutOfRange(order)
    ensures DeleteFuncAsWritten(order, index) == None
  {
    ScanStopsEarly(order, index, 0);
    match ScanAsWritten(order, index, 0)
      case None =>
      case Some(p) => CompactPanics(order, index, p, p + 1);
  }

  // ---------------------------------------------------------------------------
  // On the states the manager reaches, these are the only two cases
  // ---------------------------------------------------------------------------

  lemma {:induction false} AscendingSpread(s: seq<ListenerID>, i: nat, j: nat)
    requires Ascending(s) && i <= j < |s|
    ensures s[j] - s[i] >= j - i
    decreases j - i
  {
    if i < j {
      AscendingSpread(s, i, j - 1);
    }
  }

  /** On an ascending order of non-negative IDs the source's Remove behaves as
      documented exactly while every ID sits at its own position, and panics otherwise. */
  lemma AsWrittenOnReachableOrder(order: seq<ListenerID>, index: ListenerID)
    requires Ascending(order)
    requires forall x :: x in order ==> 0 <= x
    ensures Identity(order) ==> DeleteFuncAsWritten(order, index) == Some(Without(order, index))
    ensures !Identity(order) ==> DeleteFuncAsWritten(order, index) == None
  {
    if Identity(order) {
      AgreesOnIdentity(order, index);
    } else {
      var n := |order|;
      var k :| 0 <= k < n && order[k] != k;
      assert order[0] in order;
      AscendingSpread(order, 0, k);
      AscendingSpread(order, k, n - 1);
      PanicsWhenLastOutOfRange(order, index);
    }
  }

  /** The smallest such state: IDs 0 and 1 registered and 0 removed. Removing 1 by
      value leaves nothing; the source's Remove panics. */
  lemma RemoveAfterRemovePanics()
    ensures Without([1], 1) == []
    ensures DeleteFuncAsWritten([0, 1], 0) == Some([1])
    ensures DeleteFuncAsWritten([1], 1) == None
  {
    AgreesOnIdentity([0, 1], 0);
    WithoutOccurrence([0, 1], 0, 0);
    assert [0, 1][..0] + [0, 1][1..] == [1];
    PanicsWhenLastOutOfRange([1], 1);
  }
}
