/**
 * The client's fixed-window request limiter (`checkRateLimit` in
 * frontend/src/services/mockBackend.ts). Two browser-storage items hold the
 * number of requests in the current window and the window's start, both as
 * decimal text. A call restarts the window when more than an hour has passed,
 * refuses when the window is full, and otherwise counts itself.
 */
module RateLimit {
  import opened Common
  import opened Text

  /** One hour in milliseconds. */
  const WindowMs: nat := 3600 * 1000

  /** The capacity the client service passes (mockBackend.ts); constants.ts declares 20 but nothing reads it there. */
  const ClientCapacity: nat := 50

  /** The stored count and window start as a call sees them. */
  datatype Window = Window(count: nat, start: nat)

  /**
   * The window a call at `now` works with: a missing count reads as 0, a
   * missing start as `now`, and a window that started more than an hour ago
   * restarts empty at `now`.
   */
  function CurrentWindow(count: Option<nat>, start: Option<nat>, now: nat): Window {
    var c := count.GetOr(0);
    var t := start.GetOr(now);
    if now - t > WindowMs then Window(0, now) else Window(c, t)
  }

  /** The answer of one call and the stored count and start after it. */
  datatype Decision = Decision(allowed: bool, count: Option<nat>, start: Option<nat>)

  /** One call of the limiter with the given capacity: refuse and write nothing, or count the call. */
  function Step(count: Option<nat>, start: Option<nat>, now: nat, capacity: nat): (d: Decision)
    ensures d.allowed ==> d.count.Some? && 1 <= d.count.value <= capacity && d.start.Some?
    ensures !d.allowed ==> d.count == count && d.start == start
  {
    var w := CurrentWindow(count, start, now);
    if w.count >= capacity then Decision(false, count, start)
    else Decision(true, Some(w.count + 1), Some(w.start))
  }

  /** The number the text of a stored item stands for. */
  function Stored(item: Option<string>): Option<nat> {
    match item
    case None => None
    case Some(text) => Some(LeadingInt(text))
  }

  /** An item is absent or holds the decimal text of a number, which is all this code writes. */
  predicate Numeral(item: Option<string>) {
    item.Some? ==> item.value == NatToString(LeadingInt(item.value))
  }

  /** The two storage items the limiter owns. */
  class RateLimitStore {
    var countItem: Option<string>
    var startItem: Option<string>

    predicate Valid()
      reads this
    {
      Numeral(countItem) && Numeral(startItem)
    }

    function Count(): Option<nat>
      reads this
    {
      Stored(countItem)
    }

    function Start(): Option<nat>
      reads this
    {
      Stored(startItem)
    }

    /** Storage that holds neither item yet. */
    constructor()
      ensures Valid() && Count() == None && Start() == None
    {
      countItem := None;
      startItem := None;
    }

    /** `checkRateLimit()` at time `now`: the answer and the stored items are those of Step. */
    method CheckRateLimit(now: nat, capacity: nat) returns (allowed: bool)
      requires Valid()
      modifies this
      ensures Valid()
      ensures Step(old(Count()), old(Start()), now, capacity) == Decision(allowed, Count(), Start())
    {
      var count: nat := if countItem.Some? && countItem.value != "" then LeadingInt(countItem.value) else 0;
      var start: nat := if startItem.Some? && startItem.value != "" then LeadingInt(startItem.value) else now;
      ReadItem(countItem, 0);
      ReadItem(startItem, now);
      if now - start > 3600 * 1000 {
        count := 0;
        start := now;
      }
      assert Window(count, start) == CurrentWindow(Count(), Start(), now);
      ghost var d := Step(Count(), Start(), now, capacity);
      if count >= capacity {
        return false;
      }
      assert d == Decision(true, Some(count + 1), Some(start));
      NumeralReadsBack(count + 1);
      NumeralReadsBack(start);
      countItem := Some(NatToString(count + 1));
      startItem := Some(NatToString(start));
      allowed := true;
    }
  }

  /** A stored item is read as its number, or as the default when it is absent; it is never empty. */
  lemma ReadItem(item: Option<string>, default: nat)
    requires Numeral(item)
    ensures (if item.Some? && item.value != "" then LeadingInt(item.value) else default) == Stored(item).GetOr(default)
  {
    if item.Some? {
      assert |NatToString(LeadingInt(item.value))| >= 1;
    }
  }

  /** What the limiter writes reads back as the number written. */
  lemma NumeralReadsBack(n: nat)
    ensures Numeral(Some(NatToString(n))) && Stored(Some(NatToString(n))) == Some(n)
  {
    LeadingIntOfNumeral(n, "");
    assert NatToString(n) + "" == NatToString(n);
  }

  /**
   * A missing count reads as 0 and a missing start as now; within an hour of
   * its start the window is kept, and it restarts only when more than an hour
   * (strictly) has passed: exactly one hour later it is still the same window.
   */
  lemma WindowRestart(count: Option<nat>, t: nat, now: nat)
    ensures CurrentWindow(None, None, now) == Window(0, now)
    ensures now <= t + WindowMs ==> CurrentWindow(count, Some(t), now) == Window(count.GetOr(0), t)
    ensures now > t + WindowMs ==> CurrentWindow(count, Some(t), now) == Window(0, now)
    ensures CurrentWindow(count, Some(t), t + WindowMs) == Window(count.GetOr(0), t)
  {
  }

  /**
   * A call is refused exactly when the window it sees is full; a refused call
   * leaves both items as they were, and an allowed one stores the window's
   * count plus one and its start.
   */
  lemma Decide(count: Option<nat>, start: Option<nat>, now: nat, capacity: nat)
    ensures var d := Step(count, start, now, capacity);
      var w := CurrentWindow(count, start, now);
      && (!d.allowed <==> w.count >= capacity)
      && (!d.allowed ==> d.count == count && d.start == start)
      && (d.allowed ==> d.count == Some(w.count + 1) && d.start == Some(w.start))
  {
  }

  /** The number of calls at `times`, in order, that a store holding `count` and `start` lets through. */
  function Allowed(count: Option<nat>, start: Option<nat>, times: seq<nat>, capacity: nat): nat
    decreases |times|
  {
    if times == [] then 0
    else
      var d := Step(count, start, times[0], capacity);
      (if d.allowed then 1 else 0) + Allowed(d.count, d.start, times[1..], capacity)
  }

  function Min(a: nat, b: nat): nat {
    if a <= b then a else b
  }

  /**
   * Within one window the limiter lets through exactly as many calls as the
   * window has room for: the first `capacity - c` calls, and none after them.
   */
  lemma {:induction false} WindowBudget(c: nat, t: nat, times: seq<nat>, capacity: nat)
    requires forall i :: 0 <= i < |times| ==> times[i] <= t + WindowMs
    ensures Allowed(Some(c), Some(t), times, capacity) == Min(|times|, if c >= capacity then 0 else capacity - c)
    decreases |times|
  {
    if times != [] {
      assert CurrentWindow(Some(c), Some(t), times[0]) == Window(c, t);
      var d := Step(Some(c), Some(t), times[0], capacity);
      var c' := if d.allowed then c + 1 else c;
      assert d.count == Some(c') && d.start == Some(t);
      WindowBudget(c', t, times[1..], capacity);
    }
  }

  /**
   * From empty storage, the calls of the first hour (counted from the first
   * call) get exactly `min(calls, capacity)` answers of yes.
   */
  lemma FreshStoreBudget(times: seq<nat>, capacity: nat)
    requires |times| >= 1
    requires forall i :: 0 <= i < |times| ==> times[i] <= times[0] + WindowMs
    ensures Allowed(None, None, times, capacity) == Min(|times|, capacity)
  {
    var t := times[0];
    if capacity > 0 {
      assert Step(None, None, t, capacity) == Decision(true, Some(1), Some(t));
      WindowBudget(1, t, times[1..], capacity);
    } else {
      assert Step(None, None, t, capacity) == Decision(false, None, None);
      assert Allowed(None, None, times, capacity) == Allowed(None, None, times[1..], capacity);
      ZeroCapacityRefusesAll(None, None, times[1..]);
    }
  }

  /** With capacity 0 nothing is ever let through. */
  lemma {:induction false} ZeroCapacityRefusesAll(count: Option<nat>, start: Option<nat>, times: seq<nat>)
    ensures Allowed(count, start, times, 0) == 0
    decreases |times|
  {
    if times != [] {
      ZeroCapacityRefusesAll(count, start, times[1..]);
    }
  }

  /** Once the window has run out, the next call opens a new one and is let through. */
  lemma ExpiredWindowAllows(count: Option<nat>, t: nat, now: nat, capacity: nat)
    requires capacity > 0 && now - t > WindowMs
    ensures Step(count, Some(t), now, capacity) == Decision(true, Some(1), Some(now))
  {
  }

  /**
   * The capacity matters: after 20 calls in a window, the client's limit of 50
   * lets the 21st through where the 20 of constants.ts would refuse it.
   */
  lemma CapacityTwentyVersusFifty(t: nat, now: nat)
    requires t <= now <= t + WindowMs
    ensures Step(Some(20), Some(t), now, ClientCapacity).allowed
    ensures !Step(Some(20), Some(t), now, 20).allowed
  {
  }
}
