/** The relay's daily byte ceiling. */
module Budget {
  const DAY: nat := 86400

  /** Midnight of the day a moment lies in, rounding towards the past. */
  function DayOf(now: int): int {
    now - now % DAY
  }

  datatype Window = Window(day: int, used: nat)

  function Roll(w: Window, now: int): Window {
    if DayOf(now) != w.day then Window(DayOf(now), 0) else w
  }

  /** One charge: the new window, and whether the day's budget is now exceeded. */
  function ChargeStep(w: Window, limit: nat, now: int, n: nat): (Window, bool) {
    if limit == 0 then (w, false)
    else
      var r := Roll(w, now);
      (r.(used := r.used + n), r.used + n > limit)
  }

  class DayBudget {
    const limit: nat  // zero: unlimited
    var day: int
    var used: nat

    function View(): Window
      reads this
    {
      Window(day, used)
    }

    constructor (limit: nat)
      ensures this.limit == limit && View() == Window(0, 0)
    {
      this.limit, day, used := limit, 0, 0;
    }

    method RollTo(now: int)
      modifies this
      ensures View() == Roll(old(View()), now)
    {
      var d := DayOf(now);
      if d != day {
        day := d;
        used := 0;
      }
    }

    method Charge(now: int, n: nat) returns (exceeded: bool)
      modifies this
      ensures (View(), exceeded) == ChargeStep(old(View()), limit, now, n)
    {
      if limit == 0 {
        return false;
      }
      RollTo(now);
      used := used + n;
      return used > limit;
    }

    method Exhausted(now: int) returns (spent: bool)
      modifies this
      ensures limit == 0 ==> !spent && View() == old(View())
      ensures limit > 0 ==> View() == Roll(old(View()), now) && (spent <==> View().used >= limit)
    {
      if limit == 0 {
        return false;
      }
      RollTo(now);
      return used >= limit;
    }

    /** What a metrics scrape reads; it moves the window too, whatever the limit. */
    method UsedToday(now: int) returns (n: nat)
      modifies this
      ensures View() == Roll(old(View()), now) && n == View().used
    {
      RollTo(now);
      return used;
    }
  }

  // ---- whole runs ----

  /** Every access to the budget, in order: a charge, an allocation's look whether it is spent, a metrics scrape. */
  datatype Ask = Charge(now: int, n: nat) | Peek(now: int) | Scrape(now: int)

  function After(asks: seq<Ask>, limit: nat): Window {
    if asks == [] then Window(0, 0)
    else
      var w := After(asks[..|asks| - 1], limit);
      match asks[|asks| - 1]
      case Charge(now, n) => ChargeStep(w, limit, now, n).0
      case Peek(now) => if limit == 0 then w else Roll(w, now)
      case Scrape(now) => Roll(w, now)
  }

  predicate Passed(asks: seq<Ask>, limit: nat, i: nat)
    requires i < |asks|
  {
    asks[i].Charge? && !ChargeStep(After(asks[..i], limit), limit, asks[i].now, asks[i].n).1
  }

  /** The bytes charged to a day that were let through. */
  function PassedOn(asks: seq<Ask>, limit: nat, day: int): nat {
    if asks == [] then 0
    else
      var i := |asks| - 1;
      PassedOn(asks[..i], limit, day) + (if Passed(asks, limit, i) && DayOf(asks[i].now) == day then asks[i].n else 0)
  }

  /** No charge comes back to a day it was charged on once any access, of whatever kind, has moved the window to another. */
  ghost predicate ChargesGrouped(asks: seq<Ask>) {
    forall i, j, k :: 0 <= i < j < k < |asks| && asks[i].Charge? && asks[k].Charge? && DayOf(asks[i].now) == DayOf(asks[k].now) ==>
      DayOf(asks[j].now) == DayOf(asks[i].now)
  }

  ghost predicate TimesRise(asks: seq<Ask>) {
    forall i, j :: 0 <= i < j < |asks| ==> asks[i].now <= asks[j].now
  }

  lemma DayOfRises(a: int, b: int)
    requires a <= b
    ensures DayOf(a) <= DayOf(b)
  {
  }

  lemma RisingTimesAreGrouped(asks: seq<Ask>)
    requires TimesRise(asks)
    ensures ChargesGrouped(asks)
  {
    hide DayOf;
    forall i, j, k | 0 <= i < j < k < |asks| && DayOf(asks[i].now) == DayOf(asks[k].now)
      ensures DayOf(asks[j].now) == DayOf(asks[i].now)
    {
      DayOfRises(asks[i].now, asks[j].now);
      DayOfRises(asks[j].now, asks[k].now);
    }
  }

  /** A day was charged, and then some access moved the window away from it. */
  ghost predicate Left(asks: seq<Ask>, day: int) {
    exists i, j :: 0 <= i < j < |asks| && asks[i].Charge? && DayOf(asks[i].now) == day && DayOf(asks[j].now) != day
  }

  /** The bytes charged to a day, let through or not. */
  function ChargedOn(asks: seq<Ask>, day: int): nat {
    if asks == [] then 0
    else
      var last := asks[|asks| - 1];
      ChargedOn(asks[..|asks| - 1], day) + (if last.Charge? && DayOf(last.now) == day then last.n else 0)
  }

  lemma {:induction false} NothingChargedOn(asks: seq<Ask>, limit: nat, day: int)
    requires forall i :: 0 <= i < |asks| && asks[i].Charge? ==> DayOf(asks[i].now) != day
    ensures ChargedOn(asks, day) == 0 && PassedOn(asks, limit, day) == 0
  {
    hide DayOf, After;
    if asks != [] {
      NothingChargedOn(asks[..|asks| - 1], limit, day);
    }
  }

  lemma LeftStays(asks: seq<Ask>, n: nat, day: int)
    requires n <= |asks|
    ensures Left(asks[..n], day) ==> Left(asks, day)
  {
    hide DayOf;
    if Left(asks[..n], day) {
      var i, j :| 0 <= i < j < n && asks[..n][i].Charge? && DayOf(asks[..n][i].now) == day && DayOf(asks[..n][j].now) != day;
      assert asks[..n][i] == asks[i] && asks[..n][j] == asks[j];
    }
  }

  /** Until a charged day is left, the window is its whole charge, the datagrams not forwarded included. */
  lemma {:induction false} WindowIsDayTotal(asks: seq<Ask>, limit: nat, day: int)
    requires limit > 0 && !Left(asks, day)
    ensures var w := After(asks, limit);
            && ChargedOn(asks, day) == (if w.day == day then w.used else 0)
            && PassedOn(asks, limit, day) <= ChargedOn(asks, day)
  {
    hide DayOf;
    if asks == [] {
      assert After(asks, limit) == Window(0, 0);
    } else {
      var front, last := asks[..|asks| - 1], asks[|asks| - 1];
      LeftStays(asks, |asks| - 1, day);
      WindowIsDayTotal(front, limit, day);
      if DayOf(last.now) != day {
        forall i | 0 <= i < |front| && front[i].Charge?
          ensures DayOf(front[i].now) != day
        {
          assert asks[i] == front[i] && asks[|asks| - 1] == last;
        }
        NothingChargedOn(front, limit, day);
      }
    }
  }

  /** No charge meets a day already left. */
  lemma NotLeftAtCharge(asks: seq<Ask>, k: nat)
    requires ChargesGrouped(asks) && k < |asks| && asks[k].Charge?
    ensures !Left(asks[..k], DayOf(asks[k].now)) && !Left(asks[..k + 1], DayOf(asks[k].now))
  {
    hide DayOf;
  }

  /** A charge is let through exactly while its day's charges, itself included, are within the limit. */
  lemma PassesExactlyWithinLimit(asks: seq<Ask>, limit: nat, i: nat)
    requires limit > 0 && ChargesGrouped(asks) && i < |asks| && asks[i].Charge?
    ensures Passed(asks, limit, i) <==> ChargedOn(asks[..i + 1], DayOf(asks[i].now)) <= limit
  {
    hide DayOf;
    assert asks[..i + 1][..i] == asks[..i] && asks[..i + 1][i] == asks[i];
    NotLeftAtCharge(asks, i);
    WindowIsDayTotal(asks[..i], limit, DayOf(asks[i].now));
  }

  lemma GroupedPrefix(asks: seq<Ask>, n: nat)
    requires ChargesGrouped(asks) && n <= |asks|
    ensures ChargesGrouped(asks[..n])
  {
    hide DayOf;
  }

  /** Then no day lets more through than the limit. */
  lemma {:induction false} DayWithinLimit(asks: seq<Ask>, limit: nat, day: int)
    requires limit > 0 && ChargesGrouped(asks)
    ensures PassedOn(asks, limit, day) <= limit
  {
    hide DayOf, ChargesGrouped;
    if asks != [] {
      var n := |asks| - 1;
      GroupedPrefix(asks, n);
      DayWithinLimit(asks[..n], limit, day);
      if Passed(asks, limit, n) && DayOf(asks[n].now) == day {
        NotLeftAtCharge(asks, n);
        assert asks[..n + 1] == asks;
        WindowIsDayTotal(asks, limit, day);
        PassesExactlyWithinLimit(asks, limit, n);
      }
    }
  }

  /** With accesses in time order, no day lets more through than the limit. */
  lemma DayNeverOverLimit(asks: seq<Ask>, limit: nat, day: int)
    requires limit > 0 && TimesRise(asks)
    ensures PassedOn(asks, limit, day) <= limit
  {
    RisingTimesAreGrouped(asks);
    DayWithinLimit(asks, limit, day);
  }

  // ---- a charge that comes back ----

  /** The same kinds of access at the same times, whatever was charged. */
  ghost predicate SameAccesses(asks: seq<Ask>, shape: seq<Ask>) {
    |asks| == |shape| && forall i :: 0 <= i < |asks| ==>
      && asks[i].now == shape[i].now
      && (asks[i].Charge? <==> shape[i].Charge?) && (asks[i].Peek? <==> shape[i].Peek?)
  }

  /** These accesses with the same amount charged every time. */
  function Uniform(shape: seq<Ask>, n: nat): (asks: seq<Ask>)
    ensures SameAccesses(asks, shape)
    ensures forall i :: 0 <= i < |asks| && asks[i].Charge? ==> asks[i].n == n
  {
    seq(|shape|, i requires 0 <= i < |shape| => if shape[i].Charge? then Charge(shape[i].now, n) else shape[i])
  }

  lemma {:induction false} PassedOnGrows(asks: seq<Ask>, limit: nat, day: int, n: nat)
    requires n <= |asks|
    ensures PassedOn(asks[..n], limit, day) <= PassedOn(asks, limit, day)
    decreases |asks| - n
  {
    if n == |asks| {
      assert asks[..n] == asks;
    } else {
      PassedOnGrows(asks, limit, day, n + 1);
      assert asks[..n + 1][..n] == asks[..n];
    }
  }

  /** With every charge as large as the limit, a window opened after the first m accesses lets its first charge through. */
  lemma {:induction false} EachWindowPassesOne(asks: seq<Ask>, limit: nat, day: int, m: nat, n: nat)
    requires limit > 0 && m <= n <= |asks| && forall i :: 0 <= i < |asks| && asks[i].Charge? ==> asks[i].n == limit
    requires var w := After(asks[..m], limit); w.day != day || w.used == 0
    ensures var w := After(asks[..n], limit);
            && PassedOn(asks[..n], limit, day) >= PassedOn(asks[..m], limit, day)
            && (w.day == day && w.used > 0 ==> PassedOn(asks[..n], limit, day) >= PassedOn(asks[..m], limit, day) + limit)
    decreases n
  {
    hide DayOf;
    if m < n {
      EachWindowPassesOne(asks, limit, day, m, n - 1);
      assert asks[..n][..n - 1] == asks[..n - 1] && asks[..n][n - 1] == asks[n - 1];
    }
  }

  lemma AfterDay(asks: seq<Ask>, limit: nat, n: nat)
    requires limit > 0 && n < |asks|
    ensures After(asks[..n + 1], limit).day == DayOf(asks[n].now)
    ensures asks[n].Charge? ==> After(asks[..n + 1], limit).used >= asks[n].n
  {
    hide DayOf;
    assert asks[..n + 1][..n] == asks[..n] && asks[..n + 1][n] == asks[n];
  }

  /** A charge that comes back to a day already left opens a new window for it: the day lets two limits through. */
  lemma ReturningChargeOverspends(shape: seq<Ask>, limit: nat, i: nat, j: nat, k: nat)
    requires limit > 0 && i < j < k < |shape| && shape[i].Charge? && shape[k].Charge?
    requires DayOf(shape[i].now) == DayOf(shape[k].now) != DayOf(shape[j].now)
    ensures PassedOn(Uniform(shape, limit), limit, DayOf(shape[i].now)) >= 2 * limit
  {
    hide DayOf, PassedOn, After, Uniform;
    var asks, day := Uniform(shape, limit), DayOf(shape[i].now);
    NoAccess(asks, limit);
    AfterDay(asks, limit, i);
    EachWindowPassesOne(asks, limit, day, 0, i + 1);
    AfterDay(asks, limit, j);
    assert asks[..j + 1][..i + 1] == asks[..i + 1];
    PassedOnGrows(asks[..j + 1], limit, day, i + 1);
    AfterDay(asks, limit, k);
    EachWindowPassesOne(asks, limit, day, j + 1, k + 1);
    PassedOnGrows(asks, limit, day, k + 1);
  }

  lemma NoAccess(asks: seq<Ask>, limit: nat)
    ensures After(asks[..0], limit).used == 0
  {
  }

  /**
   * For these accesses, the daily limit holds whatever is charged and whatever
   * the limit exactly when no charge comes back to a day once it was left.
   */
  lemma LimitHoldsIffChargesGrouped(shape: seq<Ask>)
    ensures (forall asks: seq<Ask>, limit: nat, day: int {:trigger SameAccesses(asks, shape), PassedOn(asks, limit, day)} ::
               SameAccesses(asks, shape) && limit > 0 ==> PassedOn(asks, limit, day) <= limit)
            <==> ChargesGrouped(shape)
  {
    hide DayOf, PassedOn;
    if !ChargesGrouped(shape) {
      var i, j, k :| 0 <= i < j < k < |shape| && shape[i].Charge? && shape[k].Charge?
                     && DayOf(shape[i].now) == DayOf(shape[k].now) && DayOf(shape[j].now) != DayOf(shape[i].now);
      ReturningChargeOverspends(shape, 1, i, j, k);
      assert SameAccesses(Uniform(shape, 1), shape);
    } else {
      forall asks: seq<Ask>, limit: nat, day: int {:trigger SameAccesses(asks, shape), PassedOn(asks, limit, day)}
        | SameAccesses(asks, shape) && limit > 0
        ensures PassedOn(asks, limit, day) <= limit
      {
        assert ChargesGrouped(asks);
        DayWithinLimit(asks, limit, day);
      }
    }
  }
}
