/** The relay's daily limit at midnight: which accesses to the budget can break it, in runs of concurrent readers. */
module Midnight {
  import Framing
  import opened Budget
  import opened Ceilings

  function TakeAll(s: Relay, lim: Limits, steps: seq<Step>): (next: Relay)
    requires Shaped(s)
    ensures Shaped(next)
    decreases steps
  {
    if steps == [] then s else TakeAll(Take(s, lim, steps[0]), lim, steps[1..])
  }

  lemma {:induction false} RunOn(readers: set<int>, lim: Limits, before: seq<Step>, steps: seq<Step>)
    ensures Run(readers, lim, before + steps) == TakeAll(Run(readers, lim, before), lim, steps)
    decreases steps
  {
    hide Take;
    if steps == [] {
      assert before + steps == before;
    } else {
      assert before + steps == before + [steps[0]] + steps[1..];
      assert (before + [steps[0]])[..|before|] == before;
      RunOn(readers, lim, before + [steps[0]], steps[1..]);
    }
  }

  ghost predicate Settled(s: Relay) {
    forall i :: 0 <= i < |s.stages| ==> s.stages[i].Final()
  }

  // ---- one datagram after another ----

  /** All a reader does with the datagram it looked up; the steps its fate rules out do nothing. */
  function Serve(r: int, now: int): seq<Step> {
    [AddBytes(r), ChargeDay(r), CountBytes(r), LoadPeak(r), SwapPeak(r), Forward(r), EvictOver(r, now)]
  }

  /** A datagram let through is counted, raises the peak when nobody interferes, and is sent. */
  lemma SendsPaid(s: Relay, lim: Limits, r: int, now: int)
    requires Shaped(s) && Holding(s, r).Holds? && StageOf(s, r).Charged?
    ensures var next := Take(Take(Take(Take(Take(s, lim, CountBytes(r)), lim, LoadPeak(r)), lim, SwapPeak(r)), lim, Forward(r)), lim, EvictOver(r, now));
            && next.asks == s.asks && next.bytes == s.bytes && next.log == s.log
            && next.stages == s.stages[Held(s, r) := Sent] && next.readers == s.readers[r := Idle]
  {
    hide After, Passed, DayOf;
    var i := Held(s, r);
    var s1 := Take(s, lim, CountBytes(r));
    var s2 := Take(s1, lim, LoadPeak(r));
    assert s2.stages == s.stages[i := Counted] && Holding(s2, r) == Sees(i, s2.peak);
    var s3 := Take(s2, lim, SwapPeak(r));
    assert s3.stages == s.stages[i := Peaked] && Holding(s3, r) == Holds(i);
    var s4 := Take(s3, lim, Forward(r));
    assert s4.stages == s.stages[i := Sent] && Take(s4, lim, EvictOver(r, now)) == s4;
  }

  /** One refused is dropped, and its token evicted. */
  lemma DropsRefused(s: Relay, lim: Limits, r: int, now: int)
    requires Shaped(s) && Holding(s, r).Holds? && StageOf(s, r).OverBudget?
    ensures var next := Take(Take(Take(Take(Take(s, lim, CountBytes(r)), lim, LoadPeak(r)), lim, SwapPeak(r)), lim, Forward(r)), lim, EvictOver(r, now));
            && next.asks == s.asks && next.bytes == s.bytes && next.log == s.log
            && next.stages == s.stages[Held(s, r) := Dropped(BudgetHit)] && next.readers == s.readers[r := Idle]
  {
    hide After, Passed, DayOf;
    assert Take(s, lim, CountBytes(r)) == s && Take(s, lim, LoadPeak(r)) == s;
    assert Take(s, lim, SwapPeak(r)) == s && Take(s, lim, Forward(r)) == s;
  }

  lemma TakeFirst(s: Relay, lim: Limits, first: Step, rest: seq<Step>)
    requires Shaped(s)
    ensures TakeAll(s, lim, [first] + rest) == TakeAll(Take(s, lim, first), lim, rest)
  {
    assert ([first] + rest)[1..] == rest;
  }

  lemma TakeSeven(s: Relay, lim: Limits, a: Step, b: Step, c: Step, d: Step, e: Step, f: Step, g: Step)
    requires Shaped(s)
    ensures TakeAll(s, lim, [a, b, c, d, e, f, g])
            == Take(Take(Take(Take(Take(Take(Take(s, lim, a), lim, b), lim, c), lim, d), lim, e), lim, f), lim, g)
  {
    hide Take;
    var s1 := Take(s, lim, a);
    var s2 := Take(s1, lim, b);
    var s3 := Take(s2, lim, c);
    var s4 := Take(s3, lim, d);
    var s5 := Take(s4, lim, e);
    var s6 := Take(s5, lim, f);
    TakeFirst(s, lim, a, [b, c, d, e, f, g]);
    TakeFirst(s1, lim, b, [c, d, e, f, g]);
    TakeFirst(s2, lim, c, [d, e, f, g]);
    TakeFirst(s3, lim, d, [e, f, g]);
    TakeFirst(s4, lim, e, [f, g]);
    TakeFirst(s5, lim, f, [g]);
    TakeFirst(s6, lim, g, []);
  }

  /** With no session cap, a datagram served alone is charged once, and then sent or dropped. */
  lemma Serves(s: Relay, lim: Limits, r: int, now: int)
    requires Shaped(s) && Settled(s) && lim.perSession == 0
    requires Holding(s, r).Looked? && Holding(s, r).token in s.bytes
    ensures var next, h := TakeAll(s, lim, Serve(r, now)), Holding(s, r);
            && next.asks == s.asks + [Charge(h.now, h.size)] && Settled(next)
            && next.bytes.Keys == s.bytes.Keys && next.readers == s.readers[r := Idle]
            && next.log == s.log + [Datagram(h.token, h.size, s.bytes[h.token] + h.size, h.now)]
            && next.stages == s.stages + [if Passed(next.asks, lim.perDay, |s.asks|) then Sent else Dropped(BudgetHit)]
  {
    hide After, Passed, DayOf;
    TakeSeven(s, lim, AddBytes(r), ChargeDay(r), CountBytes(r), LoadPeak(r), SwapPeak(r), Forward(r), EvictOver(r, now));
    var h, n := Holding(s, r), |s.log|;
    var s1 := Take(s, lim, AddBytes(r));
    assert s1.stages == s.stages + [UnderCap] && s1.log[n] == Datagram(h.token, h.size, s.bytes[h.token] + h.size, h.now);
    var s2 := Take(s1, lim, ChargeDay(r));
    assert s2.asks == s.asks + [Charge(h.now, h.size)];
    if Passed(s2.asks, lim.perDay, |s.asks|) {
      assert s2.stages == s.stages + [Charged];
      SendsPaid(s2, lim, r, now);
    } else {
      assert s2.stages == s.stages + [OverBudget];
      DropsRefused(s2, lim, r, now);
    }
    hide Take;
  }

  // ---- any accesses, played by readers ----

  /** The session's tokens, one name per allocation. */
  function Name(n: nat): Token {
    seq(n, _ => 't')
  }

  /** A time after all of these. */
  function End(shape: seq<Ask>): (end: int)
    ensures forall i :: 0 <= i < |shape| ==> shape[i].now < end
  {
    if shape == [] then 0
    else
      var end, last := End(shape[..|shape| - 1]), shape[|shape| - 1].now;
      if last < end then end else last + 1
  }

  /** The latest of some times. */
  function Latest(shape: seq<Ask>): (t: int)
    requires shape != []
    ensures forall i :: 0 <= i < |shape| ==> shape[i].now <= t
    ensures exists i :: 0 <= i < |shape| && shape[i].now == t
  {
    var n := |shape| - 1;
    if n == 0 then shape[n].now
    else
      var t := Latest(shape[..n]);
      if t < shape[n].now then shape[n].now else t
  }

  /** A reader for every charge of this moment, with its time. */
  function LooksAt(shape: seq<Ask>, token: Token, t: int, m: nat): seq<Step>
    decreases |shape| - m
  {
    if m >= |shape| then []
    else
      (if shape[m].Charge? && shape[m].now == t then [Look(m, token, Framing.HEADER_SIZE, t)] else [])
      + LooksAt(shape, token, t, m + 1)
  }

  /** A reader for every charge from a moment on, as time goes by. */
  function Looks(shape: seq<Ask>, token: Token, t: int): seq<Step>
    decreases End(shape) - t
  {
    if t >= End(shape) then [] else LooksAt(shape, token, t, 0) + Looks(shape, token, t + 1)
  }

  /** One access after another; the first allocation is the session's, and the readers look their datagrams up right after it. */
  ghost function Play(shape: seq<Ask>, n: nat): seq<Step>
    requires n < |shape|
  {
    match shape[n]
    case Charge(_, _) => Serve(n, End(shape))
    case Peek(now) => [Allocate(Name(n), now)] + (if Peeked(shape[..n]) then [] else Looks(shape, Name(n), Latest(shape[..n + 1])))
    case Scrape(now) => [Metrics(now)]
  }

  ghost function Script(shape: seq<Ask>, n: nat): seq<Step>
    requires n <= |shape|
  {
    if n == 0 then [] else Script(shape, n - 1) + Play(shape, n - 1)
  }

  function ReadersUpTo(n: nat): (readers: set<int>)
    ensures forall r :: r in readers <==> 0 <= r < n
  {
    if n == 0 then {} else ReadersUpTo(n - 1) + {n - 1}
  }

  ghost predicate Peeked(asks: seq<Ask>) {
    exists j :: 0 <= j < |asks| && asks[j].Peek?
  }

  /** No charge before the first allocation. */
  ghost predicate AllocatedFirst(asks: seq<Ask>) {
    forall i :: 0 <= i < |asks| && asks[i].Charge? ==> Peeked(asks[..i])
  }

  /** No charge carries a time before those of the accesses up to the first allocation. */
  ghost predicate ChargesLater(asks: seq<Ask>) {
    forall i :: 0 <= i < |asks| && asks[i].Charge? ==> AfterOpening(asks, asks[i].now)
  }

  ghost predicate AfterOpening(asks: seq<Ask>, t: int) {
    forall j :: 0 <= j < |asks| && !Peeked(asks[..j]) ==> asks[j].now <= t
  }

  /** After n accesses, the readers of the later ones have looked their datagrams up, from the first allocation on. */
  ghost predicate Ready(s: Relay, shape: seq<Ask>, n: nat)
    requires n <= |shape|
  {
    && Shaped(s) && Settled(s) && s.asks == Uniform(shape, Framing.HEADER_SIZE)[..n]
    && (forall m :: 0 <= m < |shape| ==> m in s.readers)
    && if Peeked(shape[..n]) then
         forall m :: n <= m < |shape| && shape[m].Charge? ==> LookedUp(s, shape, m)
       else
         s.bytes == map[] && forall m :: 0 <= m < |shape| ==> s.readers[m] == Idle
  }

  ghost predicate LookedUp(s: Relay, shape: seq<Ask>, m: nat)
    requires m < |shape|
  {
    var h := Holding(s, m);
    h.Looked? && h.size == Framing.HEADER_SIZE && h.now == shape[m].now && h.token in s.bytes
  }

  lemma {:induction false} TakeAllConcat(s: Relay, lim: Limits, a: seq<Step>, b: seq<Step>)
    requires Shaped(s)
    ensures TakeAll(s, lim, a + b) == TakeAll(TakeAll(s, lim, a), lim, b)
    decreases |a|
  {
    hide Take;
    if a == [] {
      assert a + b == b;
    } else {
      TakeAllConcat(Take(s, lim, a[0]), lim, a[1..], b);
      assert (a + b)[0] == a[0] && (a + b)[1..] == a[1..] + b;
    }
  }

  /** The reader of a charge in this range of times. */
  predicate Between(shape: seq<Ask>, r: int, from: int, to: int) {
    0 <= r < |shape| && shape[r].Charge? && from <= shape[r].now < to
  }

  /** The idle readers of these charges, m and later, looked the token up, if it is live; nothing else changed. */
  ghost predicate LookedIn(s: Relay, next: Relay, shape: seq<Ask>, token: Token, m: nat, from: int, to: int) {
    && next == s.(readers := next.readers) && next.readers.Keys == s.readers.Keys
    && forall r <- s.readers :: next.readers[r] ==
         if s.readers[r] == Idle && token in s.live && m <= r && Between(shape, r, from, to)
         then Looked(token, Framing.HEADER_SIZE, shape[r].now) else s.readers[r]
  }

  lemma LookedNext(s: Relay, mid: Relay, next: Relay, shape: seq<Ask>, token: Token, m: nat, t: int)
    requires m < |shape| && LookedIn(mid, next, shape, token, m + 1, t, t + 1)
    requires mid == if Between(shape, m, t, t + 1) && m in s.readers && s.readers[m] == Idle && token in s.live
                    then s.(readers := s.readers[m := Looked(token, Framing.HEADER_SIZE, t)]) else s
    ensures LookedIn(s, next, shape, token, m, t, t + 1)
  {
  }

  lemma LookedOn(s: Relay, mid: Relay, next: Relay, shape: seq<Ask>, token: Token, from: int, t: int, to: int)
    requires from <= t <= to && LookedIn(s, mid, shape, token, 0, from, t) && LookedIn(mid, next, shape, token, 0, t, to)
    ensures LookedIn(s, next, shape, token, 0, from, to)
  {
  }

  lemma OneLook(s: Relay, lim: Limits, m: int, token: Token, t: int)
    requires Shaped(s)
    ensures Take(s, lim, Look(m, token, Framing.HEADER_SIZE, t))
            == if m in s.readers && s.readers[m] == Idle && token in s.live
               then s.(readers := s.readers[m := Looked(token, Framing.HEADER_SIZE, t)]) else s
  {
  }

  lemma {:induction false} LooksUpAt(s: Relay, lim: Limits, shape: seq<Ask>, token: Token, t: int, m: nat)
    requires Shaped(s) && m <= |shape|
    ensures LookedIn(s, TakeAll(s, lim, LooksAt(shape, token, t, m)), shape, token, m, t, t + 1)
    decreases |shape| - m
  {
    hide Take, LookedIn;
    if m == |shape| {
      TakeNone(s, lim);
      NothingLooked(s, shape, token, m, t, t + 1);
    } else {
      var rest := LooksAt(shape, token, t, m + 1);
      var mid := s;
      if shape[m].Charge? && shape[m].now == t {
        var look := Look(m, token, Framing.HEADER_SIZE, t);
        mid := Take(s, lim, look);
        TakeFirst(s, lim, look, rest);
        OneLook(s, lim, m, token, t);
      } else {
        assert [] + rest == rest;
      }
      LooksUpAt(mid, lim, shape, token, t, m + 1);
      LookedNext(s, mid, TakeAll(mid, lim, rest), shape, token, m, t);
    }
  }

  lemma NothingLooked(s: Relay, shape: seq<Ask>, token: Token, m: nat, from: int, to: int)
    requires m >= |shape| || from >= to
    ensures LookedIn(s, s, shape, token, m, from, to)
  {
  }

  lemma {:induction false} LooksUp(s: Relay, lim: Limits, shape: seq<Ask>, token: Token, t: int)
    requires Shaped(s)
    ensures LookedIn(s, TakeAll(s, lim, Looks(shape, token, t)), shape, token, 0, t, End(shape))
    decreases End(shape) - t
  {
    hide Take, LooksAt, LookedIn;
    if t >= End(shape) {
      TakeNone(s, lim);
      NothingLooked(s, shape, token, 0, t, End(shape));
    } else {
      var now, later := LooksAt(shape, token, t, 0), Looks(shape, token, t + 1);
      var mid := TakeAll(s, lim, now);
      LooksUpAt(s, lim, shape, token, t, 0);
      TakeAllConcat(s, lim, now, later);
      LooksUp(mid, lim, shape, token, t + 1);
      LookedOn(s, mid, TakeAll(mid, lim, later), shape, token, t, t + 1, End(shape));
    }
  }

  lemma {:induction false} NothingUsed(asks: seq<Ask>, limit: nat)
    requires forall i :: 0 <= i < |asks| ==> !asks[i].Charge?
    ensures After(asks, limit).used == 0
  {
    if asks != [] {
      NothingUsed(asks[..|asks| - 1], limit);
    }
  }

  lemma PlaysLaterAllocation(s: Relay, shape: seq<Ask>, n: nat)
    requires n < |shape| && shape[n].Peek? && Ready(s, shape, n) && Peeked(shape[..n])
    ensures Ready(TakeAll(s, Limits(0, Framing.HEADER_SIZE), Play(shape, n)), shape, n + 1)
  {
    hide DayOf, After, TakeAll, Looks;
    var lim := Limits(0, Framing.HEADER_SIZE);
    var allocate := Allocate(Name(n), shape[n].now);
    PeekedNext(shape, n);
    var next := Take(s, lim, allocate);
    TakeFirst(s, lim, allocate, []);
    TakeNone(next, lim);
    assert [allocate] + [] == Play(shape, n);
    assert next.asks == Uniform(shape, Framing.HEADER_SIZE)[..n + 1];
    forall m | n + 1 <= m < |shape| && shape[m].Charge?
      ensures LookedUp(next, shape, m)
    {
      assert LookedUp(s, shape, m);
    }
  }

  /** The first allocation finds nothing used, so its token is live, and every later charge's reader looks it up. */
  lemma PlaysFirstAllocation(s: Relay, shape: seq<Ask>, n: nat)
    requires n < |shape| && shape[n].Peek? && Ready(s, shape, n) && !Peeked(shape[..n])
    requires AllocatedFirst(shape) && ChargesLater(shape)
    ensures Ready(TakeAll(s, Limits(0, Framing.HEADER_SIZE), Play(shape, n)), shape, n + 1)
  {
    hide DayOf, After, TakeAll, Looks, Latest;
    var lim, t := Limits(0, Framing.HEADER_SIZE), Latest(shape[..n + 1]);
    var allocate := Allocate(Name(n), shape[n].now);
    PeekedNext(shape, n);
    FirstIsAllocated(s, shape, n);
    var s1 := Take(s, lim, allocate);
    TakeFirst(s, lim, allocate, Looks(shape, Name(n), t));
    LooksUp(s1, lim, shape, Name(n), t);
    hide Take;
    forall m | n + 1 <= m < |shape| && shape[m].Charge?
      ensures LookedUp(TakeAll(s, lim, Play(shape, n)), shape, m)
    {
      OpeningBefore(shape, n, m);
      assert Between(shape, m, t, End(shape));
      assert m in s1.readers;
    }
  }

  lemma FirstIsAllocated(s: Relay, shape: seq<Ask>, n: nat)
    requires n < |shape| && shape[n].Peek? && Ready(s, shape, n) && !Peeked(shape[..n]) && AllocatedFirst(shape)
    ensures var next := Take(s, Limits(0, Framing.HEADER_SIZE), Allocate(Name(n), shape[n].now));
            && Name(n) in next.live && Name(n) in next.bytes && next.readers == s.readers && next.stages == s.stages && next.log == s.log
            && next.asks == Uniform(shape, Framing.HEADER_SIZE)[..n + 1]
  {
    hide DayOf, After;
    var next := Take(s, Limits(0, Framing.HEADER_SIZE), Allocate(Name(n), shape[n].now));
    assert next.asks == Uniform(shape, Framing.HEADER_SIZE)[..n + 1];
    forall i | 0 <= i < |next.asks|
      ensures !next.asks[i].Charge?
    {
      if i < n && shape[i].Charge? {
        PeekedLater(shape, i, n);
      }
    }
    NothingUsed(next.asks, Framing.HEADER_SIZE);
  }

  lemma OpeningBefore(shape: seq<Ask>, n: nat, m: nat)
    requires ChargesLater(shape) && n < |shape| && m < |shape| && !Peeked(shape[..n]) && shape[m].Charge?
    ensures Latest(shape[..n + 1]) <= shape[m].now
  {
    var j :| 0 <= j < n + 1 && shape[..n + 1][j].now == Latest(shape[..n + 1]);
    if Peeked(shape[..j]) {
      PeekedLater(shape, j, n);
    }
    assert AfterOpening(shape, shape[m].now);
  }

  lemma TakeNone(s: Relay, lim: Limits)
    requires Shaped(s)
    ensures TakeAll(s, lim, []) == s
  {
  }

  lemma PeekedNext(shape: seq<Ask>, n: nat)
    requires n < |shape|
    ensures Peeked(shape[..n + 1]) <==> Peeked(shape[..n]) || shape[n].Peek?
  {
    if Peeked(shape[..n]) {
      PeekedLater(shape, n, n + 1);
    }
    assert shape[..n + 1][n] == shape[n];
    assert shape[..n + 1] == shape[..n] + [shape[n]];
  }

  lemma PeekedLater(shape: seq<Ask>, i: nat, n: nat)
    requires i <= n <= |shape| && Peeked(shape[..i])
    ensures Peeked(shape[..n])
  {
    var j :| 0 <= j < i && shape[..i][j].Peek?;
    assert shape[..n][j].Peek?;
  }

  lemma PlaysCharge(s: Relay, shape: seq<Ask>, n: nat)
    requires n < |shape| && shape[n].Charge? && Ready(s, shape, n) && AllocatedFirst(shape)
    ensures Ready(TakeAll(s, Limits(0, Framing.HEADER_SIZE), Play(shape, n)), shape, n + 1)
  {
    hide DayOf, After, Take, TakeAll;
    assert Peeked(shape[..n]) && LookedUp(s, shape, n);
    PeekedLater(shape, n, n + 1);
    Serves(s, Limits(0, Framing.HEADER_SIZE), n, End(shape));
    var next := TakeAll(s, Limits(0, Framing.HEADER_SIZE), Play(shape, n));
    assert next.asks == Uniform(shape, Framing.HEADER_SIZE)[..n + 1];
    forall m | n + 1 <= m < |shape| && shape[m].Charge?
      ensures LookedUp(next, shape, m)
    {
      assert LookedUp(s, shape, m) && Holding(next, m) == Holding(s, m);
    }
  }

  lemma PlaysScrape(s: Relay, shape: seq<Ask>, n: nat)
    requires n < |shape| && shape[n].Scrape? && Ready(s, shape, n)
    ensures Ready(TakeAll(s, Limits(0, Framing.HEADER_SIZE), Play(shape, n)), shape, n + 1)
  {
    hide DayOf, After;
    var lim := Limits(0, Framing.HEADER_SIZE);
    var scrape := Metrics(shape[n].now);
    TakeFirst(s, lim, scrape, []);
    assert [scrape] + [] == Play(shape, n);
    PeekedNext(shape, n);
    var next := TakeAll(s, lim, Play(shape, n));
    assert next == s.(asks := Uniform(shape, Framing.HEADER_SIZE)[..n + 1]);
    forall m | n + 1 <= m < |shape| && shape[m].Charge? && Peeked(shape[..n])
      ensures LookedUp(next, shape, m)
    {
      assert LookedUp(s, shape, m);
    }
  }

  lemma StartsReady(shape: seq<Ask>)
    ensures Ready(Fresh(ReadersUpTo(|shape|)), shape, 0)
  {
  }

  /** Any accesses in which an allocation comes before every charge, in time too, are those of a run, one datagram of the least size a charge. */
  lemma {:induction false} Plays(shape: seq<Ask>, n: nat)
    requires n <= |shape| && AllocatedFirst(shape) && ChargesLater(shape)
    ensures Ready(Run(ReadersUpTo(|shape|), Limits(0, Framing.HEADER_SIZE), Script(shape, n)), shape, n)
  {
    hide Ready, Take, Play;
    var readers, lim := ReadersUpTo(|shape|), Limits(0, Framing.HEADER_SIZE);
    if n == 0 {
      StartsReady(shape);
    } else {
      Plays(shape, n - 1);
      var s := Run(readers, lim, Script(shape, n - 1));
      RunOn(readers, lim, Script(shape, n - 1), Play(shape, n - 1));
      match shape[n - 1]
      case Charge(_, _) => PlaysCharge(s, shape, n - 1);
      case Peek(_) =>
        if Peeked(shape[..n - 1]) {
          PlaysLaterAllocation(s, shape, n - 1);
        } else {
          PlaysFirstAllocation(s, shape, n - 1);
        }
      case Scrape(_) => PlaysScrape(s, shape, n - 1);
    }
  }

  // ---- a clock that never turns back ----

  /** A step that carries a time. An allocation, a sweep or a scrape may have read it earlier. */
  predicate Reads(step: Step) {
    step.Look? || step.EvictOver? || step.Allocate? || step.Sweep? || step.Metrics?
  }

  /** What a look or an eviction reads is no earlier than any time read before. */
  ghost predicate ClockRises(steps: seq<Step>) {
    forall k, l :: 0 <= k < l < |steps| && Reads(steps[k]) && (steps[l].Look? || steps[l].EvictOver?) ==> steps[k].now <= steps[l].now
  }

  ghost predicate ReadsUpTo(steps: seq<Step>, t: int) {
    forall k :: 0 <= k < |steps| && Reads(steps[k]) ==> steps[k].now <= t
  }

  ghost predicate LooksFrom(steps: seq<Step>, t: int) {
    forall k :: 0 <= k < |steps| && (steps[k].Look? || steps[k].EvictOver?) ==> t <= steps[k].now
  }

  lemma RiseOn(a: seq<Step>, b: seq<Step>, mid: int, to: int)
    requires mid <= to && ClockRises(a) && ClockRises(b) && ReadsUpTo(a, mid) && LooksFrom(b, mid) && ReadsUpTo(b, to)
    ensures ClockRises(a + b) && ReadsUpTo(a + b, to)
  {
  }

  lemma LooksOn(a: seq<Step>, b: seq<Step>, from: int)
    requires LooksFrom(a, from) && LooksFrom(b, from)
    ensures LooksFrom(a + b, from)
  {
  }

  lemma {:induction false} LooksAtOnce(shape: seq<Ask>, token: Token, t: int, m: nat)
    ensures var looks := LooksAt(shape, token, t, m); ClockRises(looks) && ReadsUpTo(looks, t) && LooksFrom(looks, t)
    decreases |shape| - m
  {
    if m < |shape| {
      LooksAtOnce(shape, token, t, m + 1);
      var first := if shape[m].Charge? && shape[m].now == t then [Look(m, token, Framing.HEADER_SIZE, t)] else [];
      RiseOn(first, LooksAt(shape, token, t, m + 1), t, t);
    }
  }

  lemma {:induction false} LooksRise(shape: seq<Ask>, token: Token, t: int)
    ensures var looks := Looks(shape, token, t); ClockRises(looks) && ReadsUpTo(looks, End(shape)) && LooksFrom(looks, t)
    decreases End(shape) - t
  {
    if t < End(shape) {
      LooksAtOnce(shape, token, t, 0);
      LooksRise(shape, token, t + 1);
      var now, later := LooksAt(shape, token, t, 0), Looks(shape, token, t + 1);
      hide LooksAt, ClockRises, ReadsUpTo, LooksFrom;
      Loosen(later, t + 1, t);
      RiseOn(now, later, t, End(shape));
      LooksOn(now, later, t);
    }
  }

  lemma Loosen(steps: seq<Step>, t: int, from: int)
    requires from <= t && LooksFrom(steps, t)
    ensures LooksFrom(steps, from)
  {
  }

  lemma OneRead(step: Step, now: int, from: int, to: int)
    requires (step.Metrics? || step.Allocate?) && step.now == now && now <= to
    ensures ClockRises([step]) && ReadsUpTo([step], to) && LooksFrom([step], from)
  {
  }

  lemma ServeReads(r: int, now: int)
    ensures ClockRises(Serve(r, now)) && ReadsUpTo(Serve(r, now), now) && LooksFrom(Serve(r, now), now)
  {
  }

  /** The readers play any accesses under a rising clock. */
  lemma {:induction false} ScriptRises(shape: seq<Ask>, n: nat)
    requires n <= |shape| && AllocatedFirst(shape)
    ensures ClockRises(Script(shape, n)) && ReadsUpTo(Script(shape, n), End(shape))
    ensures 0 < n && !Peeked(shape[..n]) ==> ReadsUpTo(Script(shape, n), Latest(shape[..n]))
  {
    hide Serve, Peeked;
    if n > 0 {
      hide ClockRises, ReadsUpTo, LooksFrom;
      var before := Script(shape, n - 1);
      ScriptRises(shape, n - 1);
      PeekedNext(shape, n - 1);
      LatestRises(shape, n);
      match shape[n - 1]
      case Charge(_, _) =>
        ServeReads(n - 1, End(shape));
        PeekedLater(shape, n - 1, n);
        RiseOn(before, Serve(n - 1, End(shape)), End(shape), End(shape));
      case Scrape(now) =>
        OneRead(Metrics(now), now, End(shape), End(shape));
        RiseOn(before, [Metrics(now)], End(shape), End(shape));
        if !Peeked(shape[..n]) {
          OpeningReads(shape, n);
          OneRead(Metrics(now), now, Latest(shape[..n]), Latest(shape[..n]));
          RiseOn(before, [Metrics(now)], Latest(shape[..n]), Latest(shape[..n]));
        }
      case Peek(now) =>
        if !Peeked(shape[..n - 1]) {
          OpeningReads(shape, n);
        }
        AllocationRises(shape, n - 1, before);
    }
  }

  lemma OpeningReads(shape: seq<Ask>, n: nat)
    requires 0 < n <= |shape| && (1 < n ==> ReadsUpTo(Script(shape, n - 1), Latest(shape[..n - 1])))
    ensures ReadsUpTo(Script(shape, n - 1), Latest(shape[..n]))
  {
    LatestRises(shape, n);
  }

  lemma LatestRises(shape: seq<Ask>, n: nat)
    requires 0 < n <= |shape|
    ensures 1 < n ==> Latest(shape[..n - 1]) <= Latest(shape[..n])
    ensures shape[n - 1].now <= Latest(shape[..n]) < End(shape)
  {
    assert shape[..n][n - 1] == shape[n - 1];
    if 1 < n {
      assert shape[..n][..n - 1] == shape[..n - 1];
    }
  }

  lemma AllocationRises(shape: seq<Ask>, n: nat, before: seq<Step>)
    requires n < |shape| && shape[n].Peek? && ClockRises(before) && ReadsUpTo(before, End(shape))
    requires !Peeked(shape[..n]) ==> ReadsUpTo(before, Latest(shape[..n + 1]))
    ensures ClockRises(before + Play(shape, n)) && ReadsUpTo(before + Play(shape, n), End(shape))
  {
    hide ClockRises, ReadsUpTo, LooksFrom, Peeked, Looks, Latest, End;
    var allocate := Allocate(Name(n), shape[n].now);
    LatestRises(shape, n + 1);
    if Peeked(shape[..n]) {
      assert Play(shape, n) == [allocate];
      OneRead(allocate, shape[n].now, End(shape), End(shape));
      RiseOn(before, [allocate], End(shape), End(shape));
    } else {
      var t, looks := Latest(shape[..n + 1]), Looks(shape, Name(n), Latest(shape[..n + 1]));
      LooksRise(shape, Name(n), t);
      OneRead(allocate, shape[n].now, t, t);
      RiseOn(before, [allocate], t, t);
      RiseOn(before + [allocate], looks, t, End(shape));
      assert before + [allocate] + looks == before + Play(shape, n);
    }
  }

  // ---- exactly when the limit holds ----

  /** Every run under a rising clock that reads the budget in just these accesses keeps the daily limit, whatever it forwards and whatever the limit is. */
  ghost predicate KeepsDailyLimit(shape: seq<Ask>) {
    forall readers: set<int>, lim: Limits, steps: seq<Step>, day: int {:trigger Run(readers, lim, steps), DayOf(day)} ::
      lim.perDay > 0 && ClockRises(steps) && SameAccesses(Run(readers, lim, steps).asks, shape) ==>
        var s := Run(readers, lim, steps);
        Total(s.log, s.stages, SentOn(DayOf(day))) <= lim.perDay
  }

  /** Once no datagram is under way, what the budget let through has been sent. */
  lemma PaidIsSent(s: Relay, lim: Limits, day: int)
    requires Inv(s, lim) && Settled(s)
    ensures Total(s.log, s.stages, SentOn(day)) >= PassedOn(s.asks, lim.perDay, day)
  {
    hide TotalsExact, CapChecked, CounterExact, PeakTracks, TokensApart, ReasonsTrue, Attended, Total, PassedOn, DayOf;
    TotalMono(s.log, s.stages, PaidOn(day), SentOn(day));
  }

  /** A charge that comes back to a day the budget was moved away from: some run forwards two limits on that day. */
  lemma ReturningChargeForwardsTwice(shape: seq<Ask>, i: nat, j: nat, k: nat)
    requires AllocatedFirst(shape) && ChargesLater(shape) && i < j < k < |shape| && shape[i].Charge? && shape[k].Charge?
    requires DayOf(shape[i].now) == DayOf(shape[k].now) != DayOf(shape[j].now)
    ensures var lim := Limits(0, Framing.HEADER_SIZE);
            var s := Run(ReadersUpTo(|shape|), lim, Script(shape, |shape|));
            ClockRises(Script(shape, |shape|)) && SameAccesses(s.asks, shape) && Total(s.log, s.stages, SentOn(DayOf(shape[i].now))) >= 2 * lim.perDay
  {
    hide Run, Total, DayOf, PassedOn, Uniform, Inv, Peeked, AllocatedFirst, ChargesLater, ClockRises, LookedUp, Script;
    ScriptRises(shape, |shape|);
    var lim := Limits(0, Framing.HEADER_SIZE);
    var s := Run(ReadersUpTo(|shape|), lim, Script(shape, |shape|));
    Plays(shape, |shape|);
    assert s.asks == Uniform(shape, Framing.HEADER_SIZE);
    RunKeeps(ReadersUpTo(|shape|), lim, Script(shape, |shape|));
    PaidIsSent(s, lim, DayOf(shape[i].now));
    ReturningChargeOverspends(shape, Framing.HEADER_SIZE, i, j, k);
  }

  /** A step asks the budget at most once, and charges it only for a datagram of a session allocated before. */
  lemma AsksGrow(s: Relay, lim: Limits, step: Step)
    requires Shaped(s) && TokensApart(s)
    ensures var next := Take(s, lim, step);
            && (next.asks == s.asks ==> next.bytes.Keys == s.bytes.Keys)
            && (next.asks != s.asks ==>
                  && |next.asks| == |s.asks| + 1 && next.asks[..|s.asks|] == s.asks
                  && (next.asks[|s.asks|].Charge? ==> s.bytes != map[])
                  && (next.asks[|s.asks|].Peek? || next.bytes.Keys == s.bytes.Keys))
  {
    hide After, Passed, DayOf;
    if step.ChargeDay? && StageOf(s, step.r).UnderCap? {
      assert s.log[Held(s, step.r)].token in s.bytes;
    }
  }

  /** In every run, the first charge comes after the first allocation. */
  lemma {:induction false} ChargesFollowAllocation(readers: set<int>, lim: Limits, steps: seq<Step>)
    ensures var s := Run(readers, lim, steps);
            AllocatedFirst(s.asks) && (s.bytes.Keys != {} ==> Peeked(s.asks))
  {
    hide Take, Peeked, TotalsExact, CapChecked, CounterExact, PeakTracks, BudgetExact, TokensApart, ReasonsTrue, Attended;
    if steps != [] {
      var before, step := steps[..|steps| - 1], steps[|steps| - 1];
      ChargesFollowAllocation(readers, lim, before);
      RunKeeps(readers, lim, before);
      var s, next := Run(readers, lim, before), Run(readers, lim, steps);
      AsksGrow(s, lim, step);
      if next.asks != s.asks {
        PeekedNext(next.asks, |s.asks|);
        assert next.asks[..|s.asks| + 1] == next.asks;
        forall i | 0 <= i < |next.asks| && next.asks[i].Charge?
          ensures Peeked(next.asks[..i])
        {
          assert i < |s.asks| ==> next.asks[..i] == s.asks[..i] && next.asks[i] == s.asks[i];
        }
      }
    }
  }

  /** Every access but a charge is made by a step that carries its time. */
  ghost predicate Dated(asks: seq<Ask>, steps: seq<Step>) {
    forall j :: 0 <= j < |asks| && !asks[j].Charge? ==> exists k :: 0 <= k < |steps| && Reads(steps[k]) && steps[k].now == asks[j].now
  }

  /** Every time a reader took is no earlier than the accesses up to the first allocation. */
  ghost predicate TakenLater(s: Relay) {
    && (forall r <- s.readers :: s.readers[r].Looked? ==> AfterOpening(s.asks, s.readers[r].now))
    && (forall i :: 0 <= i < |s.log| ==> AfterOpening(s.asks, s.log[i].now))
    && ChargesLater(s.asks)
  }

  lemma OpeningClosed(asks: seq<Ask>, more: seq<Ask>, t: int)
    requires |more| == |asks| + 1 && more[..|asks|] == asks && Peeked(asks)
    ensures AfterOpening(asks, t) ==> AfterOpening(more, t)
  {
    assert forall j :: 0 <= j < |asks| ==> more[..j] == asks[..j];
  }

  lemma OpeningDated(asks: seq<Ask>, steps: seq<Step>, t: int)
    requires Dated(asks, steps) && AllocatedFirst(asks) && ReadsUpTo(steps, t)
    ensures AfterOpening(asks, t)
  {
  }

  lemma StepDates(s: Relay, lim: Limits, steps: seq<Step>, step: Step)
    requires Shaped(s) && Dated(s.asks, steps)
    ensures Dated(Take(s, lim, step).asks, steps + [step])
  {
    hide After, Passed, DayOf;
    var next, more := Take(s, lim, step), steps + [step];
    forall j | 0 <= j < |next.asks| && !next.asks[j].Charge?
      ensures exists k :: 0 <= k < |more| && Reads(more[k]) && more[k].now == next.asks[j].now
    {
      if j < |s.asks| {
        var k :| 0 <= k < |steps| && Reads(steps[k]) && steps[k].now == s.asks[j].now;
        assert more[k] == steps[k];
      } else {
        assert more[|steps|] == step;
      }
    }
  }

  lemma StepTakes(s: Relay, lim: Limits, steps: seq<Step>, step: Step)
    requires Shaped(s) && TotalsExact(s) && TokensApart(s) && Dated(s.asks, steps) && AllocatedFirst(s.asks) && TakenLater(s)
    requires s.bytes.Keys != {} ==> Peeked(s.asks)
    requires step.Look? ==> ReadsUpTo(steps, step.now)
    ensures TakenLater(Take(s, lim, step))
  {
    hide After, Passed, DayOf, AfterOpening, AddedTo;
    var next := Take(s, lim, step);
    if step.Look? {
      OpeningDated(s.asks, steps, step.now);
    }
    AsksGrow(s, lim, step);
    if next.asks != s.asks {
      forall t | AfterOpening(s.asks, t) && Peeked(s.asks)
        ensures AfterOpening(next.asks, t)
      {
        OpeningClosed(s.asks, next.asks, t);
      }
    }
  }

  /** Under a rising clock no charge carries a time before the first allocation's. */
  lemma {:induction false} ChargesFollowInTime(readers: set<int>, lim: Limits, steps: seq<Step>)
    requires ClockRises(steps)
    ensures var s := Run(readers, lim, steps); Dated(s.asks, steps) && TakenLater(s)
  {
    if steps != [] {
      hide Take, TotalsExact, CapChecked, CounterExact, PeakTracks, BudgetExact, TokensApart, ReasonsTrue, Attended, TakenLater, Dated, Peeked;
      var before, step := steps[..|steps| - 1], steps[|steps| - 1];
      ChargesFollowInTime(readers, lim, before);
      ChargesFollowAllocation(readers, lim, before);
      RunKeeps(readers, lim, before);
      StepDates(Run(readers, lim, before), lim, before, step);
      assert before + [step] == steps;
      StepTakes(Run(readers, lim, before), lim, before, step);
    }
  }

  /**
   * The accesses of any run under a clock that never turns back: every such run
   * that makes them keeps the daily limit exactly when no charge comes back to
   * a day the budget was moved away from.
   */
  lemma DailyLimitHoldsExactly(readers: set<int>, lim: Limits, steps: seq<Step>)
    requires ClockRises(steps)
    ensures KeepsDailyLimit(Run(readers, lim, steps).asks) <==> ChargesGrouped(Run(readers, lim, steps).asks)
  {
    hide Run, Total, DayOf, Script, ClockRises;
    var shape := Run(readers, lim, steps).asks;
    if ChargesGrouped(shape) {
      forall readers: set<int>, lim: Limits, steps: seq<Step>, day: int {:trigger Run(readers, lim, steps), DayOf(day)}
        | lim.perDay > 0 && ClockRises(steps) && SameAccesses(Run(readers, lim, steps).asks, shape)
        ensures var s := Run(readers, lim, steps);
                Total(s.log, s.stages, SentOn(DayOf(day))) <= lim.perDay
      {
        DailyLimitHolds(readers, lim, steps, DayOf(day));
      }
    } else {
      var i, j, k :| 0 <= i < j < k < |shape| && shape[i].Charge? && shape[k].Charge?
                     && DayOf(shape[i].now) == DayOf(shape[k].now) && DayOf(shape[j].now) != DayOf(shape[i].now);
      ChargesFollowAllocation(readers, lim, steps);
      ChargesFollowInTime(readers, lim, steps);
      ReturningChargeForwardsTwice(shape, i, j, k);
    }
  }

  // ---- one such run ----

  lemma TakeThree(s: Relay, lim: Limits, a: Step, b: Step, c: Step)
    requires Shaped(s)
    ensures TakeAll(s, lim, [a, b, c]) == Take(Take(Take(s, lim, a), lim, b), lim, c)
  {
    hide Take;
    TakeFirst(s, lim, a, [b, c]);
    TakeFirst(Take(s, lim, a), lim, b, [c]);
    TakeFirst(Take(Take(s, lim, a), lim, b), lim, c, []);
  }

  lemma TwoLimitsPass()
    ensures Passed([Peek(80000), Charge(86399, 100)], 100, 1)
    ensures Passed([Peek(80000), Charge(86399, 100), Ask.Scrape(86400), Charge(86399, 100)], 100, 3)
  {
    var asks := [Peek(80000), Charge(86399, 100), Ask.Scrape(86400), Charge(86399, 100)];
    var a := asks[..1];
    assert a == [Peek(80000)] && a[..0] == [] && After(a, 100) == Window(0, 0);
    var b := asks[..2];
    assert b == [Peek(80000), Charge(86399, 100)] && b[..1] == a && After(b, 100) == Window(0, 100);
    var c := asks[..3];
    assert c[..2] == b && c[2] == Ask.Scrape(86400) && After(c, 100) == Window(86400, 0);
  }

  lemma TwoStarted(lim: Limits)
    requires lim == Limits(0, 100)
    ensures var s := Run({0, 1}, lim, [Allocate("t", 80000), Look(0, "t", 100, 86399), Look(1, "t", 100, 86399)]);
            && s.asks == [Peek(80000)] && s.bytes == map["t" := 0] && s.log == [] && s.stages == []
            && s.readers == map[0 := Looked("t", 100, 86399), 1 := Looked("t", 100, 86399)]
  {
    var s0 := Fresh({0, 1});
    var allocate, look0, look1 := Allocate("t", 80000), Look(0, "t", 100, 86399), Look(1, "t", 100, 86399);
    RunOn({0, 1}, lim, [], [allocate, look0, look1]);
    assert [] + [allocate, look0, look1] == [allocate, look0, look1];
    TakeThree(s0, lim, allocate, look0, look1);
    NothingUsed([Peek(80000)], 100);
    var s1 := Take(s0, lim, allocate);
    assert s1.asks == [Peek(80000)];
    assert s1.live == {"t"} && s1.bytes == map["t" := 0] && s1.readers == map[0 := Idle, 1 := Idle];
  }

  lemma WitnessRises()
    ensures ClockRises([Allocate("t", 80000), Look(0, "t", 100, 86399), Look(1, "t", 100, 86399)]
                       + Serve(0, 86399) + [Metrics(86400)] + Serve(1, 86400))
  {
  }

  lemma {:induction false} BothCount(log: seq<Datagram>)
    requires |log| == 2 && forall i :: 0 <= i < 2 ==> log[i].size == 100 && log[i].now == 86399
    ensures Total(log, [Sent, Sent], SentOn(0)) == 200
  {
    assert [Sent, Sent][..1] == [Sent];
    assert Total(log[..1], [Sent], SentOn(0)) == 100;
  }

  /**
   * Two readers take the time a second before midnight; one charges the whole
   * limit, a metrics scrape after midnight moves the day on, and the other
   * charges for the day before: its 200 bytes are all forwarded under a limit of 100.
   */
  lemma ScrapedAtMidnight()
    ensures var steps := [Allocate("t", 80000), Look(0, "t", 100, 86399), Look(1, "t", 100, 86399)]
                         + Serve(0, 86399) + [Metrics(86400)] + Serve(1, 86400);
            var s := Run({0, 1}, Limits(0, 100), steps);
            && ClockRises(steps)
            && s.asks == [Peek(80000), Charge(86399, 100), Ask.Scrape(86400), Charge(86399, 100)]
            && Total(s.log, s.stages, SentOn(0)) == 200
  {
    hide Run, Serve, TakeAll, After, Passed, DayOf, Total, ClockRises;
    WitnessRises();
    var readers, lim := {0, 1}, Limits(0, 100);
    var steps0 := [Allocate("t", 80000), Look(0, "t", 100, 86399), Look(1, "t", 100, 86399)];
    TwoStarted(lim);
    TwoLimitsPass();
    var s0 := Run(readers, lim, steps0);
    var steps1 := steps0 + Serve(0, 86399);
    RunOn(readers, lim, steps0, Serve(0, 86399));
    Serves(s0, lim, 0, 86399);
    var s1 := Run(readers, lim, steps1);
    assert s1.asks == [Peek(80000), Charge(86399, 100)] && s1.stages == [Sent];
    var steps2 := steps1 + [Metrics(86400)];
    RunNext(readers, lim, steps1, Metrics(86400));
    var s2 := Run(readers, lim, steps2);
    RunOn(readers, lim, steps2, Serve(1, 86400));
    Serves(s2, lim, 1, 86400);
    var s3 := Run(readers, lim, steps2 + Serve(1, 86400));
    assert s3.asks == [Peek(80000), Charge(86399, 100), Ask.Scrape(86400), Charge(86399, 100)];
    assert s3.stages == [Sent, Sent];
    BothCount(s3.log);
  }

  lemma RunNext(readers: set<int>, lim: Limits, steps: seq<Step>, step: Step)
    ensures Run(readers, lim, steps + [step]) == Take(Run(readers, lim, steps), lim, step)
  {
    assert (steps + [step])[..|steps|] == steps;
  }
}
