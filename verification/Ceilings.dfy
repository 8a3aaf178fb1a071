/**
 * The relay's byte ceilings under concurrent readers. Several read loops handle
 * datagrams at once; every step below is one atomic access to shared state
 * (an atomic add, a locked section, a compare-and-swap), and a run is any
 * interleaving of them. A step that is not enabled does nothing.
 */
module Ceilings {
  import opened Budget
  import Framing

  type Token = string

  const TOMBSTONE_TTL: nat := 300
  const MAX_DATAGRAM: nat := 2048

  datatype Limits = Limits(perSession: nat, perDay: nat)  // zero: unlimited

  /** A datagram whose bytes were added to its session; total is the session's running total just after. */
  datatype Datagram = Datagram(token: Token, size: nat, total: nat, now: int)

  /** Why a token was evicted. */
  datatype Reason = CapHit | BudgetHit | IdleHit

  datatype Tomb = Tomb(reason: Reason, until: int)

  /** How far its reader has got with it. */
  datatype Stage = UnderCap | OverCap | Charged | OverBudget | Counted | Peaked | Sent | Dropped(reason: Reason)
  {
    predicate WithinCap() {
      UnderCap? || Paid() || OverBudget?
    }

    predicate Paid() {
      Charged? || IsCounted()
    }

    predicate IsCounted() {
      Counted? || InPeak()
    }

    predicate InPeak() {
      Peaked? || Sent?
    }

    predicate Final() {
      Sent? || Dropped?
    }
  }

  datatype Reader =
    | Idle
    | Looked(token: Token, size: nat, now: int)  // found the allocation, which stays reachable even if evicted
    | Holds(i: nat)
    | Sees(i: nat, peak: nat)                    // loaded the peak, about to compare and swap
  {
    predicate Owns(k: nat) {
      (Holds? || Sees?) && i == k
    }
  }

  datatype Relay = Relay(
    live: set<Token>,
    tombs: map<Token, Tomb>,
    bytes: map<Token, nat>,   // every allocation ever made
    forwarded: nat,
    peak: nat,
    asks: seq<Ask>,           // everything asked of the day budget
    log: seq<Datagram>,
    stages: seq<Stage>,
    readers: map<int, Reader>)

  function Fresh(readers: set<int>): Relay {
    Relay({}, map[], map[], 0, 0, [], [], [], map r | r in readers :: Idle)
  }

  datatype Step =
    | Allocate(token: Token, now: int)
    | Look(r: int, token: Token, size: nat, now: int)
    | GiveUp(r: int)     // unregistered source, or no second peer yet
    | AddBytes(r: int)
    | ChargeDay(r: int)
    | CountBytes(r: int)
    | LoadPeak(r: int)
    | SwapPeak(r: int)
    | Forward(r: int)
    | EvictOver(r: int, now: int)
    | Sweep(idle: set<Token>, now: int)
    | Metrics(now: int)  // reads the day's bytes, and rolls the day

  function Holding(s: Relay, r: int): Reader {
    if r in s.readers then s.readers[r] else Idle
  }

  /** The stage of the datagram a reader holds; Sent when it holds none. */
  function StageOf(s: Relay, r: int): Stage {
    var h := Holding(s, r);
    if (h.Holds? || h.Sees?) && h.i < |s.stages| then s.stages[h.i] else Sent
  }

  function Held(s: Relay, r: int): nat {
    var h := Holding(s, r);
    if h.Holds? || h.Sees? then h.i else 0
  }

  function Advance(s: Relay, r: int, i: nat, stage: Stage, next: Reader): Relay
    requires i < |s.stages|
  {
    s.(stages := s.stages[i := stage], readers := s.readers[r := next])
  }

  predicate Shaped(s: Relay) {
    |s.stages| == |s.log|
  }

  function Take(s: Relay, lim: Limits, step: Step): (next: Relay)
    requires Shaped(s)
    ensures Shaped(next)
  {
    match step
    case Allocate(token, now) =>
      var asked := s.(asks := s.asks + [Peek(now)]);
      if token in s.bytes || (lim.perDay > 0 && After(asked.asks, lim.perDay).used >= lim.perDay) then asked
      else asked.(live := s.live + {token}, bytes := s.bytes[token := 0])
    case Look(r, token, size, now) =>
      if Holding(s, r) == Idle && r in s.readers && token in s.live && Framing.HEADER_SIZE <= size <= MAX_DATAGRAM then s.(readers := s.readers[r := Looked(token, size, now)]) else s
    case GiveUp(r) =>
      if Holding(s, r).Looked? then s.(readers := s.readers[r := Idle]) else s
    case AddBytes(r) =>
      var h := Holding(s, r);
      if h.Looked? && h.token in s.bytes then
        var total := s.bytes[h.token] + h.size;
        s.(bytes := s.bytes[h.token := total],
           log := s.log + [Datagram(h.token, h.size, total, h.now)],
           stages := s.stages + [if lim.perSession > 0 && total > lim.perSession then OverCap else UnderCap],
           readers := s.readers[r := Holds(|s.log|)])
      else s
    case ChargeDay(r) =>
      if StageOf(s, r).UnderCap? then
        var i := Holding(s, r).i;
        var asks := s.asks + [Charge(s.log[i].now, s.log[i].size)];
        Advance(s.(asks := asks), r, i, if Passed(asks, lim.perDay, |s.asks|) then Charged else OverBudget, Holds(i))
      else s
    case CountBytes(r) =>
      if StageOf(s, r).Charged? then
        var i := Holding(s, r).i;
        Advance(s.(forwarded := s.forwarded + s.log[i].size), r, i, Counted, Holds(i))
      else s
    case LoadPeak(r) =>
      if StageOf(s, r).Counted? && Holding(s, r).Holds? then s.(readers := s.readers[r := Sees(Holding(s, r).i, s.peak)]) else s
    case SwapPeak(r) =>
      if StageOf(s, r).Counted? && Holding(s, r).Sees? then
        var Sees(i, cur) := Holding(s, r);
        if s.log[i].total <= cur then Advance(s, r, i, Peaked, Holds(i))
        else if s.peak == cur then Advance(s.(peak := s.log[i].total), r, i, Peaked, Holds(i))
        else s.(readers := s.readers[r := Holds(i)])
      else s
    case Forward(r) =>
      if StageOf(s, r).Peaked? then Advance(s, r, Holding(s, r).i, Sent, Idle) else s
    case EvictOver(r, now) =>
      if StageOf(s, r).OverCap? || StageOf(s, r).OverBudget? then
        var i := Holding(s, r).i;
        var reason := if s.stages[i].OverCap? then CapHit else BudgetHit;
        Advance(s.(live := s.live - {s.log[i].token}, tombs := s.tombs[s.log[i].token := Tomb(reason, now + TOMBSTONE_TTL)]),
                r, i, Dropped(reason), Idle)
      else s
    case Sweep(idle, now) =>
      var gone := idle * s.live;
      var tombs := s.tombs + map t | t in gone :: Tomb(IdleHit, now + TOMBSTONE_TTL);
      s.(live := s.live - gone, tombs := map t | t in tombs && tombs[t].until >= now :: tombs[t])
    case Metrics(now) => s.(asks := s.asks + [Ask.Scrape(now)])
  }

  /** Any schedule of any number of readers, from an empty relay. */
  function Run(readers: set<int>, lim: Limits, steps: seq<Step>): (s: Relay)
    ensures Shaped(s)
  {
    if steps == [] then Fresh(readers) else Take(Run(readers, lim, steps[..|steps| - 1]), lim, steps[|steps| - 1])
  }

  // ---- sums over datagrams ----

  function SizeIf(c: bool, size: nat): nat {
    if c then size else 0
  }

  /** Which datagrams a sum counts. */
  datatype Weight = AdmittedTo(token: Token) | CountedTo(token: Token) | SentTo(token: Token) | CountedBytes | SentBytes | PaidOn(day: int) | SentOn(day: int)
  {
    predicate Counts(d: Datagram, s: Stage) {
      match this
      case AdmittedTo(t) => d.token == t && s.WithinCap()
      case CountedTo(t) => d.token == t && s.IsCounted()
      case SentTo(t) => d.token == t && s.Sent?
      case CountedBytes => s.IsCounted()
      case SentBytes => s.Sent?
      case PaidOn(day) => DayOf(d.now) == day && s.Paid()
      case SentOn(day) => DayOf(d.now) == day && s.Sent?
    }
  }

  function Total(log: seq<Datagram>, stages: seq<Stage>, weight: Weight): nat
    requires |log| == |stages|
  {
    if log == [] then 0
    else
      var n := |log| - 1;
      Total(log[..n], stages[..n], weight) + SizeIf(weight.Counts(log[n], stages[n]), log[n].size)
  }

  lemma {:induction false} TotalUpdate(log: seq<Datagram>, stages: seq<Stage>, i: nat, stage: Stage, weight: Weight)
    requires |log| == |stages| && i < |log|
    ensures Total(log, stages[i := stage], weight) + SizeIf(weight.Counts(log[i], stages[i]), log[i].size)
            == Total(log, stages, weight) + SizeIf(weight.Counts(log[i], stage), log[i].size)
  {
    var n := |log| - 1;
    if i == n {
      assert stages[i := stage][..n] == stages[..n];
    } else {
      TotalUpdate(log[..n], stages[..n], i, stage, weight);
      assert stages[i := stage][..n] == stages[..n][i := stage];
    }
  }

  lemma TotalAppend(log: seq<Datagram>, stages: seq<Stage>, d: Datagram, stage: Stage, weight: Weight)
    requires |log| == |stages|
    ensures Total(log + [d], stages + [stage], weight) == Total(log, stages, weight) + SizeIf(weight.Counts(d, stage), d.size)
  {
    assert (log + [d])[..|log|] == log && (stages + [stage])[..|log|] == stages;
  }

  lemma {:induction false} TotalMono(log: seq<Datagram>, stages: seq<Stage>, less: Weight, more: Weight)
    requires |log| == |stages| && forall i :: 0 <= i < |log| && less.Counts(log[i], stages[i]) ==> more.Counts(log[i], stages[i])
    ensures Total(log, stages, less) <= Total(log, stages, more)
  {
    if log != [] {
      TotalMono(log[..|log| - 1], stages[..|log| - 1], less, more);
    }
  }

  function AddedTo(log: seq<Datagram>, t: Token): nat {
    if log == [] then 0
    else AddedTo(log[..|log| - 1], t) + SizeIf(log[|log| - 1].token == t, log[|log| - 1].size)
  }

  // ---- the invariant ----

  /** A session's counter is the bytes added to it, and each datagram knows the total it brought it to. */
  ghost predicate TotalsExact(s: Relay) {
    && (forall t <- s.bytes :: s.bytes[t] == AddedTo(s.log, t))
    && (forall i :: 0 <= i < |s.log| ==> s.log[i].token in s.bytes)
    && (forall i :: 0 <= i < |s.log| ==> s.log[i].total == AddedTo(s.log[..i + 1], s.log[i].token))
    && (forall r <- s.readers :: s.readers[r].Looked? ==> s.readers[r].token in s.bytes)
  }

  ghost predicate CapChecked(s: Relay, lim: Limits)
    requires Shaped(s)
  {
    forall i :: 0 <= i < |s.log| ==>
      && (lim.perSession > 0 && s.stages[i].WithinCap() ==> s.log[i].total <= lim.perSession)
      && (s.stages[i].OverCap? || s.stages[i] == Dropped(CapHit) ==> 0 < lim.perSession < s.log[i].total)
  }

  ghost predicate CounterExact(s: Relay)
    requires Shaped(s)
  {
    s.forwarded == Total(s.log, s.stages, CountedBytes)
  }

  ghost predicate PeakSeen(s: Relay) {
    forall r <- s.readers :: s.readers[r].Sees? ==> s.readers[r].peak <= s.peak
  }

  ghost predicate PeakCovers(s: Relay)
    requires Shaped(s)
  {
    forall i :: 0 <= i < |s.log| && s.stages[i].InPeak() ==> s.log[i].total <= s.peak
  }

  ghost predicate PeakReached(s: Relay)
    requires Shaped(s)
  {
    s.peak == 0 || exists i :: 0 <= i < |s.log| && s.stages[i].IsCounted() && s.log[i].total == s.peak
  }

  /** The peak is the total of some forwarded datagram, and of none less than it. */
  ghost predicate PeakTracks(s: Relay)
    requires Shaped(s)
  {
    PeakSeen(s) && PeakCovers(s) && PeakReached(s)
  }

  ghost predicate BudgetExact(s: Relay, lim: Limits)
    requires Shaped(s)
  {
    forall day: int :: Total(s.log, s.stages, PaidOn(day)) == PassedOn(s.asks, lim.perDay, day)
  }

  /** A token is live, or evicted and answering why, or forgotten. */
  ghost predicate TokensApart(s: Relay) {
    && s.live !! s.tombs.Keys && s.live <= s.bytes.Keys && s.tombs.Keys <= s.bytes.Keys
    && forall i :: 0 <= i < |s.log| ==> s.log[i].token in s.bytes
  }

  /** A token is said to be evicted over a ceiling only when a datagram of its own was dropped over that ceiling. */
  ghost predicate ReasonsTrue(s: Relay)
    requires Shaped(s)
  {
    forall t <- s.tombs :: s.tombs[t].reason != IdleHit ==> DroppedFor(s, t, s.tombs[t].reason)
  }

  ghost predicate DroppedFor(s: Relay, t: Token, reason: Reason)
    requires Shaped(s)
  {
    exists i :: 0 <= i < |s.log| && s.log[i].token == t && s.stages[i] == Dropped(reason)
  }

  /** Every datagram still under way is in some reader's hands. */
  ghost predicate Attended(s: Relay)
    requires Shaped(s)
  {
    forall i: nat :: i < |s.stages| && !s.stages[i].Final() ==> exists r :: r in s.readers && s.readers[r].Owns(i)
  }

  ghost predicate Inv(s: Relay, lim: Limits) {
    && Shaped(s) && TotalsExact(s) && CapChecked(s, lim) && CounterExact(s) && PeakTracks(s)
    && BudgetExact(s, lim) && TokensApart(s) && ReasonsTrue(s) && Attended(s)
  }

  lemma {:induction false} NothingAdded(log: seq<Datagram>, t: Token)
    requires forall i :: 0 <= i < |log| ==> log[i].token != t
    ensures AddedTo(log, t) == 0
  {
    if log != [] {
      NothingAdded(log[..|log| - 1], t);
    }
  }

  lemma TotalsKept(s: Relay, lim: Limits, step: Step)
    requires Shaped(s) && TotalsExact(s) && TokensApart(s)
    ensures TotalsExact(Take(s, lim, step))
  {
    hide After, Passed, DayOf, AddedTo;
    match step
    case Allocate(token, _) =>
      if token !in s.bytes {
        NothingAdded(s.log, token);
      }
    case AddBytes(r) => TotalsAfterAdd(s, lim, r);
    case _ =>
  }

  lemma TotalsAfterAdd(s: Relay, lim: Limits, r: int)
    requires Shaped(s) && TotalsExact(s)
    ensures TotalsExact(Take(s, lim, AddBytes(r)))
  {
    var h := Holding(s, r);
    if h.Looked? && h.token in s.bytes {
      var next := Take(s, lim, AddBytes(r));
      var n := |s.log|;
      assert next.log[..n] == s.log && next.log[..n + 1] == next.log;
      forall i | 0 <= i < n
        ensures next.log[i].total == AddedTo(next.log[..i + 1], next.log[i].token)
      {
        assert next.log[..i + 1] == s.log[..i + 1];
      }
    }
  }

  lemma CapKept(s: Relay, lim: Limits, step: Step)
    requires Shaped(s) && CapChecked(s, lim)
    ensures CapChecked(Take(s, lim, step), lim)
  {
    hide After, Passed, DayOf;
  }

  lemma CounterKept(s: Relay, lim: Limits, step: Step)
    requires Shaped(s) && CounterExact(s)
    ensures CounterExact(Take(s, lim, step))
  {
    hide After, Passed, DayOf, Total;
    SumsKept(s, lim, step, CountedBytes);
  }

  /** What a step does to a sum. */
  lemma SumsKept(s: Relay, lim: Limits, step: Step, w: Weight)
    requires Shaped(s)
    ensures var next := Take(s, lim, step);
            if next.stages == s.stages then next.log == s.log
            else if step.AddBytes? then
              && |next.log| == |s.log| + 1
              && Total(next.log, next.stages, w)
                 == Total(s.log, s.stages, w) + SizeIf(w.Counts(next.log[|s.log|], next.stages[|s.log|]), next.log[|s.log|].size)
            else
              && !step.Allocate? && !step.Sweep? && !step.Metrics?
              && var i := Held(s, step.r);
              && i < |s.log| == |next.log| && next.log == s.log
              && Total(next.log, next.stages, w) + SizeIf(w.Counts(s.log[i], s.stages[i]), s.log[i].size)
                 == Total(s.log, s.stages, w) + SizeIf(w.Counts(s.log[i], next.stages[i]), s.log[i].size)
  {
    hide After, Passed, DayOf, Total, Weight.Counts;
    var next := Take(s, lim, step);
    match step
    case AddBytes(r) =>
      if next.log != s.log {
        TotalAppend(s.log, s.stages, next.log[|s.log|], next.stages[|s.log|], w);
      }
    case ChargeDay(r) =>
      if next.stages != s.stages {
        TotalUpdate(s.log, s.stages, Held(s, r), StageOf(next, r), w);
      }
    case CountBytes(r) =>
      if next.stages != s.stages {
        TotalUpdate(s.log, s.stages, Held(s, r), Counted, w);
      }
    case SwapPeak(r) =>
      if next.stages != s.stages {
        TotalUpdate(s.log, s.stages, Held(s, r), Peaked, w);
      }
    case Forward(r) =>
      if next.stages != s.stages {
        TotalUpdate(s.log, s.stages, Held(s, r), Sent, w);
      }
    case EvictOver(r, _) =>
      if next.stages != s.stages {
        TotalUpdate(s.log, s.stages, Held(s, r), next.stages[Held(s, r)], w);
      }
    case _ =>
  }

  lemma PeakSeenKept(s: Relay, lim: Limits, step: Step)
    requires Shaped(s) && PeakSeen(s)
    ensures PeakSeen(Take(s, lim, step)) && s.peak <= Take(s, lim, step).peak
  {
    hide After, Passed, DayOf;
    assert step.SwapPeak? && Holding(s, step.r).Sees? ==> Holding(s, step.r).peak <= s.peak;
  }

  lemma PeakCoversKept(s: Relay, lim: Limits, step: Step)
    requires Shaped(s) && PeakSeen(s) && PeakCovers(s)
    ensures PeakCovers(Take(s, lim, step))
  {
    hide After, Passed, DayOf;
    PeakSeenKept(s, lim, step);
    assert step.SwapPeak? && Holding(s, step.r).Sees? ==> Holding(s, step.r).peak <= s.peak;
    hide PeakSeen;
  }

  lemma PeakReachedKept(s: Relay, lim: Limits, step: Step)
    requires Shaped(s) && PeakReached(s)
    ensures PeakReached(Take(s, lim, step))
  {
    hide After, Passed, DayOf;
    var next := Take(s, lim, step);
    if next.peak == s.peak != 0 {
      var i :| 0 <= i < |s.log| && s.stages[i].IsCounted() && s.log[i].total == s.peak;
      assert next.stages[i].IsCounted() && next.log[i] == s.log[i];
    } else if next.peak != s.peak {
      assert next.stages[Held(s, step.r)].IsCounted();
    }
  }

  lemma TokensKept(s: Relay, lim: Limits, step: Step)
    requires Shaped(s) && TokensApart(s)
    ensures TokensApart(Take(s, lim, step))
  {
    hide After, Passed, DayOf;
  }

  /** What became of a datagram stays so. */
  lemma FinalStays(s: Relay, lim: Limits, step: Step, i: nat)
    requires Shaped(s) && i < |s.log| && s.stages[i].Final()
    ensures var next := Take(s, lim, step);
            i < |next.log| && next.log[i] == s.log[i] && next.stages[i] == s.stages[i]
  {
    hide After, Passed, DayOf;
  }

  lemma ReasonsKept(s: Relay, lim: Limits, step: Step)
    requires Shaped(s) && ReasonsTrue(s)
    ensures ReasonsTrue(Take(s, lim, step))
  {
    hide After, Passed, DayOf;
    var next := Take(s, lim, step);
    forall t | t in next.tombs && next.tombs[t].reason != IdleHit
      ensures DroppedFor(next, t, next.tombs[t].reason)
    {
      if t in s.tombs && next.tombs[t] == s.tombs[t] {
        var i :| 0 <= i < |s.log| && s.log[i].token == t && s.stages[i] == Dropped(s.tombs[t].reason);
        FinalStays(s, lim, step, i);
      } else {
        assert step.EvictOver?;
        assert next.stages[Held(s, step.r)] == Dropped(next.tombs[t].reason);
      }
    }
  }

  lemma AttendedKept(s: Relay, lim: Limits, step: Step)
    requires Shaped(s) && Attended(s)
    ensures Attended(Take(s, lim, step))
  {
    hide After, Passed, DayOf;
    var next := Take(s, lim, step);
    forall i: nat | i < |next.stages| && !next.stages[i].Final()
      ensures exists r :: r in next.readers && next.readers[r].Owns(i)
    {
      if i < |s.stages| {
        assert !s.stages[i].Final();
        var r :| r in s.readers && s.readers[r].Owns(i);
        assert next.readers[r].Owns(i);
      } else {
        assert next.readers[step.r].Owns(i);
      }
    }
  }

  lemma BudgetKept(s: Relay, lim: Limits, step: Step)
    requires Shaped(s) && BudgetExact(s, lim)
    ensures BudgetExact(Take(s, lim, step), lim)
  {
    hide Take, Total, PassedOn;
    forall day: int
      ensures Total(Take(s, lim, step).log, Take(s, lim, step).stages, PaidOn(day)) == PassedOn(Take(s, lim, step).asks, lim.perDay, day)
    {
      BudgetKeptOn(s, lim, step, day);
    }
  }

  lemma AskedOnce(asks: seq<Ask>, ask: Ask, limit: nat, day: int)
    ensures PassedOn(asks + [ask], limit, day)
            == PassedOn(asks, limit, day) + (if ask.Charge? && Passed(asks + [ask], limit, |asks|) && DayOf(ask.now) == day then ask.n else 0)
  {
    assert (asks + [ask])[..|asks|] == asks;
  }

  lemma BudgetKeptOn(s: Relay, lim: Limits, step: Step, day: int)
    requires Shaped(s) && Total(s.log, s.stages, PaidOn(day)) == PassedOn(s.asks, lim.perDay, day)
    ensures Total(Take(s, lim, step).log, Take(s, lim, step).stages, PaidOn(day)) == PassedOn(Take(s, lim, step).asks, lim.perDay, day)
  {
    hide After, Passed, DayOf, Total, PassedOn;
    var next := Take(s, lim, step);
    SumsKept(s, lim, step, PaidOn(day));
    match step
    case Allocate(_, now) =>
      AskedOnce(s.asks, Peek(now), lim.perDay, day);
    case Metrics(now) =>
      AskedOnce(s.asks, Ask.Scrape(now), lim.perDay, day);
    case ChargeDay(r) =>
      if next != s {
        AskedOnce(s.asks, Charge(s.log[Held(s, r)].now, s.log[Held(s, r)].size), lim.perDay, day);
      }
    case _ =>
  }

  lemma StepKeeps(s: Relay, lim: Limits, step: Step)
    requires Inv(s, lim)
    ensures Inv(Take(s, lim, step), lim)
  {
    hide Take, TotalsExact, CapChecked, CounterExact, PeakSeen, PeakCovers, PeakReached, BudgetExact, TokensApart, ReasonsTrue, Attended;
    TotalsKept(s, lim, step);
    CapKept(s, lim, step);
    CounterKept(s, lim, step);
    PeakSeenKept(s, lim, step);
    PeakCoversKept(s, lim, step);
    PeakReachedKept(s, lim, step);
    BudgetKept(s, lim, step);
    TokensKept(s, lim, step);
    ReasonsKept(s, lim, step);
    AttendedKept(s, lim, step);
  }

  lemma {:induction false} RunKeeps(readers: set<int>, lim: Limits, steps: seq<Step>)
    ensures Inv(Run(readers, lim, steps), lim)
  {
    hide Inv, Take;
    if steps == [] {
      FreshHolds(readers, lim);
    } else {
      RunKeeps(readers, lim, steps[..|steps| - 1]);
      StepKeeps(Run(readers, lim, steps[..|steps| - 1]), lim, steps[|steps| - 1]);
    }
  }

  lemma FreshHolds(readers: set<int>, lim: Limits)
    ensures Inv(Fresh(readers), lim)
  {
  }

  // ---- what follows for every schedule ----

  /** What was let past the session cap never exceeds it. */
  lemma {:induction false} AdmittedWithinCap(log: seq<Datagram>, stages: seq<Stage>, t: Token, cap: nat)
    requires |log| == |stages|
    requires forall i :: 0 <= i < |log| ==> log[i].total == AddedTo(log[..i + 1], log[i].token)
    requires forall i :: 0 <= i < |log| && stages[i].WithinCap() ==> log[i].total <= cap
    ensures Total(log, stages, AdmittedTo(t)) <= AddedTo(log, t) && Total(log, stages, AdmittedTo(t)) <= cap
  {
    if log != [] {
      var n := |log| - 1;
      forall i | 0 <= i < n
        ensures log[..n][i].total == AddedTo(log[..n][..i + 1], log[..n][i].token)
      {
        assert log[..n][..i + 1] == log[..i + 1];
      }
      AdmittedWithinCap(log[..n], stages[..n], t, cap);
      assert log[..n + 1] == log;
    }
  }

  /** In every interleaving, no session forwards more than its cap. */
  lemma SessionCapHolds(readers: set<int>, lim: Limits, steps: seq<Step>, t: Token)
    requires lim.perSession > 0
    ensures var s := Run(readers, lim, steps);
            Total(s.log, s.stages, SentTo(t)) <= lim.perSession
  {
    hide Run, Total, AddedTo;
    RunKeeps(readers, lim, steps);
    var s := Run(readers, lim, steps);
    AdmittedWithinCap(s.log, s.stages, t, lim.perSession);
    TotalMono(s.log, s.stages, SentTo(t), AdmittedTo(t));
  }

  /** While no charge comes back to a day the budget was moved away from, no day forwards more than the daily limit. */
  lemma DailyLimitHolds(readers: set<int>, lim: Limits, steps: seq<Step>, day: int)
    requires lim.perDay > 0 && ChargesGrouped(Run(readers, lim, steps).asks)
    ensures var s := Run(readers, lim, steps);
            Total(s.log, s.stages, SentOn(day)) <= lim.perDay
  {
    hide Run, Total, PassedOn, DayOf, ChargesGrouped;
    RunKeeps(readers, lim, steps);
    var s := Run(readers, lim, steps);
    TotalMono(s.log, s.stages, SentOn(day), PaidOn(day));
    DayWithinLimit(s.asks, lim.perDay, day);
  }

  /**
   * While no charge has come back to a day that was left: a session is let in
   * exactly when its token is new and the bytes charged that day, the dropped
   * ones included, are below the daily limit.
   */
  lemma AllocatesExactly(readers: set<int>, lim: Limits, steps: seq<Step>, token: Token, now: int)
    requires var asks := Run(readers, lim, steps).asks; !Left(asks + [Peek(now)], DayOf(now))
    ensures var s := Run(readers, lim, steps);
            var next := Take(s, lim, Allocate(token, now));
            if token !in s.bytes && (lim.perDay == 0 || ChargedOn(s.asks, DayOf(now)) < lim.perDay)
            then next.live == s.live + {token} && next.bytes == s.bytes[token := 0]
            else next.live == s.live && next.bytes == s.bytes
  {
    hide Run, DayOf, PassedOn;
    var asks := Run(readers, lim, steps).asks;
    var more := asks + [Peek(now)];
    assert more[..|asks|] == asks && more[|asks|] == Peek(now);
    if lim.perDay > 0 {
      WindowIsDayTotal(more, lim.perDay, DayOf(now));
      AfterDay(more, lim.perDay, |asks|);
      assert more[..|more|] == more;
    }
  }

  /** A token is never live and evicted at once. */
  lemma NeverLiveAndEvicted(readers: set<int>, lim: Limits, steps: seq<Step>)
    ensures Run(readers, lim, steps).live !! Run(readers, lim, steps).tombs.Keys
  {
    hide Run;
    RunKeeps(readers, lim, steps);
  }

  ghost predicate AllIdle(s: Relay) {
    forall r <- s.readers :: s.readers[r] == Idle
  }

  /** Whenever no datagram is under way, the peak is the largest total of any datagram forwarded. */
  lemma PeakIsLargestForwarded(readers: set<int>, lim: Limits, steps: seq<Step>)
    requires AllIdle(Run(readers, lim, steps))
    ensures var s := Run(readers, lim, steps);
            && (forall i :: 0 <= i < |s.log| && s.stages[i].Sent? ==> s.log[i].total <= s.peak)
            && (s.peak == 0 || exists i :: 0 <= i < |s.log| && s.stages[i].Sent? && s.log[i].total == s.peak)
  {
    hide Run;
    RunKeeps(readers, lim, steps);
    hide TotalsExact, CapChecked, CounterExact, BudgetExact, TokensApart, ReasonsTrue;
    var s := Run(readers, lim, steps);
    assert forall i: nat :: i < |s.stages| ==> s.stages[i].Final();
  }

  /** ... and the global counter is the bytes forwarded. */
  lemma CounterIsForwarded(readers: set<int>, lim: Limits, steps: seq<Step>)
    requires AllIdle(Run(readers, lim, steps))
    ensures var s := Run(readers, lim, steps);
            s.forwarded == Total(s.log, s.stages, SentBytes)
  {
    hide Run, Total;
    RunKeeps(readers, lim, steps);
    hide TotalsExact, CapChecked, PeakTracks, BudgetExact, TokensApart, ReasonsTrue;
    var s := Run(readers, lim, steps);
    assert forall i: nat :: i < |s.stages| ==> s.stages[i].Final();
    TotalMono(s.log, s.stages, SentBytes, CountedBytes);
    TotalMono(s.log, s.stages, CountedBytes, SentBytes);
  }

  /** The bytes counted, token by token. */
  ghost function SumTokens(ts: set<Token>, log: seq<Datagram>, stages: seq<Stage>): nat
    requires |log| == |stages|
  {
    if ts == {} then 0
    else
      var t :| t in ts;
      Total(log, stages, CountedTo(t)) + SumTokens(ts - {t}, log, stages)
  }

  lemma {:induction false} SumTokensEmpty(ts: set<Token>)
    ensures SumTokens(ts, [], []) == 0
  {
    if ts != {} {
      var t :| t in ts;
      forall u | u in ts
        ensures SumTokens(ts - {u}, [], []) == 0
      {
        SumTokensEmpty(ts - {u});
      }
    }
  }

  lemma {:induction false} SumTokensAppend(ts: set<Token>, log: seq<Datagram>, stages: seq<Stage>)
    requires 0 < |log| == |stages|
    ensures var n := |log| - 1;
            SumTokens(ts, log, stages)
            == SumTokens(ts, log[..n], stages[..n]) + SizeIf(log[n].token in ts && stages[n].IsCounted(), log[n].size)
  {
    if ts != {} {
      forall t | t in ts
        ensures var n := |log| - 1;
                SumTokens(ts - {t}, log, stages)
                == SumTokens(ts - {t}, log[..n], stages[..n]) + SizeIf(log[n].token in ts - {t} && stages[n].IsCounted(), log[n].size)
      {
        SumTokensAppend(ts - {t}, log, stages);
      }
    }
  }

  lemma {:induction false} TokensPartition(ts: set<Token>, log: seq<Datagram>, stages: seq<Stage>)
    requires |log| == |stages| && forall i :: 0 <= i < |log| ==> log[i].token in ts
    ensures Total(log, stages, CountedBytes) == SumTokens(ts, log, stages)
  {
    hide SumTokens;
    if log == [] {
      SumTokensEmpty(ts);
    } else {
      var n := |log| - 1;
      TokensPartition(ts, log[..n], stages[..n]);
      SumTokensAppend(ts, log, stages);
    }
  }

  /** At every moment the global counter is the sum, over all sessions, of the bytes counted for them. */
  lemma CounterIsSumOverTokens(readers: set<int>, lim: Limits, steps: seq<Step>)
    ensures var s := Run(readers, lim, steps);
            s.forwarded == SumTokens(s.bytes.Keys, s.log, s.stages)
  {
    hide Run, Total, SumTokens;
    RunKeeps(readers, lim, steps);
    var s := Run(readers, lim, steps);
    TokensPartition(s.bytes.Keys, s.log, s.stages);
  }

  /** A sweep evicts exactly the idle sessions and forgets exactly the answers whose time is up. */
  lemma SweepsExactly(s: Relay, lim: Limits, idle: set<Token>, now: int, t: Token)
    requires Shaped(s) && TokensApart(s)
    ensures var next := Take(s, lim, Sweep(idle, now));
            && (t in next.live <==> t in s.live && t !in idle)
            && (t in next.tombs <==> (t in s.tombs && now <= s.tombs[t].until) || (t in s.live && t in idle))
            && (t in s.live && t in idle ==> next.tombs[t] == Tomb(IdleHit, now + TOMBSTONE_TTL))
            && (t in s.tombs && t in next.tombs ==> next.tombs[t] == s.tombs[t])
  {
  }

  /** Nothing hangs: whatever a reader holds, one of its own steps takes it further. */
  lemma ReaderGoesOn(s: Relay, lim: Limits, r: int, now: int)
    requires Inv(s, lim) && r in s.readers && s.readers[r] != Idle
    requires (s.readers[r].Holds? || s.readers[r].Sees?) ==> s.readers[r].i < |s.log| && !s.stages[s.readers[r].i].Final()
    ensures Take(s, lim, GiveUp(r)).readers[r] == Idle || Take(s, lim, ChargeDay(r)) != s || Take(s, lim, CountBytes(r)) != s
            || Take(s, lim, LoadPeak(r)) != s || Take(s, lim, SwapPeak(r)) != s || Take(s, lim, Forward(r)) != s
            || Take(s, lim, EvictOver(r, now)) != s
    ensures s.readers[r].Looked? ==> Take(s, lim, GiveUp(r)) == s.(readers := s.readers[r := Idle]) && |Take(s, lim, AddBytes(r)).log| == |s.log| + 1
  {
    hide TotalsExact, CapChecked, CounterExact, PeakTracks, BudgetExact, TokensApart, ReasonsTrue, Attended, After, Passed, DayOf;
    if s.readers[r].Looked? {
      LookedIsKnown(s, lim, r);
    } else {
      StageMoves(s, lim, r, now);
    }
  }

  lemma LookedIsKnown(s: Relay, lim: Limits, r: int)
    requires Inv(s, lim) && r in s.readers && s.readers[r].Looked?
    ensures s.readers[r].token in s.bytes
  {
  }

  lemma StageMoves(s: Relay, lim: Limits, r: int, now: int)
    requires Shaped(s) && r in s.readers && (s.readers[r].Holds? || s.readers[r].Sees?)
    requires s.readers[r].i < |s.log| && !s.stages[s.readers[r].i].Final()
    ensures Take(s, lim, ChargeDay(r)) != s || Take(s, lim, CountBytes(r)) != s
            || Take(s, lim, LoadPeak(r)) != s || Take(s, lim, SwapPeak(r)) != s || Take(s, lim, Forward(r)) != s
            || Take(s, lim, EvictOver(r, now)) != s
  {
    hide After, Passed, DayOf;
    var i := s.readers[r].i;
    if s.stages[i].UnderCap? {
      assert Take(s, lim, ChargeDay(r)).stages[i] != s.stages[i];
    } else if s.stages[i].Charged? {
      assert Take(s, lim, CountBytes(r)).stages[i] != s.stages[i];
    } else if s.stages[i].Counted? {
      if s.readers[r].Holds? {
        assert Take(s, lim, LoadPeak(r)).readers[r] != s.readers[r];
      } else {
        assert Take(s, lim, SwapPeak(r)).readers[r] != s.readers[r];
      }
    } else if s.stages[i].Peaked? {
      assert Take(s, lim, Forward(r)).stages[i] != s.stages[i];
    } else {
      assert Take(s, lim, EvictOver(r, now)).stages[i] != s.stages[i];
    }
  }

  /** Evicted for good: a token no longer live never becomes live again. */
  lemma {:induction false} EvictedForGood(readers: set<int>, lim: Limits, steps: seq<Step>, k: nat, t: Token)
    requires k <= |steps|
    requires t in Run(readers, lim, steps[..k]).bytes && t !in Run(readers, lim, steps[..k]).live
    ensures t in Run(readers, lim, steps).bytes && t !in Run(readers, lim, steps).live
    decreases |steps| - k
  {
    hide Run, After, Passed;
    if k == |steps| {
      assert steps[..k] == steps;
    } else {
      RunOneMore(readers, lim, steps, k);
      EvictedForGood(readers, lim, steps, k + 1, t);
    }
  }

  lemma RunOneMore(readers: set<int>, lim: Limits, steps: seq<Step>, k: nat)
    requires k < |steps|
    ensures Run(readers, lim, steps[..k + 1]) == Take(Run(readers, lim, steps[..k]), lim, steps[k])
  {
    assert steps[..k + 1][..k] == steps[..k];
  }

  /** Nobody is cut off early: a datagram is refused by its session's cap only when the session's bytes are over it. */
  lemma CappedOnlyOverCap(readers: set<int>, lim: Limits, steps: seq<Step>, i: nat)
    requires i < |Run(readers, lim, steps).log| && Run(readers, lim, steps).stages[i].OverCap?
    ensures var s := Run(readers, lim, steps);
            0 < lim.perSession < AddedTo(s.log[..i + 1], s.log[i].token)
  {
    hide Run, AddedTo;
    RunKeeps(readers, lim, steps);
  }

  // ---- evicted tokens say why ----

  /** No sweep is later than until, and no eviction earlier than since. */
  predicate Within(steps: seq<Step>, since: int, until: int) {
    forall k :: 0 <= k < |steps| ==>
      (steps[k].Sweep? ==> since <= steps[k].now <= until) && (steps[k].EvictOver? ==> since <= steps[k].now)
  }

  /** Evicted, and answering which ceiling it passed. */
  predicate Answers(s: Relay, t: Token, until: int) {
    t in s.bytes && t !in s.live && t in s.tombs && until <= s.tombs[t].until && s.tombs[t].reason != IdleHit
  }

  lemma WithinSplit(steps: seq<Step>, k: nat, since: int, until: int)
    requires k < |steps| && Within(steps[k..], since, until)
    ensures Within([steps[k]], since, until) && Within(steps[k + 1..], since, until)
  {
    var rest := steps[k..];
    assert rest[0] == steps[k] && rest[1..] == steps[k + 1..];
  }

  lemma StillAnswers(s: Relay, lim: Limits, step: Step, t: Token, since: int)
    requires Shaped(s) && Answers(s, t, since + TOMBSTONE_TTL) && Within([step], since, since + TOMBSTONE_TTL)
    ensures Answers(Take(s, lim, step), t, since + TOMBSTONE_TTL)
  {
    hide After, Passed;
    assert [step][0] == step;
  }

  /** A token evicted answers for its eviction until its time is up, through every interleaving. */
  lemma {:induction false} EvictionIsAnswered(readers: set<int>, lim: Limits, steps: seq<Step>, k: nat, t: Token, since: int)
    requires k <= |steps| && Answers(Run(readers, lim, steps[..k]), t, since + TOMBSTONE_TTL)
    requires Within(steps[k..], since, since + TOMBSTONE_TTL)
    ensures Answers(Run(readers, lim, steps), t, since + TOMBSTONE_TTL)
    decreases |steps| - k
  {
    hide Run, Take, Answers;
    if k == |steps| {
      assert steps[..k] == steps;
    } else {
      RunOneMore(readers, lim, steps, k);
      WithinSplit(steps, k, since, since + TOMBSTONE_TTL);
      StillAnswers(Run(readers, lim, steps[..k]), lim, steps[k], t, since);
      EvictionIsAnswered(readers, lim, steps, k + 1, t, since);
    }
  }

  /** An eviction over a ceiling starts the answer, which names that ceiling. */
  lemma EvictionStartsAnswer(s: Relay, lim: Limits, r: int, now: int)
    requires Inv(s, lim) && (StageOf(s, r).OverCap? || StageOf(s, r).OverBudget?)
    ensures var next, t := Take(s, lim, EvictOver(r, now)), s.log[Held(s, r)].token;
            Answers(next, t, now + TOMBSTONE_TTL) && next.tombs[t].reason == (if StageOf(s, r).OverCap? then CapHit else BudgetHit)
  {
    hide TotalsExact, CapChecked, CounterExact, PeakTracks, BudgetExact, ReasonsTrue, Attended;
  }

  /** In every interleaving the answer is true: a token said to be over its cap has a datagram dropped over it, and likewise for the day. */
  lemma AnswerIsTrue(readers: set<int>, lim: Limits, steps: seq<Step>, t: Token)
    requires t in Run(readers, lim, steps).tombs && Run(readers, lim, steps).tombs[t].reason != IdleHit
    ensures var s := Run(readers, lim, steps);
            && DroppedFor(s, t, s.tombs[t].reason)
            && (s.tombs[t].reason == CapHit ==> 0 < lim.perSession < AddedTo(s.log, t))
  {
    hide Run, AddedTo;
    RunKeeps(readers, lim, steps);
    var s := Run(readers, lim, steps);
    hide CounterExact, PeakTracks, BudgetExact, TokensApart, Attended;
    var i :| 0 <= i < |s.log| && s.log[i].token == t && s.stages[i] == Dropped(s.tombs[t].reason);
    AddedToGrows(s.log, t, i + 1);
  }

  lemma {:induction false} AddedToGrows(log: seq<Datagram>, t: Token, n: nat)
    requires n <= |log|
    ensures AddedTo(log[..n], t) <= AddedTo(log, t)
    decreases |log|
  {
    if n == |log| {
      assert log[..n] == log;
    } else {
      AddedToGrows(log[..|log| - 1], t, n);
      assert log[..|log| - 1][..n] == log[..n];
    }
  }
}
