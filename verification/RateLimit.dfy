/** The per-address rate limit: at most so many accepted calls in any window of time. */
module RateLimit {

  /** The stamps after the cutoff, in order. */
  function Recent(stamps: seq<int>, cutoff: int): (r: seq<int>)
    ensures |r| <= |stamps|
  {
    if stamps == [] then []
    else
      var last := stamps[|stamps| - 1];
      Recent(stamps[..|stamps| - 1], cutoff) + (if last > cutoff then [last] else [])
  }

  /** One call against the stamps kept: the verdict, and the stamps kept from now on. */
  function AllowStep(stamps: seq<int>, now: int, limit: int, window: nat): (bool, seq<int>) {
    var keep := Recent(stamps, now - window);
    if |keep| >= limit then (false, keep) else (true, keep + [now])
  }

  /** A bucket's stamps live in a buffer that is compacted in place. */
  class RateBucket {
    var buf: array<int>
    var len: nat

    ghost predicate Valid()
      reads this
    {
      len <= buf.Length
    }

    ghost function Stamps(): seq<int>
      reads this, buf
      requires Valid()
    {
      buf[..len]
    }

    constructor ()
      ensures Valid() && Stamps() == [] && fresh(buf)
    {
      buf := new int[0];
      len := 0;
    }

    /** Moves the stamps after the cutoff to the front of the buffer. */
    method Compact(cutoff: int)
      requires Valid()
      modifies this`len, buf
      ensures Valid() && Stamps() == Recent(old(Stamps()), cutoff)
    {
      hide Recent;
      ghost var stamps := Stamps();
      RecentOfNone(cutoff);
      assert stamps[..0] == [];
      var kept := 0;
      for i := 0 to len
        invariant 0 <= kept <= i && len == |stamps| <= buf.Length
        invariant forall k :: i <= k < len ==> buf[k] == stamps[k]
        invariant buf[..kept] == Recent(stamps[..i], cutoff)
      {
        ghost var before := buf[..kept];
        RecentAppend(stamps[..i], stamps[i], cutoff);
        assert stamps[..i + 1] == stamps[..i] + [stamps[i]];
        if buf[i] > cutoff {
          buf[kept] := buf[i];
          kept := kept + 1;
          assert buf[..kept] == before + [stamps[i]];
        }
      }
      assert stamps[..|stamps|] == stamps;
      len := kept;
    }

    method Append(t: int)
      requires Valid()
      modifies this, buf
      ensures Valid() && Stamps() == old(Stamps()) + [t] && (buf == old(buf) || fresh(buf))
    {
      if len == buf.Length {
        var more := new int[2 * len + 1];
        for i := 0 to len
          invariant len <= buf.Length && buf == old(buf) && more.Length == 2 * len + 1 && len == old(len)
          invariant more[..i] == buf[..i]
          invariant buf[..] == old(buf[..])
        {
          more[i] := buf[i];
        }
        buf := more;
      }
      buf[len] := t;
      len := len + 1;
    }

    method Allow(now: int, limit: int, window: nat) returns (ok: bool)
      requires Valid()
      modifies this, buf
      ensures Valid() && (buf == old(buf) || fresh(buf))
      ensures (ok, Stamps()) == AllowStep(old(Stamps()), now, limit, window)
    {
      Compact(now - window);
      if len >= limit {
        return false;
      }
      Append(now);
      return true;
    }
  }

  // ---- an exact sliding window ----

  datatype Op = Call(now: int) | Prune(now: int)

  /** Verdicts of the calls among ops, and the stamps left. Prunes are the janitor's. */
  function RunOps(stamps: seq<int>, ops: seq<Op>, limit: int, window: nat): (seq<bool>, seq<int>) {
    if ops == [] then ([], stamps)
    else
      var (verdicts, kept) := RunOps(stamps, ops[..|ops| - 1], limit, window);
      match ops[|ops| - 1]
      case Call(now) =>
        var (ok, after) := AllowStep(kept, now, limit, window);
        (verdicts + [ok], after)
      case Prune(now) => (verdicts, Recent(kept, now - window))
  }

  /** The ideal: every accepted call is remembered for ever, and the last window of them is counted. */
  function Ideal(ops: seq<Op>, limit: int, window: nat): (seq<bool>, seq<int>) {
    if ops == [] then ([], [])
    else
      var (verdicts, accepted) := Ideal(ops[..|ops| - 1], limit, window);
      match ops[|ops| - 1]
      case Call(now) =>
        var ok := |Recent(accepted, now - window)| < limit;
        (verdicts + [ok], if ok then accepted + [now] else accepted)
      case Prune(_) => (verdicts, accepted)
  }

  ghost predicate TimesRise(ops: seq<Op>) {
    forall i, j :: 0 <= i < j < |ops| ==> ops[i].now <= ops[j].now
  }

  lemma {:induction false} RecentOfRecent(stamps: seq<int>, early: int, late: int)
    requires early <= late
    ensures Recent(Recent(stamps, early), late) == Recent(stamps, late)
  {
    if stamps != [] {
      var front, last := stamps[..|stamps| - 1], stamps[|stamps| - 1];
      RecentOfRecent(front, early, late);
      var kept := Recent(front, early);
      if last > early {
        assert (kept + [last])[..|kept|] == kept;
      } else {
        assert kept + [] == kept;
      }
    }
  }

  lemma RecentOfNone(cutoff: int)
    ensures Recent([], cutoff) == []
  {
  }

  /** Exactly the stamps after the cutoff are kept, each as often as it was there. */
  lemma {:induction false} RecentExactly(stamps: seq<int>, cutoff: int, t: int)
    ensures multiset(Recent(stamps, cutoff))[t] == if t > cutoff then multiset(stamps)[t] else 0
  {
    if stamps != [] {
      var front, last := stamps[..|stamps| - 1], stamps[|stamps| - 1];
      RecentExactly(front, cutoff, t);
      assert stamps == front + [last];
    }
  }

  lemma RecentAppend(stamps: seq<int>, t: int, cutoff: int)
    ensures Recent(stamps + [t], cutoff) == Recent(stamps, cutoff) + (if t > cutoff then [t] else [])
  {
    assert (stamps + [t])[..|stamps|] == stamps;
  }

  /**
   * For calls in time order the compacted bucket gives exactly the ideal
   * verdicts, wherever the janitor prunes; and from any later cutoff on it
   * remembers what the ideal remembers.
   */
  lemma {:induction false} ExactSlidingWindow(ops: seq<Op>, limit: int, window: nat, cutoff: int)
    requires TimesRise(ops) && forall i :: 0 <= i < |ops| ==> ops[i].now - window <= cutoff
    ensures RunOps([], ops, limit, window).0 == Ideal(ops, limit, window).0
    ensures Recent(RunOps([], ops, limit, window).1, cutoff) == Recent(Ideal(ops, limit, window).1, cutoff)
    decreases |ops|
  {
    hide Recent;
    if ops != [] {
      var front, op := ops[..|ops| - 1], ops[|ops| - 1];
      var at := op.now - window;
      ExactSlidingWindow(front, limit, window, at);
      ExactSlidingWindow(front, limit, window, cutoff);
      StepAgrees(RunOps([], front, limit, window).1, Ideal(front, limit, window).1, op, limit, window, cutoff);
    }
  }

  /** What one operation leaves of a bucket. */
  function Kept(stamps: seq<int>, op: Op, limit: int, window: nat): seq<int> {
    match op
    case Call(now) => AllowStep(stamps, now, limit, window).1
    case Prune(now) => Recent(stamps, now - window)
  }

  function Remembered(accepted: seq<int>, op: Op, limit: int, window: nat): seq<int> {
    match op
    case Call(now) => if |Recent(accepted, now - window)| < limit then accepted + [now] else accepted
    case Prune(_) => accepted
  }

  lemma StepAgrees(kept: seq<int>, accepted: seq<int>, op: Op, limit: int, window: nat, cutoff: int)
    requires op.now - window <= cutoff
    requires Recent(kept, op.now - window) == Recent(accepted, op.now - window)
    requires Recent(kept, cutoff) == Recent(accepted, cutoff)
    ensures Recent(Kept(kept, op, limit, window), cutoff) == Recent(Remembered(accepted, op, limit, window), cutoff)
  {
    hide Recent;
    var at := op.now - window;
    RecentOfRecent(kept, at, cutoff);
    RecentAppend(Recent(kept, at), op.now, cutoff);
    RecentAppend(accepted, op.now, cutoff);
  }

  /** Times in order, each accepted with room left in its own last window. */
  ghost predicate Accepts(accepted: seq<int>, limit: int, window: nat) {
    && (forall i, j :: 0 <= i < j < |accepted| ==> accepted[i] <= accepted[j])
    && (forall i :: 0 <= i < |accepted| ==> |Recent(accepted[..i], accepted[i] - window)| < limit)
  }

  lemma AcceptsOneMore(accepted: seq<int>, now: int, limit: int, window: nat)
    requires Accepts(accepted, limit, window)
    requires forall i :: 0 <= i < |accepted| ==> accepted[i] <= now
    requires |Recent(accepted, now - window)| < limit
    ensures Accepts(accepted + [now], limit, window)
  {
    hide Recent;
    var more := accepted + [now];
    forall i | 0 <= i < |more|
      ensures |Recent(more[..i], more[i] - window)| < limit
    {
      assert more[..i] == accepted[..i];
      assert accepted[..|accepted|] == accepted;
    }
  }

  lemma {:induction false} IdealAccepts(ops: seq<Op>, limit: int, window: nat)
    requires TimesRise(ops)
    ensures Accepts(Ideal(ops, limit, window).1, limit, window)
    ensures forall i :: 0 <= i < |Ideal(ops, limit, window).1| ==>
              ops != [] && Ideal(ops, limit, window).1[i] <= ops[|ops| - 1].now
  {
    hide Recent, Accepts;
    if ops == [] {
      NothingAccepted(limit, window);
    } else {
      var front, op := ops[..|ops| - 1], ops[|ops| - 1];
      IdealAccepts(front, limit, window);
      var before := Ideal(front, limit, window).1;
      assert Ideal(ops, limit, window).1 == Remembered(before, op, limit, window);
      assert front != [] ==> front[|front| - 1].now <= op.now;
      if op.Call? && |Recent(before, op.now - window)| < limit {
        AcceptsOneMore(before, op.now, limit, window);
      }
    }
  }

  lemma NothingAccepted(limit: int, window: nat)
    ensures Accepts([], limit, window)
  {
  }

  /** No window of time, wherever it starts, ever holds more accepted calls than the limit. */
  lemma {:induction false} NoWindowOverLimit(accepted: seq<int>, limit: int, window: nat, end: int)
    requires Accepts(accepted, limit, window)
    requires forall i :: 0 <= i < |accepted| ==> accepted[i] <= end
    ensures |Recent(accepted, end - window)| <= if accepted == [] then 0 else limit
    decreases |accepted|
  {
    if accepted != [] {
      var n := |accepted| - 1;
      RecentShrinks(accepted[..n], accepted[n] - window, end - window);
    }
  }

  lemma {:induction false} RecentShrinks(stamps: seq<int>, early: int, late: int)
    requires early <= late
    ensures |Recent(stamps, late)| <= |Recent(stamps, early)|
  {
    if stamps != [] {
      RecentShrinks(stamps[..|stamps| - 1], early, late);
    }
  }

  /**
   * In every run of calls and prunes: among the first k accepted calls, at
   * most limit lie in the window that ends at any moment after them.
   */
  lemma LimitHolds(ops: seq<Op>, limit: nat, window: nat, k: nat, end: int)
    requires TimesRise(ops) && k <= |Ideal(ops, limit, window).1|
    requires forall i :: 0 <= i < k ==> Ideal(ops, limit, window).1[i] <= end
    ensures |Recent(Ideal(ops, limit, window).1[..k], end - window)| <= limit
  {
    hide Recent, Accepts, Ideal;
    IdealAccepts(ops, limit, window);
    AcceptsPrefix(Ideal(ops, limit, window).1, limit, window, k);
    NoWindowOverLimit(Ideal(ops, limit, window).1[..k], limit, window, end);
  }

  lemma AcceptsPrefix(accepted: seq<int>, limit: int, window: nat, k: nat)
    requires Accepts(accepted, limit, window) && k <= |accepted|
    ensures Accepts(accepted[..k], limit, window)
  {
    hide Recent;
    assert forall i :: 0 <= i < k ==> accepted[..k][..i] == accepted[..i];
  }
}
