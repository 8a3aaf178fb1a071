/**
 * The cap on sessions per address. Creating and joining look at it; the poll
 * that gives a restored session its address does not.
 */
module SessionCap {
  import opened Basics
  import opened Counts
  import opened Sessions
  import opened SessionRuns

  /** In every run an address is charged at most the cap, and one more for each live restored session it polls. */
  lemma CapPlusRestored(cfg: Config, start: int, ops: seq<Op>, key: string)
    requires IsRun(cfg, start, ops) && cfg.maxSessionsPerIP > 0 && key != ""
    ensures var t := After(cfg, start, ops).value;
            Charges(RolesOf(t.live), key) <= cfg.maxSessionsPerIP + |RestoredAt(t.live, t.loaded, key)|
  {
    hide Charges, After;
    var t := After(cfg, start, ops).value;
    ChargesSplit(t.live, t.loaded, key);
    assert CapHeld(t, cfg);
  }

  lemma KeepsLoaded(t: Table, cfg: Config, op: Op)
    requires SlotsAgree(t) && !op.OpLoad?
    ensures Step(t, cfg, op).0.loaded == t.loaded
  {
    hide Charges, Admit, AtCap;
  }

  lemma {:induction false} LoadedByLoad(cfg: Config, start: int, ops: seq<Op>)
    requires IsRun(cfg, start, ops) && forall i :: 0 <= i < |ops| ==> !ops[i].OpLoad?
    ensures After(cfg, start, ops).value.loaded == {}
  {
    hide Step, Sensible, SlotsAgree, JoinsMatch, WellCharged, CapHeld, UsedSlotsFree;
    if ops != [] {
      KeepsLoaded(After(cfg, start, ops[..|ops| - 1]).value, cfg, ops[|ops| - 1]);
      LoadedByLoad(cfg, start, ops[..|ops| - 1]);
    }
  }

  /** Without a restored snapshot no address is ever charged for more roles than the cap. */
  lemma CapHoldsInEveryRun(cfg: Config, start: int, ops: seq<Op>, key: string)
    requires IsRun(cfg, start, ops) && (forall i :: 0 <= i < |ops| ==> !ops[i].OpLoad?)
    requires cfg.maxSessionsPerIP > 0 && key != ""
    ensures Charges(RolesOf(After(cfg, start, ops).value.live), key) <= cfg.maxSessionsPerIP
  {
    hide Charges, After;
    LoadedByLoad(cfg, start, ops);
    CapPlusRestored(cfg, start, ops, key);
    assert RestoredAt(After(cfg, start, ops).value.live, {}, key) == {};
  }

  // ---- exactly when the cap is passed ----

  /** An admitted poll by the sender of a restored session that no address is charged for yet. */
  predicate Adopts(t: Table, cfg: Config, op: Op)
    requires SlotsAgree(t)
  {
    && op.OpWait? && Admit(t.accepted, cfg, op.ip, op.now).0 && op.slot in t.bySlot
    && t.live[t.bySlot[op.slot]].SideOf(op.bearer) == Some(Sender) && t.live[t.bySlot[op.slot]].senderKey == ""
  }

  /** ... while the caller's address is at its cap. */
  ghost predicate AdoptsOverCap(t: Table, cfg: Config, op: Op)
    requires SlotsAgree(t)
  {
    Adopts(t, cfg, op) && AtCap(t, cfg, cfg.rateKey(op.ip))
  }

  /** One role more for a key. */
  ghost predicate ChargesOne(t: Table, t2: Table, key: string) {
    forall k: string :: k != "" ==> Charges(RolesOf(t2.live), k) == Charges(RolesOf(t.live), k) + (if k == key then 1 else 0)
  }

  lemma PutCharges(t: Table, t2: Table, s: Session, key: string)
    requires t2.live == t.live[s.id := s]
    requires forall k: string :: k != "" ==>
               Charged(Roles(s.senderKey, s.receiverKey), k)
               == (if s.id in t.live then Charged(Roles(t.live[s.id].senderKey, t.live[s.id].receiverKey), k) else 0)
                  + (if k == key then 1 else 0)
    ensures ChargesOne(t, t2, key)
  {
    hide Charges, Charged;
    assert RolesOf(t2.live) == RolesOf(t.live)[s.id := Roles(s.senderKey, s.receiverKey)];
    ChargesGrow(RolesOf(t.live), s.id, Roles(s.senderKey, s.receiverKey), key);
  }

  lemma CreateCharges(t: Table, cfg: Config, op: Op)
    requires ValidConfig(cfg) && SlotsAgree(t) && JoinsMatch(t) && op.OpCreate? && Sensible(t, op)
    ensures var (t2, r) := Step(t, cfg, op);
            if r.Created? then ChargesOne(t, t2, cfg.rateKey(op.ip)) && !AtCap(t, cfg, cfg.rateKey(op.ip)) else t2.live == t.live
  {
    hide Charges, Admit, AtCap;
    var (t2, r) := Step(t, cfg, op);
    if r.Created? {
      PutCharges(t, t2, t2.live[op.id], cfg.rateKey(op.ip));
    }
  }

  lemma JoinCharges(t: Table, cfg: Config, op: Op)
    requires ValidConfig(cfg) && SlotsAgree(t) && WellCharged(t, cfg) && op.OpJoin? && Sensible(t, op)
    ensures var (t2, r) := Step(t, cfg, op);
            if r.Joined? then ChargesOne(t, t2, cfg.rateKey(op.ip)) && !AtCap(t, cfg, cfg.rateKey(op.ip)) else t2.live == t.live
  {
    hide Charges, Admit, AtCap;
    var (t2, r) := Step(t, cfg, op);
    if r.Joined? {
      JoinChanges(t, cfg, op.ip, op.slot, op.now, op.token, op.ice);
      PutCharges(t, t2, t2.live[r.id], cfg.rateKey(op.ip));
    }
  }

  lemma WaitFinds(t: Table, cfg: Config, op: Op)
    requires SlotsAgree(t) && op.OpWait?
    ensures var (t2, r) := Step(t, cfg, op);
            if r.Answered? || r.Parked? then r.id in t.live && (Adopts(t, cfg, op) <==> t.live[r.id].senderKey == "")
            else !Adopts(t, cfg, op) && t2.live == t.live
  {
    hide Admit;
  }

  /** A poll charges its caller exactly when it gives a restored session its address, at the cap or not. */
  lemma WaitCharges(t: Table, cfg: Config, op: Op)
    requires ValidConfig(cfg) && SlotsAgree(t) && WellCharged(t, cfg) && op.OpWait? && Sensible(t, op)
    ensures var t2 := Step(t, cfg, op).0;
            if Adopts(t, cfg, op) then ChargesOne(t, t2, cfg.rateKey(op.ip)) else RolesOf(t2.live) == RolesOf(t.live)
  {
    hide Charges, Wait, Adopts, Changed, CheckedRole, SlotsAgree, WellCharged, ChargesOne;
    var (t2, r) := Step(t, cfg, op);
    WaitFinds(t, cfg, op);
    if r.Answered? || r.Parked? {
      WaitChanges(t, cfg, op.ip, op.slot, op.bearer, op.now);
      if t.live[r.id].senderKey == "" {
        PutCharges(t, t2, t2.live[r.id], cfg.rateKey(op.ip));
      }
    }
  }

  lemma FewerCharges(t: Table, t2: Table, cfg: Config)
    requires WithinCap(t, cfg) && t2.live.Keys <= t.live.Keys && forall id <- t2.live :: t2.live[id] == t.live[id]
    ensures WithinCap(t2, cfg)
  {
    hide Charges;
    forall key: string
      ensures Charges(RolesOf(t2.live), key) <= Charges(RolesOf(t.live), key)
    {
      ChargesOfSubset(RolesOf(t2.live), RolesOf(t.live), key);
    }
  }

  lemma {:induction false} LoadCharges(t: Table, cfg: Config, saved: seq<Saved>, now: int)
    requires WithinCap(t, cfg)
    ensures WithinCap(Load(t, cfg, saved, now), cfg)
  {
    hide Charges;
    if saved != [] {
      var ss := saved[|saved| - 1];
      LoadCharges(t, cfg, saved[..|saved| - 1], now);
      var t1, t2 := Load(t, cfg, saved[..|saved| - 1], now), Load(t, cfg, saved, now);
      if t2 != t1 {
        PutCharges(t1, t2, Fresh(ss, now), "");
      }
    }
  }

  lemma OneMoreCharge(t: Table, t2: Table, cfg: Config, key: string)
    requires WithinCap(t, cfg) && ChargesOne(t, t2, key) && key != ""
    ensures WithinCap(t2, cfg) <==> !AtCap(t, cfg, key)
  {
    hide Charges;
  }

  lemma StepCharges(t: Table, t2: Table, cfg: Config, key: string, charges: bool)
    requires WithinCap(t, cfg) && key != ""
    requires if charges then ChargesOne(t, t2, key) && !AtCap(t, cfg, key) else RolesOf(t2.live) == RolesOf(t.live)
    ensures WithinCap(t2, cfg)
  {
    hide Charges, RolesOf, ChargesOne, AtCap;
    if charges {
      OneMoreCharge(t, t2, cfg, key);
    }
  }

  lemma WaitPasses(t: Table, cfg: Config, op: Op)
    requires ValidConfig(cfg) && SlotsAgree(t) && WellCharged(t, cfg) && op.OpWait? && Sensible(t, op) && WithinCap(t, cfg)
    ensures WithinCap(Step(t, cfg, op).0, cfg) <==> !AdoptsOverCap(t, cfg, op)
  {
    hide RolesOf, ChargesOne, Adopts, WithinCap, Step, SlotsAgree, WellCharged, Sensible, AtCap;
    WaitCharges(t, cfg, op);
    if Adopts(t, cfg, op) {
      OneMoreCharge(t, Step(t, cfg, op).0, cfg, cfg.rateKey(op.ip));
    } else {
      StepCharges(t, Step(t, cfg, op).0, cfg, cfg.rateKey(op.ip), false);
    }
  }

  lemma DeleteCharges(t: Table, cfg: Config, op: Op)
    requires SlotsAgree(t) && WithinCap(t, cfg) && op.OpDelete?
    ensures WithinCap(Step(t, cfg, op).0, cfg)
  {
    hide WithinCap, SlotsAgree;
    FewerCharges(t, Step(t, cfg, op).0, cfg);
  }

  lemma EvictCharges(t: Table, cfg: Config, op: Op)
    requires SlotsAgree(t) && WithinCap(t, cfg) && op.OpEvict?
    ensures WithinCap(Step(t, cfg, op).0, cfg)
  {
    hide WithinCap, SlotsAgree;
    FewerCharges(t, Step(t, cfg, op).0, cfg);
  }

  /** From a table within the cap, one step passes it exactly when it gives a restored session to an address at the cap. */
  lemma CapPassedExactly(t: Table, cfg: Config, op: Op)
    requires ValidConfig(cfg) && Inv(t, cfg) && Sensible(t, op) && WithinCap(t, cfg)
    ensures WithinCap(Step(t, cfg, op).0, cfg) <==> !AdoptsOverCap(t, cfg, op)
  {
    hide AtCap, SlotsAgree, JoinsMatch, WellCharged, CapHeld, UsedSlotsFree, ChargesOne, WithinCap, Load, EvictAmong, Wait, Create, DoJoin, Delete;
    var (t2, r) := Step(t, cfg, op);
    match op
    case OpCreate(ip, _, _, _, _, _) =>
      CreateCharges(t, cfg, op);
      StepCharges(t, t2, cfg, cfg.rateKey(ip), r.Created?);
    case OpJoin(ip, _, _, _, _) =>
      JoinCharges(t, cfg, op);
      StepCharges(t, t2, cfg, cfg.rateKey(ip), r.Joined?);
    case OpWait(_, _, _, _) => WaitPasses(t, cfg, op);
    case OpWake(_, _) =>
    case OpDelete(_, _, _, _) => DeleteCharges(t, cfg, op);
    case OpEvict(_) => EvictCharges(t, cfg, op);
    case OpLoad(saved, now) => LoadCharges(t, cfg, saved, now);
  }

  /** A run stays within the cap from start to end exactly when no step of it gives a restored session to an address at the cap. */
  lemma {:induction false} CapHoldsExactly(cfg: Config, start: int, ops: seq<Op>)
    requires IsRun(cfg, start, ops)
    ensures (forall i: nat :: i <= |ops| ==> WithinCap(TableAt(cfg, start, ops, i), cfg))
            <==> (forall i: nat :: i < |ops| ==> !AdoptsOverCap(TableAt(cfg, start, ops, i), cfg, ops[i]))
  {
    hide After, Step, SlotsAgree, JoinsMatch, WellCharged, CapHeld, UsedSlotsFree, AdoptsOverCap, WithinCap, TableAt, Sensible;
    if forall i: nat :: i < |ops| ==> !AdoptsOverCap(TableAt(cfg, start, ops, i), cfg, ops[i]) {
      forall i: nat | i <= |ops|
        ensures WithinCap(TableAt(cfg, start, ops, i), cfg)
      {
        WithinUpTo(cfg, start, ops, i);
      }
    } else {
      var i: nat :| i < |ops| && AdoptsOverCap(TableAt(cfg, start, ops, i), cfg, ops[i]);
      TableSteps(cfg, start, ops, i);
      if WithinCap(TableAt(cfg, start, ops, i), cfg) {
        CapPassedExactly(TableAt(cfg, start, ops, i), cfg, ops[i]);
        assert !WithinCap(TableAt(cfg, start, ops, i + 1), cfg);
      }
    }
  }

  lemma {:induction false} WithinUpTo(cfg: Config, start: int, ops: seq<Op>, n: nat)
    requires IsRun(cfg, start, ops) && n <= |ops|
    requires forall i: nat :: i < n ==> !AdoptsOverCap(TableAt(cfg, start, ops, i), cfg, ops[i])
    ensures WithinCap(TableAt(cfg, start, ops, n), cfg)
    decreases n
  {
    hide Step, Inv, AdoptsOverCap, Sensible;
    if n == 0 {
      EmptyWithin(cfg, start);
      assert ops[..0] == [];
    } else {
      WithinUpTo(cfg, start, ops, n - 1);
      hide After, WithinCap, TableAt;
      TableSteps(cfg, start, ops, n - 1);
      CapPassedExactly(TableAt(cfg, start, ops, n - 1), cfg, ops[n - 1]);
    }
  }

  lemma EmptyWithin(cfg: Config, start: int)
    ensures WithinCap(Empty(start), cfg)
  {
    forall key: string
      ensures Charges(RolesOf(Empty(start).live), key) == 0
    {
      assert SendersAt(RolesOf(Empty(start).live), key) == {} && ReceiversAt(RolesOf(Empty(start).live), key) == {};
    }
  }

  // ---- a restart that passes it ----

  /** One session per address, and no rate limit. */
  function OneEach(): Config {
    Config(1, 0, 300, 90, 3600, ip => "at " + ip, ip => "", slot => true)
  }

  function Restart(): seq<Op> {
    [OpLoad([Saved("1", "plum", "a", IceCreds("", ""), 0), Saved("2", "pear", "b", IceCreds("", ""), 0)], 0),
     OpWait("ip", "plum", "a", 0),
     OpWait("ip", "pear", "b", 0)]
  }

  lemma Restored()
    ensures var cfg := OneEach();
            && IsRun(cfg, 0, Restart()[..1])
            && After(cfg, 0, Restart()[..1]).value.live
               == map["1" := Fresh(Saved("1", "plum", "a", IceCreds("", ""), 0), 0),
                      "2" := Fresh(Saved("2", "pear", "b", IceCreds("", ""), 0), 0)]
            && After(cfg, 0, Restart()[..1]).value.bySlot == map["plum" := "1", "pear" := "2"]
            && After(cfg, 0, Restart()[..1]).value.clock == 0
  {
    hide Inv;
    var cfg, saved := OneEach(), Restart()[0].saved;
    var first := Restart()[..1];
    assert first == [OpLoad(saved, 0)] && first[..0] == [];
    assert saved[..2] == saved && saved[..2][..1] == saved[..1] && saved[..1][..0] == [];
    assert Load(Empty(0), cfg, saved[..1][..0], 0) == Empty(0);
    assert Load(Empty(0), cfg, saved[..1], 0) == LoadOne(Empty(0), cfg, saved[0], 0);
  }

  lemma RunStep(cfg: Config, start: int, ops: seq<Op>, n: nat)
    requires n < |ops| && IsRun(cfg, start, ops[..n]) && Sensible(After(cfg, start, ops[..n]).value, ops[n])
    ensures IsRun(cfg, start, ops[..n + 1])
    ensures After(cfg, start, ops[..n + 1]).value == Step(After(cfg, start, ops[..n]).value, cfg, ops[n]).0
  {
    hide Inv, Step, Sensible;
    assert ops[..n + 1][..n] == ops[..n];
  }

  lemma TwoCharged(live: map<string, Session>, key: string)
    requires live.Keys == {"1", "2"} && key != ""
    requires forall id <- live :: live[id].senderKey == key && live[id].receiverKey == ""
    ensures Charges(RolesOf(live), key) == 2
  {
    assert SendersAt(RolesOf(live), key) == {"1", "2"};
    assert ReceiversAt(RolesOf(live), key) == {};
  }

  /**
   * One session per address, and a restart that restored two: their senders
   * poll from one address, and it is charged for both.
   */
  lemma CapPassedAfterRestart()
    ensures var cfg := OneEach();
            && IsRun(cfg, 0, Restart()) && cfg.maxSessionsPerIP == 1
            && Charges(RolesOf(After(cfg, 0, Restart()).value.live), cfg.rateKey("ip")) == 2
  {
    hide Inv, Charges, After;
    var cfg, ops := OneEach(), Restart();
    Restored();
    var t1 := After(cfg, 0, ops[..1]).value;
    assert ops[1] == OpWait("ip", "plum", "a", 0) && ops[2] == OpWait("ip", "pear", "b", 0);
    RunStep(cfg, 0, ops, 1);
    var t2 := After(cfg, 0, ops[..2]).value;
    assert t2.live == t1.live["1" := Seen(t1.live["1"], "ip", cfg.rateKey("ip"), 0)];
    assert t2.bySlot == t1.bySlot && t2.clock == 0;
    RunStep(cfg, 0, ops, 2);
    var t3 := After(cfg, 0, ops[..3]).value;
    assert t3.live == t2.live["2" := Seen(t2.live["2"], "ip", cfg.rateKey("ip"), 0)];
    assert ops[..3] == ops;
    TwoCharged(t3.live, cfg.rateKey("ip"));
  }
}
