/**
 * When the pairing server says yes: which calls are admitted and answered, what
 * ends a session, and that a parked sender hears of its receiver.
 */
module SessionReplies {
  import opened Basics
  import opened Counts
  import R = RateLimit
  import opened Sessions
  import opened SessionRuns

  // ---- the rate limit ----

  /** How many calls against a key were accepted in the last minute. */
  function Lately(accepted: map<string, seq<int>>, key: string, now: int): nat {
    |R.Recent(AcceptedAt(accepted, key), now - MINUTE)|
  }

  /** Site keys are not address keys. */
  ghost predicate KeysApart(cfg: Config) {
    forall ip: string, other: string :: cfg.siteKey(ip) != "" ==> cfg.siteKey(ip) != cfg.rateKey(other)
  }

  /** Room for one more call from this address, and from its site when it has one. */
  predicate HasRoom(accepted: map<string, seq<int>>, cfg: Config, ip: string, now: int) {
    || cfg.maxNewPerMinute <= 0
    || (Lately(accepted, cfg.rateKey(ip), now) < cfg.maxNewPerMinute
        && (cfg.siteKey(ip) == "" || Lately(accepted, cfg.siteKey(ip), now) < V6_SITE_FACTOR * cfg.maxNewPerMinute))
  }

  /** Admitted exactly with room; an admitted call counts against both keys, one refused by its site against the address alone. */
  lemma AdmitExactly(accepted: map<string, seq<int>>, cfg: Config, ip: string, now: int)
    requires KeysApart(cfg)
    ensures Admit(accepted, cfg, ip, now).0 <==> HasRoom(accepted, cfg, ip, now)
    ensures var (ok, after) := Admit(accepted, cfg, ip, now);
            forall key ::
              AcceptedAt(after, key) ==
              if cfg.maxNewPerMinute > 0 && key == cfg.rateKey(ip) && Lately(accepted, key, now) < cfg.maxNewPerMinute
              then AcceptedAt(accepted, key) + [now]
              else if cfg.maxNewPerMinute > 0 && key == cfg.siteKey(ip) != "" && ok then AcceptedAt(accepted, key) + [now]
              else AcceptedAt(accepted, key)
  {
    hide R.Recent;
  }

  // ---- replies ----

  /** A new code is handed out exactly when it is well formed, the caller has room and is below the cap, and nothing holds or used the slot. */
  lemma CreateExactly(t: Table, cfg: Config, ip: string, slot: string, now: int, id: string, token: string, ice: IceCreds)
    requires KeysApart(cfg)
    ensures Create(t, cfg, ip, slot, now, id, token, ice).1 == Created(id) <==>
              && cfg.validSlot(slot) && HasRoom(t.accepted, cfg, ip, now) && !AtCap(t, cfg, cfg.rateKey(ip))
              && slot !in t.bySlot && !(slot in t.tombs && now < t.tombs[slot])
  {
    hide Admit, AtCap, HasRoom;
    AdmitExactly(t.accepted, cfg, ip, now);
  }

  /** A receiver is paired exactly when it has room and is below the cap, and the code is held, unused and not taken by another. */
  lemma JoinExactly(t: Table, cfg: Config, ip: string, slot: string, now: int, token: string, ice: IceCreds)
    requires KeysApart(cfg) && SlotsAgree(t)
    ensures DoJoin(t, cfg, ip, slot, now, token, ice).1.Joined? <==>
              && HasRoom(t.accepted, cfg, ip, now) && !AtCap(t, cfg, cfg.rateKey(ip))
              && slot in t.bySlot && !t.live[t.bySlot[slot]].paired && !(slot in t.tombs && now < t.tombs[slot])
  {
    hide Admit, AtCap, HasRoom;
    AdmitExactly(t.accepted, cfg, ip, now);
  }

  /** A poll with room finds its session exactly by the sender's token, and is answered when that is paired and parked when not. */
  lemma WaitExactly(t: Table, cfg: Config, ip: string, slot: string, bearer: string, now: int)
    requires KeysApart(cfg) && SlotsAgree(t)
    ensures var reply := Wait(t, cfg, ip, slot, bearer, now).1;
            if !HasRoom(t.accepted, cfg, ip, now) then reply == RateLimited
            else if slot in t.bySlot && bearer != "" && bearer == t.live[t.bySlot[slot]].senderToken then
              var s := t.live[t.bySlot[slot]];
              reply == if s.paired then Answered(s.id, Join(s.receiverAddr, s.receiverIce)) else Parked(s.id)
            else reply == NotFound
  {
    hide Admit, HasRoom;
    AdmitExactly(t.accepted, cfg, ip, now);
  }

  // ---- what ends a session ----

  /** Either side's token. */
  predicate HoldsToken(s: Session, bearer: string) {
    bearer != "" && (bearer == s.senderToken || bearer == s.receiverToken)
  }

  /** A delete with one of the session's own tokens, or a sweep past its time. */
  predicate Ends(s: Session, cfg: Config, op: Op) {
    || (op.OpDelete? && op.id == s.id && HoldsToken(s, op.bearer))
    || (op.OpEvict? && if s.paired then op.now > s.pairedAt + cfg.pairedTTL
                       else op.now > s.createdAt + cfg.unpairedTTL || op.now > s.lastSeen + cfg.abandonedTTL)
  }

  /** A live session ends exactly so, whatever else happens. */
  lemma EndsExactly(t: Table, cfg: Config, op: Op, id: string)
    requires ValidConfig(cfg) && Inv(t, cfg) && Sensible(t, op) && id in t.live
    ensures id in Step(t, cfg, op).0.live <==> !Ends(t.live[id], cfg, op)
  {
    hide Charges, Admit, AtCap, JoinsMatch, WellCharged, CapHeld, UsedSlotsFree, Load, Delete, Evict, Create, DoJoin, Wait;
    match op
    case OpCreate(_, _, _, _, _, _) => CallsKeep(t, cfg, op, id);
    case OpJoin(_, _, _, _, _) => CallsKeep(t, cfg, op, id);
    case OpWait(_, _, _, _) => CallsKeep(t, cfg, op, id);
    case OpLoad(saved, now) => LoadKeeps(t, cfg, saved, now);
    case OpDelete(_, _, _, _) => DeleteEnds(t, cfg, op, id);
    case OpEvict(now) => EvictedIff(t, cfg, now, id);
    case _ =>
  }

  lemma CallsKeep(t: Table, cfg: Config, op: Op, id: string)
    requires SlotsAgree(t) && (op.OpCreate? || op.OpJoin? || op.OpWait?) && id in t.live
    ensures id in Step(t, cfg, op).0.live
  {
    hide Admit, AtCap;
  }

  lemma DeleteEnds(t: Table, cfg: Config, op: Op, id: string)
    requires SlotsAgree(t) && op.OpDelete? && id in t.live
    ensures id in Step(t, cfg, op).0.live <==> !Ends(t.live[id], cfg, op)
  {
  }

  /** Deleting as used spends the code for ten minutes; deleting otherwise frees it at once. */
  lemma DeleteFrees(t: Table, cfg: Config, id: string, bearer: string, used: bool, now: int)
    requires ValidConfig(cfg) && Inv(t, cfg) && t.clock <= now && id in t.live && HoldsToken(t.live[id], bearer)
    ensures var (t2, reply) := Delete(t, id, bearer, used, now);
            && reply == Deleted && id !in t2.live && t.live[id].slot !in t2.bySlot
            && (forall at: int :: now <= at ==>
                  (Tombstoned(t2, t.live[id].slot, at) <==> used && at < now + CONSUMED_TTL))
  {
    hide JoinsMatch, WellCharged, CapHeld;
  }

  /** A session just created stays until its code is too old or its sender silent for too long. */
  lemma CreatedStays(t: Table, cfg: Config, ip: string, slot: string, now: int, id: string, token: string, ice: IceCreds, later: int)
    requires ValidConfig(cfg) && Inv(t, cfg) && t.clock <= now && id !in t.issued
    requires Create(t, cfg, ip, slot, now, id, token, ice).1.Created?
    ensures var t2 := Create(t, cfg, ip, slot, now, id, token, ice).0;
            id in t2.live && (id in Evict(t2, cfg, later).live <==> later - now <= cfg.unpairedTTL && later - now <= cfg.abandonedTTL)
  {
    hide Charges, Admit, AtCap, JoinsMatch, WellCharged, CapHeld, UsedSlotsFree;
    EvictedIff(Create(t, cfg, ip, slot, now, id, token, ice).0, cfg, later, id);
  }

  // ---- the rate limit over whole runs ----

  /** The step is a call from an address or site with this key that got past the rate limit. */
  ghost predicate Passes(cfg: Config, op: Op, reply: Reply, key: string) {
    && (op.OpCreate? || op.OpJoin? || op.OpWait?) && (cfg.rateKey(op.ip) == key || cfg.siteKey(op.ip) == key)
    && reply != RateLimited && reply != BadSlot
  }

  /** The times of those calls in the first n steps of a run. */
  ghost function Passed(cfg: Config, start: int, ops: seq<Op>, key: string, n: nat): seq<int>
    requires IsRun(cfg, start, ops) && n <= |ops|
  {
    if n == 0 then []
    else
      Passed(cfg, start, ops, key, n - 1)
      + (if Passes(cfg, ops[n - 1], ReplyAt(cfg, start, ops, n - 1), key) then [ops[n - 1].now] else [])
  }

  ghost predicate OnClock(calls: seq<int>, clock: int) {
    forall i :: 0 <= i < |calls| ==> calls[i] <= clock
  }

  /** What the table remembers of a key covers the calls it let pass, and is itself within the limit. */
  ghost predicate Covers(accepted: seq<int>, passed: seq<int>, limit: int, clock: int) {
    && R.Accepts(accepted, limit, MINUTE) && OnClock(accepted, clock)
    && forall cutoff: int :: |R.Recent(passed, cutoff)| <= |R.Recent(accepted, cutoff)|
  }

  /** An address key, or the site key of none but IPv6, with its limit. */
  function LimitOf(cfg: Config, site: bool): int {
    if site then V6_SITE_FACTOR * cfg.maxNewPerMinute else cfg.maxNewPerMinute
  }

  ghost predicate KeyOf(cfg: Config, key: string, site: bool) {
    && key != ""
    && if site then forall ip: string :: cfg.rateKey(ip) != key else forall ip: string :: cfg.siteKey(ip) != key
  }

  lemma CoversStep(accepted: seq<int>, passed: seq<int>, limit: int, clock: int, now: int, hit: bool, pass: bool)
    requires Covers(accepted, passed, limit, clock) && clock <= now && (pass ==> hit)
    requires hit ==> |R.Recent(accepted, now - MINUTE)| < limit
    ensures Covers(if hit then accepted + [now] else accepted, if pass then passed + [now] else passed, limit, now)
  {
    hide R.Recent, R.Accepts;
    if hit {
      R.AcceptsOneMore(accepted, now, limit, MINUTE);
    }
    var more, morePassed := if hit then accepted + [now] else accepted, if pass then passed + [now] else passed;
    forall cutoff: int
      ensures |R.Recent(morePassed, cutoff)| <= |R.Recent(more, cutoff)|
    {
      R.RecentAppend(accepted, now, cutoff);
      R.RecentAppend(passed, now, cutoff);
    }
  }

  lemma LaterCovers(accepted: seq<int>, passed: seq<int>, limit: int, clock: int, now: int)
    requires Covers(accepted, passed, limit, clock) && clock <= now
    ensures Covers(accepted, passed, limit, now)
  {
  }

  predicate IsCall(op: Op) {
    op.OpCreate? || op.OpJoin? || op.OpWait?
  }

  /** A call's admission is all a step does to the records. */
  lemma StepAdmits(t: Table, cfg: Config, op: Op)
    requires ValidConfig(cfg) && Inv(t, cfg) && Sensible(t, op)
    ensures var (t2, reply) := Step(t, cfg, op);
            if IsCall(op) && reply != BadSlot then
              && t2.accepted == Admit(t.accepted, cfg, op.ip, op.now).1 && t2.clock == op.now
              && (reply != RateLimited ==> Admit(t.accepted, cfg, op.ip, op.now).0)
            else t2.accepted == t.accepted
  {
    hide Charges, AtCap, JoinsMatch, WellCharged, CapHeld, UsedSlotsFree, Admit, Load, Create, DoJoin, Wait;
    match op
    case OpCreate(_, _, _, _, _, _) => CreateAdmits(t, cfg, op);
    case OpJoin(_, _, _, _, _) => JoinAdmits(t, cfg, op);
    case OpWait(_, _, _, _) => WaitAdmits(t, cfg, op);
    case OpLoad(saved, now) => LoadKeeps(t, cfg, saved, now);
    case _ =>
  }

  /** What a call does besides its reply. */
  ghost predicate Admits(t: Table, cfg: Config, op: Op)
    requires SlotsAgree(t) && IsCall(op)
  {
    var (t2, reply) := Step(t, cfg, op);
    if reply == BadSlot then t2.accepted == t.accepted
    else
      && t2.accepted == Admit(t.accepted, cfg, op.ip, op.now).1 && t2.clock == op.now
      && (reply != RateLimited ==> Admit(t.accepted, cfg, op.ip, op.now).0)
  }

  lemma CreateAdmits(t: Table, cfg: Config, op: Op)
    requires SlotsAgree(t) && op.OpCreate?
    ensures Admits(t, cfg, op)
  {
    hide Admit, AtCap, SlotsAgree;
  }

  lemma JoinAdmits(t: Table, cfg: Config, op: Op)
    requires SlotsAgree(t) && op.OpJoin?
    ensures Admits(t, cfg, op)
  {
    hide Admit, AtCap;
  }

  lemma WaitAdmits(t: Table, cfg: Config, op: Op)
    requires SlotsAgree(t) && op.OpWait?
    ensures Admits(t, cfg, op)
  {
    hide Admit;
  }

  /** What a call does to the record of a key: it hits with room, and not otherwise. */
  lemma AdmitHits(accepted: map<string, seq<int>>, cfg: Config, ip: string, now: int, key: string, site: bool) returns (hit: bool)
    requires KeysApart(cfg) && KeyOf(cfg, key, site) && cfg.maxNewPerMinute > 0
    ensures var (ok, after) := Admit(accepted, cfg, ip, now);
            && (ok && (cfg.rateKey(ip) == key || cfg.siteKey(ip) == key) ==> hit)
            && (hit ==> |R.Recent(AcceptedAt(accepted, key), now - MINUTE)| < LimitOf(cfg, site))
            && AcceptedAt(after, key) == if hit then AcceptedAt(accepted, key) + [now] else AcceptedAt(accepted, key)
  {
    hide Admit, R.Recent, AcceptedAt;
    AdmitExactly(accepted, cfg, ip, now);
    var ok := Admit(accepted, cfg, ip, now).0;
    hit := if site then key == cfg.siteKey(ip) && ok
           else key == cfg.rateKey(ip) && Lately(accepted, key, now) < cfg.maxNewPerMinute;
  }

  /** The invariant behind the limit: in every run a key's record covers the calls it let pass. */
  lemma {:induction false} RunCovers(cfg: Config, start: int, ops: seq<Op>, key: string, site: bool, n: nat)
    requires IsRun(cfg, start, ops) && n <= |ops| && KeysApart(cfg) && KeyOf(cfg, key, site) && cfg.maxNewPerMinute > 0
    ensures var t := TableAt(cfg, start, ops, n);
            Covers(AcceptedAt(t.accepted, key), Passed(cfg, start, ops, key, n), LimitOf(cfg, site), t.clock)
    decreases n
  {
    hide Step, SlotsAgree, JoinsMatch, WellCharged, CapHeld, UsedSlotsFree, Sensible, Covers, KeyOf, KeysApart, Admit, After;
    if n == 0 {
      assert ops[..0] == [];
      StartCovers(cfg, start, ops, LimitOf(cfg, site), key);
    } else {
      hide TableAt;
      RunCovers(cfg, start, ops, key, site, n - 1);
      var t, op := TableAt(cfg, start, ops, n - 1), ops[n - 1];
      TableSteps(cfg, start, ops, n - 1);
      StepAdmits(t, cfg, op);
      ClockRises(t, cfg, op);
      var t2, reply := Step(t, cfg, op).0, Step(t, cfg, op).1;
      var passed := Passed(cfg, start, ops, key, n - 1);
      assert Passed(cfg, start, ops, key, n) == if Passes(cfg, op, reply, key) then passed + [op.now] else passed;
      if IsCall(op) && reply != BadSlot {
        var hit := AdmitHits(t.accepted, cfg, op.ip, op.now, key, site);
        CoversStep(AcceptedAt(t.accepted, key), passed, LimitOf(cfg, site), t.clock, op.now, hit, Passes(cfg, op, reply, key));
      } else {
        LaterCovers(AcceptedAt(t.accepted, key), passed, LimitOf(cfg, site), t.clock, t2.clock);
      }
    }
  }

  lemma StartCovers(cfg: Config, start: int, ops: seq<Op>, limit: int, key: string)
    requires IsRun(cfg, start, ops) && ops[..0] == []
    ensures var t := TableAt(cfg, start, ops, 0);
            Covers(AcceptedAt(t.accepted, key), [], limit, t.clock)
  {
    R.NothingAccepted(limit, MINUTE);
  }

  /**
   * In every run, in any minute ending at or after its last step, the calls one
   * address got past the rate limit are within the limit, and those of one IPv6
   * site within four times it.
   */
  lemma RateLimitHolds(cfg: Config, start: int, ops: seq<Op>, key: string, site: bool, n: nat, end: int)
    requires IsRun(cfg, start, ops) && n <= |ops| && KeysApart(cfg) && KeyOf(cfg, key, site) && cfg.maxNewPerMinute > 0
    requires TableAt(cfg, start, ops, n).clock <= end
    ensures |R.Recent(Passed(cfg, start, ops, key, n), end - MINUTE)| <= LimitOf(cfg, site)
  {
    hide TableAt, R.Recent, R.Accepts, Passed;
    RunCovers(cfg, start, ops, key, site, n);
    var accepted := AcceptedAt(TableAt(cfg, start, ops, n).accepted, key);
    R.NoWindowOverLimit(accepted, LimitOf(cfg, site), MINUTE, end);
  }

  // ---- a parked sender hears of its receiver ----

  /** The join a session was paired by stands in the record. */
  lemma {:induction false} JoinStands(cfg: Config, start: int, ops: seq<Op>, j: nat, k: nat, id: string)
    requires IsRun(cfg, start, ops) && j < k <= |ops| && ReplyAt(cfg, start, ops, j).Joined? && ReplyAt(cfg, start, ops, j).id == id
    ensures ops[j].OpJoin? && id in TableAt(cfg, start, ops, k).joins
    ensures TableAt(cfg, start, ops, k).joins[id] == Join(ops[j].ip, ops[j].ice)
    decreases k
  {
    hide After, Inv, Sensible, Step, TableAt;
    TableSteps(cfg, start, ops, k - 1);
    StepRecordsJoins(TableAt(cfg, start, ops, k - 1), cfg, ops[k - 1]);
    if j < k - 1 {
      JoinStands(cfg, start, ops, j, k - 1, id);
    }
  }

  /** A woken poll is answered exactly when its session still holds the slot, with the join on record; otherwise it has expired. */
  lemma WakeExactly(cfg: Config, start: int, ops: seq<Op>, k: nat)
    requires IsRun(cfg, start, ops) && k < |ops| && ops[k].OpWake?
    ensures var t, reply := TableAt(cfg, start, ops, k), ReplyAt(cfg, start, ops, k);
            if ops[k].slot in t.bySlot && t.bySlot[ops[k].slot] == ops[k].id then
              ops[k].id in t.joins && reply == Answered(ops[k].id, t.joins[ops[k].id])
            else reply == Expired
  {
    hide After, TableAt, UsedSlotsFree, CapHeld, WellCharged;
    TableSteps(cfg, start, ops, k);
  }

  /** What the sender left when it created the session stays with it. */
  ghost predicate CreatedBy(t: Table, id: string, op: Op) {
    op.OpCreate? && (id in t.live ==>
      && t.live[id].slot == op.slot && t.live[id].senderAddr == op.ip && t.live[id].senderIce == op.ice
      && t.live[id].senderToken == op.token && t.live[id].senderKey != "")
  }

  lemma StepKeepsCreated(t: Table, cfg: Config, op: Op, id: string, created: Op)
    requires ValidConfig(cfg) && Inv(t, cfg) && Sensible(t, op) && id in t.issued && CreatedBy(t, id, created)
    ensures id in Step(t, cfg, op).0.issued && CreatedBy(Step(t, cfg, op).0, id, created)
  {
    hide Charges, Admit, AtCap, UsedSlotsFree, CapHeld, Load, Create, DoJoin, Wait;
    match op
    case OpCreate(_, _, _, _, _, _) => CreateKeepsOthers(t, cfg, op, id);
    case OpJoin(_, _, _, _, _) => JoinKeepsSender(t, cfg, op, id);
    case OpWait(_, _, _, _) => WaitKeepsSender(t, cfg, op, id);
    case OpLoad(saved, now) => LoadKeepsOthers(t, cfg, saved, now, id);
    case _ =>
  }

  lemma CreateKeepsOthers(t: Table, cfg: Config, op: Op, id: string)
    requires op.OpCreate? && op.id !in t.issued && id in t.issued
    ensures var t2 := Create(t, cfg, op.ip, op.slot, op.now, op.id, op.token, op.ice).0;
            id in t2.issued && (id in t2.live ==> id in t.live && t2.live[id] == t.live[id])
  {
    hide Admit, AtCap;
  }

  lemma JoinKeepsSender(t: Table, cfg: Config, op: Op, id: string)
    requires SlotsAgree(t) && op.OpJoin?
    ensures var t2 := DoJoin(t, cfg, op.ip, op.slot, op.now, op.token, op.ice).0;
            t2.issued == t.issued && (id in t2.live ==> id in t.live && SameSender(t.live[id], t2.live[id]))
  {
    hide Admit, AtCap;
  }

  predicate SameSender(s: Session, s2: Session) {
    && s2.slot == s.slot && s2.senderAddr == s.senderAddr && s2.senderIce == s.senderIce
    && s2.senderToken == s.senderToken && s2.senderKey == s.senderKey
  }

  lemma WaitKeepsSender(t: Table, cfg: Config, op: Op, id: string)
    requires SlotsAgree(t) && op.OpWait?
    ensures var t2 := Wait(t, cfg, op.ip, op.slot, op.bearer, op.now).0;
            t2.issued == t.issued && (id in t2.live ==> id in t.live && (t.live[id].senderKey != "" ==> SameSender(t.live[id], t2.live[id])))
  {
    hide Admit;
  }

  lemma {:induction false} LoadKeepsOthers(t: Table, cfg: Config, saved: seq<Saved>, now: int, id: string)
    requires id in t.issued && Loadable(t, saved, now)
    ensures var t2 := Load(t, cfg, saved, now);
            && t.issued <= t2.issued && t.live.Keys <= t2.live.Keys
            && (id in t2.live ==> id in t.live && t2.live[id] == t.live[id])
  {
    hide Usable, Fresh;
    if saved != [] {
      LoadKeepsOthers(t, cfg, saved[..|saved| - 1], now, id);
    }
  }

  lemma {:induction false} CreatedStands(cfg: Config, start: int, ops: seq<Op>, c: nat, k: nat, id: string)
    requires IsRun(cfg, start, ops) && c < k <= |ops| && ReplyAt(cfg, start, ops, c) == Created(id)
    ensures id in TableAt(cfg, start, ops, k).issued && CreatedBy(TableAt(cfg, start, ops, k), id, ops[c])
    decreases k
  {
    hide After, Inv, Sensible, Step, TableAt, CreatedBy;
    TableSteps(cfg, start, ops, k - 1);
    if c < k - 1 {
      CreatedStands(cfg, start, ops, c, k - 1, id);
      StepKeepsCreated(TableAt(cfg, start, ops, k - 1), cfg, ops[k - 1], id, ops[c]);
    } else {
      CreationCreates(TableAt(cfg, start, ops, c), cfg, ops[c], id);
    }
  }

  lemma CreationCreates(t: Table, cfg: Config, op: Op, id: string)
    requires ValidConfig(cfg) && Inv(t, cfg) && Sensible(t, op) && Step(t, cfg, op).1 == Created(id)
    ensures id in Step(t, cfg, op).0.issued && CreatedBy(Step(t, cfg, op).0, id, op)
  {
    hide Charges, Admit, AtCap, UsedSlotsFree, CapHeld, WellCharged, JoinsMatch, Load, EvictAmong;
    assert op.OpCreate? ==> cfg.rateKey(op.ip) != "";
  }

  /** The sessions woken stay so. */
  lemma {:induction false} WokenStands(cfg: Config, start: int, ops: seq<Op>, j: nat, k: nat, id: string)
    requires IsRun(cfg, start, ops) && j < k <= |ops| && ReplyAt(cfg, start, ops, j).Joined? && ReplyAt(cfg, start, ops, j).id == id
    ensures id in TableAt(cfg, start, ops, k).woken
    decreases k
  {
    hide After, Inv, Sensible, Step, TableAt;
    TableSteps(cfg, start, ops, k - 1);
    if j < k - 1 {
      WokenStands(cfg, start, ops, j, k - 1, id);
    }
    WokenGrows(TableAt(cfg, start, ops, k - 1), cfg, ops[k - 1], id);
  }

  lemma WokenGrows(t: Table, cfg: Config, op: Op, id: string)
    requires ValidConfig(cfg) && Inv(t, cfg) && Sensible(t, op)
    ensures var (t2, reply) := Step(t, cfg, op);
            (id in t.woken || (reply.Joined? && reply.id == id)) ==> id in t2.woken
  {
    hide Charges, Admit, AtCap, UsedSlotsFree, CapHeld, Load;
    match op
    case OpLoad(saved, now) => LoadKeeps(t, cfg, saved, now);
    case _ =>
  }

  /**
   * The ordinary order, in any run: a sender creates a code, polls and parks; a
   * receiver joins, and is told of the sender; the poll is woken, and as long
   * as the session still holds the slot it is answered with that receiver.
   */
  lemma ParkedSenderIsTold(cfg: Config, start: int, ops: seq<Op>, c: nat, w: nat, j: nat, k: nat, id: string)
    requires IsRun(cfg, start, ops) && c < w < j < k <= |ops|
    requires ReplyAt(cfg, start, ops, c) == Created(id) && ReplyAt(cfg, start, ops, w) == Parked(id)
    requires ReplyAt(cfg, start, ops, j).Joined? && ReplyAt(cfg, start, ops, j).id == id
    ensures ops[c].OpCreate? && ops[j].OpJoin? && ReplyAt(cfg, start, ops, j) == Joined(id, ops[c].ip, ops[c].ice)
    ensures var t, wake := TableAt(cfg, start, ops, k), OpWake(ops[c].slot, id);
            && Sensible(t, wake)
            && Step(t, cfg, wake).1 == if ops[c].slot in t.bySlot && t.bySlot[ops[c].slot] == id
                                       then Answered(id, Join(ops[j].ip, ops[j].ice)) else Expired
  {
    hide After, TableAt, UsedSlotsFree, CapHeld, WellCharged, Admit, AtCap, Charges;
    CreatedStands(cfg, start, ops, c, j, id);
    JoinTells(TableAt(cfg, start, ops, j), cfg, ops[j], id, ops[c]);
    JoinStands(cfg, start, ops, j, k, id);
    WokenStands(cfg, start, ops, j, k, id);
  }

  lemma JoinTells(t: Table, cfg: Config, op: Op, id: string, created: Op)
    requires SlotsAgree(t) && CreatedBy(t, id, created) && Step(t, cfg, op).1.Joined? && Step(t, cfg, op).1.id == id
    ensures Step(t, cfg, op).1 == Joined(id, created.ip, created.ice)
  {
    hide Admit, AtCap;
  }

  // ---- what a session is told, keeps and loses ----

  /** A joined session holds the receiver's own data, and its token from then on. */
  lemma JoinGives(t: Table, cfg: Config, ip: string, slot: string, now: int, token: string, ice: IceCreds)
    requires SlotsAgree(t) && DoJoin(t, cfg, ip, slot, now, token, ice).1.Joined?
    ensures var (t2, reply) := DoJoin(t, cfg, ip, slot, now, token, ice);
            && reply.id in t2.live
            && var s := t2.live[reply.id];
            && s.paired && s.pairedAt == now && s.receiverAddr == ip && s.receiverIce == ice && s.receiverToken == token
            && (token != "" ==> HoldsToken(s, token)) && SameSender(t.live[reply.id], s)
  {
    hide Admit, AtCap;
  }

  /** The first poll of a restored session gives it the caller's address, which the receiver that joins next is told. */
  lemma RestoredSenderIsFound(t: Table, cfg: Config, ip: string, slot: string, bearer: string, now: int,
                              receiver: string, later: int, token: string, ice: IceCreds)
    requires ValidConfig(cfg) && Inv(t, cfg) && t.clock <= now && Wait(t, cfg, ip, slot, bearer, now).1.Parked?
    requires t.live[t.bySlot[slot]].senderKey == ""
    ensures var (t2, reply) := Wait(t, cfg, ip, slot, bearer, now);
            && SlotsAgree(t2)
            && var joined := DoJoin(t2, cfg, receiver, slot, later, token, ice).1;
            joined.Joined? ==> joined == Joined(reply.id, ip, t.live[reply.id].senderIce)
  {
    WaitKeeps(t, cfg, ip, slot, bearer, now);
    hide Admit, AtCap, JoinsMatch, WellCharged, CapHeld, UsedSlotsFree;
  }

  /** A later poll, from wherever it comes, does not move the sender. */
  lemma PollsDoNotMove(t: Table, cfg: Config, ip: string, slot: string, bearer: string, now: int, id: string)
    requires SlotsAgree(t) && id in t.live && t.live[id].senderKey != ""
    ensures var t2 := Wait(t, cfg, ip, slot, bearer, now).0;
            id in t2.live && t2.live[id] == t.live[id].(lastSeen := t2.live[id].lastSeen)
  {
    hide Admit;
  }

  /** The sender of a waiting session that is swept away is woken, and told that it expired. */
  lemma SweptSenderIsTold(t: Table, cfg: Config, now: int, id: string)
    requires ValidConfig(cfg) && Inv(t, cfg) && t.clock <= now && id in t.live && !t.live[id].paired && t.live[id].Stale(cfg, now)
    ensures var t2 := Evict(t, cfg, now);
            id in t2.woken && SlotsAgree(t2) && Wake(t2, t.live[id].slot, id) == Expired
  {
    EvictKeeps(t, cfg, now, t.live.Keys);
    hide JoinsMatch, WellCharged, CapHeld, UsedSlotsFree;
    assert id in StaleAmong(t, cfg, now, t.live.Keys);
    assert id in WaitingOf(t.live, StaleAmong(t, cfg, now, t.live.Keys));
  }

  /** A session saved and restored keeps its code, token, credentials and age; its address is gone, and its sender counts as just seen. */
  lemma RestoredKeepsItsAge(was: Session, cfg: Config, now: int, later: int)
    ensures var s := Fresh(SavedForm(was), now);
            && s.id == was.id && s.slot == was.slot && s.senderToken == was.senderToken && s.senderIce == was.senderIce
            && !s.paired && s.senderKey == "" && s.receiverKey == "" && s.senderAddr == ""
            && (s.Stale(cfg, later) <==> later - was.createdAt > cfg.unpairedTTL || later - now > cfg.abandonedTTL)
  {
  }
}
