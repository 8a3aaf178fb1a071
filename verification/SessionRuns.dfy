/** What every run of the session table keeps, and whom a sender's wait is answered with. */
module SessionRuns {
  import opened Basics
  import opened Counts
  import opened Sessions

  datatype Op =
    | OpCreate(ip: string, slot: string, now: int, id: string, token: string, ice: IceCreds)
    | OpJoin(ip: string, slot: string, now: int, token: string, ice: IceCreds)
    | OpWait(ip: string, slot: string, bearer: string, now: int)
    | OpWake(slot: string, id: string)
    | OpDelete(id: string, bearer: string, used: bool, now: int)
    | OpEvict(now: int)
    | OpLoad(saved: seq<Saved>, now: int)

  /** Time does not run backwards, session IDs are fresh, and only a woken poll looks again. */
  ghost predicate Sensible(t: Table, op: Op) {
    match op
    case OpCreate(_, _, now, id, token, _) => t.clock <= now && id !in t.issued && id != "" && token != ""
    case OpJoin(_, _, now, _, _) => t.clock <= now
    case OpWait(_, _, _, now) => t.clock <= now
    case OpWake(_, id) => id in t.woken
    case OpDelete(_, _, _, now) => t.clock <= now
    case OpEvict(now) => t.clock <= now
    case OpLoad(saved, now) => t.clock <= now && Loadable(t, saved, now)
  }

  /** A snapshot names no session this server issued and lost, and no slot it holds a tombstone for. */
  ghost predicate Loadable(t: Table, saved: seq<Saved>, now: int) {
    forall i :: 0 <= i < |saved| ==>
      (saved[i].id in t.issued ==> saved[i].id in t.live) && !Tombstoned(t, saved[i].slot, now)
  }

  ghost function Step(t: Table, cfg: Config, op: Op): (Table, Reply)
    requires SlotsAgree(t)
  {
    match op
    case OpCreate(ip, slot, now, id, token, ice) => Create(t, cfg, ip, slot, now, id, token, ice)
    case OpJoin(ip, slot, now, token, ice) => DoJoin(t, cfg, ip, slot, now, token, ice)
    case OpWait(ip, slot, bearer, now) => Wait(t, cfg, ip, slot, bearer, now)
    case OpWake(slot, id) => (t, Wake(t, slot, id))
    case OpDelete(id, bearer, used, now) => Delete(t, id, bearer, used, now)
    case OpEvict(now) => (Evict(t, cfg, now), Swept)
    case OpLoad(saved, now) => (Load(t, cfg, saved, now), Restored)
  }

  // ---- charges ----

  ghost function RestoredAt(live: map<string, Session>, loaded: set<string>, key: string): set<string> {
    set id | id in live && live[id].id in loaded && live[id].senderKey == key
  }

  /** An address is charged for the roles checked against the cap and, unchecked, for the restored sessions it polls. */
  lemma ChargesSplit(live: map<string, Session>, loaded: set<string>, key: string)
    requires key != ""
    ensures Charges(RolesOf(live), key) == Charges(CheckedRoles(live, loaded), key) + |RestoredAt(live, loaded, key)|
  {
    assert SendersAt(RolesOf(live), key) == SendersAt(CheckedRoles(live, loaded), key) + RestoredAt(live, loaded, key);
    assert ReceiversAt(RolesOf(live), key) == ReceiversAt(CheckedRoles(live, loaded), key);
  }

  lemma ChargesOfSubset(roles: map<string, Roles>, more: map<string, Roles>, key: string)
    requires roles.Keys <= more.Keys && forall id <- roles :: roles[id] == more[id]
    ensures Charges(roles, key) <= Charges(more, key)
  {
    SubsetCard(SendersAt(roles, key), SendersAt(more, key));
    SubsetCard(ReceiversAt(roles, key), ReceiversAt(more, key));
  }

  lemma {:induction false} SubsetCard<T>(a: set<T>, b: set<T>)
    requires a <= b
    ensures |a| <= |b|
  {
    if a != {} {
      var x :| x in a;
      SubsetCard(a - {x}, b - {x});
    }
  }

  // ---- every step keeps the invariant ----

  /** Everything but the cap. */
  ghost predicate Sound(t: Table, cfg: Config) {
    SlotsAgree(t) && JoinsMatch(t) && WellCharged(t, cfg) && UsedSlotsFree(t)
  }

  /** A new waiting session takes a free slot. */
  ghost predicate Added(t: Table, t2: Table, s: Session) {
    && s.id !in t.issued && s.slot !in t.bySlot && !s.paired && s.receiverKey == ""
    && t.clock <= t2.clock && t2.tombs == t.tombs && t2.joins == t.joins && t2.woken == t.woken
    && t2.loaded == t.loaded + (if s.senderKey == "" then {s.id} else {})
    && t2.live == t.live[s.id := s] && t2.bySlot == t.bySlot[s.slot := s.id] && t2.issued == t.issued + {s.id}
  }

  /** A session changes, but keeps its name and slot; if it becomes paired its join is recorded and its waiters wake. */
  ghost predicate Changed(t: Table, t2: Table, s: Session) {
    && s.id in t.live && t.live[s.id].slot == s.slot && t.live[s.id].senderToken == s.senderToken
    && t2.live == t.live[s.id := s] && t2.bySlot == t.bySlot && t2.tombs == t.tombs && t.clock <= t2.clock
    && t2.issued == t.issued && t2.loaded == t.loaded
    && (s.paired <==> s.receiverKey != "") && (s.senderKey == "" ==> s.id in t.loaded)
    && if t.live[s.id].paired || !s.paired then
         t2.joins == t.joins && t2.woken == t.woken && t.live[s.id].paired == s.paired
         && s.receiverAddr == t.live[s.id].receiverAddr && s.receiverIce == t.live[s.id].receiverIce
       else t2.joins == t.joins[s.id := Join(s.receiverAddr, s.receiverIce)] && t2.woken == t.woken + {s.id}
  }

  lemma SlotsAfterPut(t: Table, t2: Table, s: Session)
    requires SlotsAgree(t) && t2.live == t.live[s.id := s] && t2.bySlot == t.bySlot[s.slot := s.id]
    requires if s.id in t.live then t.live[s.id].slot == s.slot else s.slot !in t.bySlot
    ensures SlotsAgree(t2)
  {
  }

  lemma JoinsAfterPut(t: Table, t2: Table, s: Session)
    requires JoinsMatch(t) && (Added(t, t2, s) || Changed(t, t2, s))
    ensures JoinsMatch(t2)
  {
  }

  lemma ChargedAfterPut(t: Table, t2: Table, cfg: Config, s: Session)
    requires WellCharged(t, cfg) && t2.live == t.live[s.id := s] && t.loaded <= t2.loaded
    requires s.paired <==> s.receiverKey != ""
    requires (s.senderKey == "" ==> s.id in t2.loaded) && s.id != "" && s.senderToken != "" && cfg.validSlot(s.slot)
    ensures WellCharged(t2, cfg)
  {
  }

  lemma AddKeeps(t: Table, t2: Table, cfg: Config, s: Session)
    requires Sound(t, cfg) && Added(t, t2, s) && !Tombstoned(t, s.slot, t2.clock)
    requires s.id != "" && s.senderToken != "" && cfg.validSlot(s.slot)
    ensures Sound(t2, cfg)
  {
    hide SlotsAgree, WellCharged, UsedSlotsFree;
    assert s.id !in t.live;
    JoinsAfterPut(t, t2, s);
    hide JoinsMatch;
    SlotsAfterPut(t, t2, s);
    ChargedAfterPut(t, t2, cfg, s);
    TombsAfterAdd(t, t2, s);
  }

  lemma TombsAfterAdd(t: Table, t2: Table, s: Session)
    requires UsedSlotsFree(t) && Added(t, t2, s) && !Tombstoned(t, s.slot, t2.clock)
    ensures UsedSlotsFree(t2)
  {
  }

  lemma ChangeKeeps(t: Table, t2: Table, cfg: Config, s: Session)
    requires Sound(t, cfg) && Changed(t, t2, s)
    ensures Sound(t2, cfg)
  {
    hide JoinsMatch, UsedSlotsFree;
    assert t.bySlot[s.slot := s.id] == t.bySlot;
    assert s.id != "" && s.senderToken != "" && cfg.validSlot(s.slot);
    SlotsAfterPut(t, t2, s);
    ChargedAfterPut(t, t2, cfg, s);
    JoinsAfterPut(t, t2, s);
    TombsOfSameSlots(t, t2);
  }

  lemma TombsOfSameSlots(t: Table, t2: Table)
    requires UsedSlotsFree(t) && t2.tombs == t.tombs && t2.bySlot == t.bySlot && t.clock <= t2.clock
    ensures UsedSlotsFree(t2)
  {
  }

  /** Sessions that leave, with their slots. */
  lemma DropKeeps(t: Table, t2: Table, cfg: Config, gone: set<string>)
    requires Sound(t, cfg) && gone <= t.live.Keys
    requires t2.live == t.live - gone && t2.bySlot == t.bySlot - SlotsOf(t.live, gone)
    requires t2.issued == t.issued && t2.loaded == t.loaded && t2.joins == t.joins && t.clock <= t2.clock
    requires t.woken <= t2.woken <= t.woken + gone
    requires forall slot <- t2.tombs :: (slot in t.tombs && t2.tombs[slot] == t.tombs[slot]) || slot !in t2.bySlot
    ensures Sound(t2, cfg)
  {
    hide JoinsMatch, WellCharged;
    SlotsAfterDrop(t, t2, gone);
    hide SlotsAgree;
    assert JoinsMatch(t2) by { JoinsAfterDrop(t, t2, gone); }
    assert WellCharged(t2, cfg) by { ChargedAfterDrop(t, t2, cfg, gone); }
  }

  lemma SlotsAfterDrop(t: Table, t2: Table, gone: set<string>)
    requires SlotsAgree(t) && gone <= t.live.Keys
    requires t2.live == t.live - gone && t2.bySlot == t.bySlot - SlotsOf(t.live, gone)
    ensures SlotsAgree(t2)
  {
    assert forall slot <- t2.bySlot :: t.live[t.bySlot[slot]].slot == slot;
  }

  lemma JoinsAfterDrop(t: Table, t2: Table, gone: set<string>)
    requires JoinsMatch(t) && t2.live == t.live - gone && gone <= t.live.Keys
    requires t2.issued == t.issued && t2.loaded == t.loaded && t2.joins == t.joins && t.woken <= t2.woken <= t.woken + gone
    ensures JoinsMatch(t2)
  {
  }

  lemma ChargedAfterDrop(t: Table, t2: Table, cfg: Config, gone: set<string>)
    requires WellCharged(t, cfg) && t2.live == t.live - gone && t2.loaded == t.loaded
    ensures WellCharged(t2, cfg)
  {
  }

  /** One role more, charged while its key was below the cap. */
  lemma CapAfterPut(t: Table, t2: Table, cfg: Config, s: Session, key: string)
    requires SlotsAgree(t) && CapHeld(t, cfg) && t2.loaded == t.loaded && t2.live == t.live[s.id := s] && key != ""
    requires forall k: string :: k != "" ==>
               Charged(CheckedRole(s, t.loaded), k)
               == (if s.id in t.live then Charged(CheckedRole(t.live[s.id], t.loaded), k) else 0) + (if k == key then 1 else 0)
    requires !AtCap(t, cfg, key)
    ensures CapHeld(t2, cfg)
  {
    hide Charges, Charged, CheckedRole, SlotsAgree;
    var roles, role := CheckedRoles(t.live, t.loaded), CheckedRole(s, t.loaded);
    assert CheckedRoles(t2.live, t2.loaded) == roles[s.id := role];
    ChargesGrow(roles, s.id, role, key);
    ChargesSplit(t.live, t.loaded, key);
    hide CheckedRoles;
    forall k: string | k != "" && cfg.maxSessionsPerIP > 0
      ensures Charges(CheckedRoles(t2.live, t2.loaded), k) <= cfg.maxSessionsPerIP
    {
      assert Charges(roles, k) <= cfg.maxSessionsPerIP;
      assert Charges(roles[s.id := role], k) == Charges(roles, k) + (if k == key then 1 else 0);
    }
  }

  lemma CreateKeeps(t: Table, cfg: Config, ip: string, slot: string, now: int, id: string, token: string, ice: IceCreds)
    requires ValidConfig(cfg) && Inv(t, cfg) && t.clock <= now && id !in t.issued && id != "" && token != ""
    ensures Inv(Create(t, cfg, ip, slot, now, id, token, ice).0, cfg)
  {
    hide Charges, Admit, SlotsAgree, WellCharged, CapHeld, AtCap;
    var (t2, r) := Create(t, cfg, ip, slot, now, id, token, ice);
    if r.Created? {
      assert id !in t.live;
      AddKeeps(t, t2, cfg, t2.live[id]);
      CapAfterPut(t, t2, cfg, t2.live[id], cfg.rateKey(ip));
    } else {
      QuietStep(t, t2, cfg);
    }
  }

  /** Only the clock and the rate limits moved. */
  lemma QuietStep(t: Table, t2: Table, cfg: Config)
    requires Inv(t, cfg) && t.clock <= t2.clock && t2 == t.(accepted := t2.accepted, clock := t2.clock)
    ensures Inv(t2, cfg)
  {
    hide Charges;
  }

  lemma JoinKeeps(t: Table, cfg: Config, ip: string, slot: string, now: int, token: string, ice: IceCreds)
    requires ValidConfig(cfg) && Inv(t, cfg) && t.clock <= now
    ensures Inv(DoJoin(t, cfg, ip, slot, now, token, ice).0, cfg)
  {
    hide Charges, Admit, SlotsAgree, WellCharged, JoinsMatch, UsedSlotsFree, CapHeld, AtCap;
    var (t2, r) := DoJoin(t, cfg, ip, slot, now, token, ice);
    if r.Joined? {
      JoinChanges(t, cfg, ip, slot, now, token, ice);
      var s := t2.live[r.id];
      hide DoJoin, Changed;
      ChangeKeeps(t, t2, cfg, s);
      CapAfterPut(t, t2, cfg, s, cfg.rateKey(ip));
    } else {
      QuietStep(t, t2, cfg);
    }
  }

  lemma JoinChanges(t: Table, cfg: Config, ip: string, slot: string, now: int, token: string, ice: IceCreds)
    requires ValidConfig(cfg) && SlotsAgree(t) && WellCharged(t, cfg) && t.clock <= now
    requires DoJoin(t, cfg, ip, slot, now, token, ice).1.Joined?
    ensures var (t2, r) := DoJoin(t, cfg, ip, slot, now, token, ice);
            && r.id in t.live && r.id in t2.live && t2.live[r.id].id == r.id && t2.live == t.live[r.id := t2.live[r.id]]
            && Changed(t, t2, t2.live[r.id]) && !AtCap(t, cfg, cfg.rateKey(ip))
            && t2.live[r.id].senderKey == t.live[r.id].senderKey
            && t.live[r.id].receiverKey == "" && t2.live[r.id].receiverKey == cfg.rateKey(ip)
  {
    hide Charges, Admit, AtCap;
    var id := t.bySlot[slot];
    assert t.live[id].receiverKey == "" && t.live[id].id == id;
  }

  lemma WaitKeeps(t: Table, cfg: Config, ip: string, slot: string, bearer: string, now: int)
    requires ValidConfig(cfg) && Inv(t, cfg) && t.clock <= now
    ensures Inv(Wait(t, cfg, ip, slot, bearer, now).0, cfg)
  {
    hide Charges, Admit, SlotsAgree, WellCharged, JoinsMatch, UsedSlotsFree, CapHeld, AtCap;
    var (t2, r) := Wait(t, cfg, ip, slot, bearer, now);
    if r.Answered? || r.Parked? {
      WaitChanges(t, cfg, ip, slot, bearer, now);
      hide Wait, Changed;
      ChangeKeeps(t, t2, cfg, t2.live[r.id]);
      SameCharges(t, t2, cfg, t2.live[r.id]);
    } else {
      QuietStep(t, t2, cfg);
    }
  }

  /** A poll that finds its session is a heartbeat, and charges nobody but the sender of a restored session. */
  lemma WaitChanges(t: Table, cfg: Config, ip: string, slot: string, bearer: string, now: int)
    requires ValidConfig(cfg) && SlotsAgree(t) && WellCharged(t, cfg) && t.clock <= now
    requires Wait(t, cfg, ip, slot, bearer, now).1.Answered? || Wait(t, cfg, ip, slot, bearer, now).1.Parked?
    ensures var (t2, r) := Wait(t, cfg, ip, slot, bearer, now);
            && r.id in t.live && r.id in t2.live && t2.live[r.id].id == r.id && t2.live == t.live[r.id := t2.live[r.id]]
            && t.live[r.id].id == r.id && Changed(t, t2, t2.live[r.id])
            && t2.live[r.id].receiverKey == t.live[r.id].receiverKey
            && t2.live[r.id].senderKey == (if t.live[r.id].senderKey == "" then cfg.rateKey(ip) else t.live[r.id].senderKey)
            && CheckedRole(t2.live[r.id], t.loaded) == CheckedRole(t.live[r.id], t.loaded)
  {
    hide Admit;
  }

  lemma SameCharges(t: Table, t2: Table, cfg: Config, s: Session)
    requires CapHeld(t, cfg) && t2.loaded == t.loaded && t2.live == t.live[s.id := s] && s.id in t.live && t.live[s.id].id == s.id
    requires CheckedRole(s, t.loaded) == CheckedRole(t.live[s.id], t.loaded)
    ensures CapHeld(t2, cfg)
  {
    hide Charges, CheckedRole;
    assert CheckedRoles(t2.live, t2.loaded) == CheckedRoles(t.live, t.loaded);
  }

  lemma FewerKeep(t: Table, t2: Table, cfg: Config)
    requires CapHeld(t, cfg) && t2.loaded == t.loaded
    requires t2.live.Keys <= t.live.Keys && forall id <- t2.live :: t2.live[id] == t.live[id]
    ensures CapHeld(t2, cfg)
  {
    hide Charges;
    forall key: string
      ensures Charges(CheckedRoles(t2.live, t2.loaded), key) <= Charges(CheckedRoles(t.live, t.loaded), key)
    {
      ChargesOfSubset(CheckedRoles(t2.live, t2.loaded), CheckedRoles(t.live, t.loaded), key);
    }
  }

  /** A restored session is charged to nobody yet. */
  lemma UnchargedKeeps(t: Table, t2: Table, cfg: Config, s: Session)
    requires SlotsAgree(t) && CapHeld(t, cfg) && t2.loaded == t.loaded + {s.id} && t2.live == t.live[s.id := s] && s.id !in t.live
    requires s.receiverKey == ""
    ensures CapHeld(t2, cfg)
  {
    hide Charges;
    var roles := CheckedRoles(t.live, t.loaded);
    assert CheckedRoles(t2.live, t2.loaded) == roles[s.id := Roles("", "")];
    ChargesGrow(roles, s.id, Roles("", ""), "");
    forall k: string | k != "" && cfg.maxSessionsPerIP > 0
      ensures Charges(CheckedRoles(t2.live, t2.loaded), k) <= cfg.maxSessionsPerIP
    {
      assert Charges(roles, k) <= cfg.maxSessionsPerIP;
      assert Charges(roles[s.id := Roles("", "")], k) == Charges(roles, k);
    }
  }

  lemma DeleteKeeps(t: Table, cfg: Config, id: string, bearer: string, used: bool, now: int)
    requires Inv(t, cfg) && t.clock <= now
    ensures Inv(Delete(t, id, bearer, used, now).0, cfg)
  {
    hide CapHeld, SlotsAgree, JoinsMatch, WellCharged, UsedSlotsFree;
    var (t2, r) := Delete(t, id, bearer, used, now);
    if r.Deleted? {
      assert SlotsOf(t.live, {id}) == {t.live[id].slot};
      DropKeeps(t, t2, cfg, {id});
      FewerKeep(t, t2, cfg);
    } else {
      QuietStep(t, t2, cfg);
    }
  }

  lemma EvictKeeps(t: Table, cfg: Config, now: int, ids: set<string>)
    requires Inv(t, cfg) && t.clock <= now
    ensures Inv(EvictAmong(t, cfg, now, ids), cfg)
  {
    hide CapHeld, SlotsAgree, JoinsMatch, WellCharged, UsedSlotsFree;
    DropKeeps(t, EvictAmong(t, cfg, now, ids), cfg, StaleAmong(t, cfg, now, ids));
    FewerKeep(t, EvictAmong(t, cfg, now, ids), cfg);
  }

  lemma StaleWithOneMore(t: Table, cfg: Config, now: int, ids: set<string>, id: string)
    requires id in t.live && id !in ids
    ensures StaleAmong(t, cfg, now, ids) <= t.live.Keys && id !in StaleAmong(t, cfg, now, ids)
    ensures StaleAmong(t, cfg, now, ids + {id})
            == StaleAmong(t, cfg, now, ids) + (if t.live[id].Stale(cfg, now) then {id} else {})
  {
  }

  /** The sweep goes one session at a time, in any order. */
  lemma EvictOneMore(t: Table, cfg: Config, now: int, ids: set<string>, id: string)
    requires id in t.live && id !in ids
    ensures id in EvictAmong(t, cfg, now, ids).live && EvictAmong(t, cfg, now, ids).live[id] == t.live[id]
    ensures var t1 := EvictAmong(t, cfg, now, ids);
            EvictAmong(t, cfg, now, ids + {id})
            == if !t.live[id].Stale(cfg, now) then t1
               else Forget(t1, id).(woken := if t.live[id].paired then t1.woken else t1.woken + {id})
  {
    hide StaleAmong, SlotsOf, WaitingOf, Session.Stale;
    var gone := StaleAmong(t, cfg, now, ids);
    StaleWithOneMore(t, cfg, now, ids, id);
    if t.live[id].Stale(cfg, now) {
      SlotsWithOneMore(t.live, gone, id);
      WaitingWithOneMore(t.live, gone, id);
      var slots := SlotsOf(t.live, gone);
      assert t.live - (gone + {id}) == (t.live - gone) - {id};
      assert t.bySlot - (slots + {t.live[id].slot}) == (t.bySlot - slots) - {t.live[id].slot};
    } else {
      assert gone + {} == gone;
    }
  }

  lemma SlotsWithOneMore(live: map<string, Session>, gone: set<string>, id: string)
    requires gone <= live.Keys && id in live
    ensures SlotsOf(live, gone + {id}) == SlotsOf(live, gone) + {live[id].slot}
  {
  }

  lemma WaitingWithOneMore(live: map<string, Session>, gone: set<string>, id: string)
    requires gone <= live.Keys && id in live
    ensures WaitingOf(live, gone + {id}) == WaitingOf(live, gone) + (if live[id].paired then {} else {id})
  {
  }

  ghost predicate LoadedFrom(t: Table, t2: Table) {
    && t2.tombs == t.tombs && t2.joins == t.joins && t2.woken == t.woken && t2.accepted == t.accepted
    && t.live.Keys <= t2.live.Keys && t2.issued == t.issued + t2.live.Keys
  }

  lemma LoadOneKeeps(t: Table, cfg: Config, ss: Saved)
    requires Inv(t, cfg) && (ss.id in t.issued ==> ss.id in t.live) && !Tombstoned(t, ss.slot, t.clock)
    ensures Inv(LoadOne(t, cfg, ss, t.clock), cfg)
  {
    hide CapHeld, SlotsAgree, JoinsMatch, WellCharged, UsedSlotsFree;
    var t2 := LoadOne(t, cfg, ss, t.clock);
    if ss.id in t.live || ss.slot in t.bySlot || !Usable(ss, cfg, t.clock) {
    } else {
      AddKeeps(t, t2, cfg, Fresh(ss, t.clock));
      UnchargedKeeps(t, t2, cfg, Fresh(ss, t.clock));
    }
  }

  lemma {:induction false} LoadKeeps(t: Table, cfg: Config, saved: seq<Saved>, now: int)
    requires Inv(t, cfg) && t.clock <= now && Loadable(t, saved, now)
    ensures Inv(Load(t, cfg, saved, now), cfg) && LoadedFrom(t, Load(t, cfg, saved, now))
    ensures Load(t, cfg, saved, now).clock == now
  {
    hide CapHeld, SlotsAgree, JoinsMatch, WellCharged, UsedSlotsFree;
    if saved == [] {
      var t2 := Load(t, cfg, saved, now);
      LoadStart(t, t2, cfg);
    } else {
      var n := |saved| - 1;
      LoadKeeps(t, cfg, saved[..n], now);
      var t1 := Load(t, cfg, saved[..n], now);
      LoadOneKeeps(t1, cfg, saved[n]);
    }
  }

  lemma LoadStart(t: Table, t2: Table, cfg: Config)
    requires Inv(t, cfg) && t.clock <= t2.clock && t2 == t.(clock := t2.clock)
    ensures Inv(t2, cfg) && LoadedFrom(t, t2)
  {
  }

  /** No handler, in whatever order, breaks the table. */
  lemma StepKeeps(t: Table, cfg: Config, op: Op)
    requires ValidConfig(cfg) && Inv(t, cfg) && Sensible(t, op)
    ensures Inv(Step(t, cfg, op).0, cfg)
  {
    hide Inv, Create, DoJoin, Wait, Delete, EvictAmong, Load, Loadable;
    match op
    case OpCreate(ip, slot, now, id, token, ice) => CreateKeeps(t, cfg, ip, slot, now, id, token, ice);
    case OpJoin(ip, slot, now, token, ice) => JoinKeeps(t, cfg, ip, slot, now, token, ice);
    case OpWait(ip, slot, bearer, now) => WaitKeeps(t, cfg, ip, slot, bearer, now);
    case OpWake(_, _) =>
    case OpDelete(id, bearer, used, now) => DeleteKeeps(t, cfg, id, bearer, used, now);
    case OpEvict(now) => EvictKeeps(t, cfg, now, t.live.Keys);
    case OpLoad(saved, now) => LoadKeeps(t, cfg, saved, now);
  }

  // ---- whole runs ----

  /** The table after a run of handlers from an empty server; None if some step was not sensible. */
  ghost function After(cfg: Config, start: int, ops: seq<Op>): (r: Option<Table>)
    requires ValidConfig(cfg)
    ensures r.Some? ==> Inv(r.value, cfg)
  {
    if ops == [] then
      EmptyKeeps(cfg, start);
      Some(Empty(start))
    else
      var n := |ops| - 1;
      match After(cfg, start, ops[..n])
      case None => None
      case Some(t) =>
        if Sensible(t, ops[n]) then
          StepKeeps(t, cfg, ops[n]);
          Some(Step(t, cfg, ops[n]).0)
        else None
  }

  lemma EmptyKeeps(cfg: Config, start: int)
    ensures Inv(Empty(start), cfg)
  {
    forall key: string
      ensures Charges(RolesOf(Empty(start).live), key) == 0
    {
      assert SendersAt(RolesOf(Empty(start).live), key) == {} && ReceiversAt(RolesOf(Empty(start).live), key) == {};
    }
  }

  ghost predicate IsRun(cfg: Config, start: int, ops: seq<Op>) {
    ValidConfig(cfg) && After(cfg, start, ops).Some?
  }

  lemma {:induction false} PrefixIsRun(cfg: Config, start: int, ops: seq<Op>, i: nat)
    requires IsRun(cfg, start, ops) && i <= |ops|
    ensures IsRun(cfg, start, ops[..i])
    decreases |ops| - i
  {
    hide Inv, Sensible, Step;
    if i < |ops| {
      PrefixIsRun(cfg, start, ops, i + 1);
      assert ops[..i + 1][..i] == ops[..i];
    } else {
      assert ops[..i] == ops;
    }
  }

  ghost function TableAt(cfg: Config, start: int, ops: seq<Op>, i: nat): (t: Table)
    requires IsRun(cfg, start, ops) && i <= |ops|
    ensures Inv(t, cfg)
  {
    PrefixIsRun(cfg, start, ops, i);
    After(cfg, start, ops[..i]).value
  }

  ghost function ReplyAt(cfg: Config, start: int, ops: seq<Op>, i: nat): Reply
    requires IsRun(cfg, start, ops) && i < |ops|
  {
    Step(TableAt(cfg, start, ops, i), cfg, ops[i]).1
  }

  lemma TableSteps(cfg: Config, start: int, ops: seq<Op>, i: nat)
    requires IsRun(cfg, start, ops) && i < |ops|
    ensures Sensible(TableAt(cfg, start, ops, i), ops[i])
    ensures TableAt(cfg, start, ops, i + 1) == Step(TableAt(cfg, start, ops, i), cfg, ops[i]).0
  {
    hide Inv, Sensible, Step;
    PrefixIsRun(cfg, start, ops, i + 1);
    assert ops[..i + 1][..i] == ops[..i];
  }

  lemma JoinRecords(t: Table, cfg: Config, ip: string, slot: string, now: int, token: string, ice: IceCreds)
    requires SlotsAgree(t) && JoinsMatch(t)
    ensures var (t2, r) := DoJoin(t, cfg, ip, slot, now, token, ice);
            if r.Joined? then r.id !in t.joins && t2.joins == t.joins[r.id := Join(ip, ice)] else t2.joins == t.joins
  {
    hide Charges, Admit, AtCap;
  }

  /** What a step does to the record of joins: nothing, unless it answers that it joined a session, which had no join. */
  lemma StepRecordsJoins(t: Table, cfg: Config, op: Op)
    requires ValidConfig(cfg) && Inv(t, cfg) && Sensible(t, op)
    ensures var (t2, r) := Step(t, cfg, op);
            if r.Joined? then
              op.OpJoin? && r.id !in t.joins && t2.joins == t.joins[r.id := Join(op.ip, op.ice)]
            else t2.joins == t.joins
  {
    hide Charges, Admit, AtCap, SlotsAgree, JoinsMatch, WellCharged, CapHeld, UsedSlotsFree, DoJoin, Loadable;
    match op
    case OpJoin(ip, slot, now, token, ice) => JoinRecords(t, cfg, ip, slot, now, token, ice);
    case OpLoad(saved, now) => LoadKeepsJoins(t, cfg, saved, now);
    case _ =>
  }

  lemma {:induction false} LoadKeepsJoins(t: Table, cfg: Config, saved: seq<Saved>, now: int)
    ensures Load(t, cfg, saved, now).joins == t.joins
  {
    if saved != [] {
      LoadKeepsJoins(t, cfg, saved[..|saved| - 1], now);
    }
  }

  lemma {:induction false} JoinsStay(cfg: Config, start: int, ops: seq<Op>, i: nat, j: nat, id: string)
    requires IsRun(cfg, start, ops) && i <= j <= |ops| && id in TableAt(cfg, start, ops, i).joins
    ensures id in TableAt(cfg, start, ops, j).joins
    decreases j
  {
    hide After, Inv, Sensible, Step, TableAt;
    if i < j {
      JoinsStay(cfg, start, ops, i, j - 1, id);
      TableSteps(cfg, start, ops, j - 1);
      StepRecordsJoins(TableAt(cfg, start, ops, j - 1), cfg, ops[j - 1]);
    }
  }

  /** Each session is joined at most once in any run. */
  lemma JoinedAtMostOnce(cfg: Config, start: int, ops: seq<Op>, i: nat, j: nat)
    requires IsRun(cfg, start, ops) && i < j < |ops|
    requires ReplyAt(cfg, start, ops, i).Joined? && ReplyAt(cfg, start, ops, j).Joined?
    ensures ReplyAt(cfg, start, ops, i).id != ReplyAt(cfg, start, ops, j).id
  {
    hide After, Inv, Sensible, Step, TableAt;
    var id := ReplyAt(cfg, start, ops, i).id;
    TableSteps(cfg, start, ops, i);
    StepRecordsJoins(TableAt(cfg, start, ops, i), cfg, ops[i]);
    JoinsStay(cfg, start, ops, i + 1, j, id);
    TableSteps(cfg, start, ops, j);
    StepRecordsJoins(TableAt(cfg, start, ops, j), cfg, ops[j]);
  }

  /** Step i is the join of session id, and left this record. */
  ghost predicate IsJoinOf(cfg: Config, start: int, ops: seq<Op>, i: nat, id: string, join: Join) {
    && IsRun(cfg, start, ops) && i < |ops| && ops[i].OpJoin?
    && ReplyAt(cfg, start, ops, i).Joined? && ReplyAt(cfg, start, ops, i).id == id
    && join == Join(ops[i].ip, ops[i].ice)
  }

  lemma {:induction false} RecordedByAJoin(cfg: Config, start: int, ops: seq<Op>, k: nat, id: string) returns (i: nat)
    requires IsRun(cfg, start, ops) && k <= |ops| && id in TableAt(cfg, start, ops, k).joins
    ensures i < k && IsJoinOf(cfg, start, ops, i, id, TableAt(cfg, start, ops, k).joins[id])
    decreases k
  {
    hide Inv, Sensible, Step;
    assert k > 0;
    hide After, TableAt;
    i := k - 1;
    TableSteps(cfg, start, ops, i);
    StepRecordsJoins(TableAt(cfg, start, ops, i), cfg, ops[i]);
    if !(ReplyAt(cfg, start, ops, i).Joined? && ReplyAt(cfg, start, ops, i).id == id) {
      i := RecordedByAJoin(cfg, start, ops, k - 1, id);
    }
  }

  /** A poll is answered only for a session in the table, whose join the answer repeats; a poll at the slot itself needs the sender's token. */
  lemma AnswerIsRecorded(t: Table, cfg: Config, op: Op)
    requires ValidConfig(cfg) && Inv(t, cfg) && Sensible(t, op) && Step(t, cfg, op).1.Answered?
    ensures var r := Step(t, cfg, op).1;
            && (op.OpWait? || op.OpWake?)
            && r.id in t.live && r.id in t.joins && r.join == t.joins[r.id] && t.live[r.id].slot == op.slot
            && (op.OpWake? ==> r.id == op.id)
            && (op.OpWait? ==> op.bearer != "" && t.live[r.id].senderToken == op.bearer)
  {
    hide Charges, Admit, AtCap, WellCharged, CapHeld, UsedSlotsFree, Evict, Load, Forget;
  }

  /**
   * In every run, through eviction and reuse of the slot, a sender's wait is
   * answered with exactly what the one join of its own session recorded.
   */
  lemma AnsweredByOwnReceiver(cfg: Config, start: int, ops: seq<Op>, k: nat) returns (i: nat)
    requires IsRun(cfg, start, ops) && k < |ops| && ReplyAt(cfg, start, ops, k).Answered?
    ensures var r := ReplyAt(cfg, start, ops, k);
            && i < k && IsJoinOf(cfg, start, ops, i, r.id, r.join)
            && (forall j: nat :: j < |ops| && ReplyAt(cfg, start, ops, j).Joined? && ReplyAt(cfg, start, ops, j).id == r.id ==> j == i)
            && (ops[k].OpWake? ==> r.id == ops[k].id)
            && (ops[k].OpWait? ==> r.id in TableAt(cfg, start, ops, k).live && TableAt(cfg, start, ops, k).live[r.id].senderToken == ops[k].bearer)
  {
    hide After, Inv, Sensible, Step, TableAt;
    TableSteps(cfg, start, ops, k);
    AnswerIsRecorded(TableAt(cfg, start, ops, k), cfg, ops[k]);
    var r := ReplyAt(cfg, start, ops, k);
    i := RecordedByAJoin(cfg, start, ops, k, r.id);
    forall j: nat | j < |ops| && ReplyAt(cfg, start, ops, j).Joined? && ReplyAt(cfg, start, ops, j).id == r.id
      ensures j == i
    {
      if i < j {
        JoinedAtMostOnce(cfg, start, ops, i, j);
      } else if j < i {
        JoinedAtMostOnce(cfg, start, ops, j, i);
      }
    }
  }

  // ---- used codes ----

  lemma TombStands(t: Table, cfg: Config, op: Op, slot: string)
    requires ValidConfig(cfg) && Inv(t, cfg) && Sensible(t, op)
    requires slot in t.tombs && t.clock < t.tombs[slot]
    ensures slot in Step(t, cfg, op).0.tombs && Step(t, cfg, op).0.tombs[slot] == t.tombs[slot]
  {
    hide Charges, Admit, AtCap, JoinsMatch, WellCharged, CapHeld, Loadable, LoadOne, Load, StaleAmong, SlotsOf, WaitingOf, Pair, Seen;
    match op
    case OpLoad(saved, now) => LoadKeeps(t, cfg, saved, now);
    case _ =>
  }

  lemma {:induction false} TombStandsFor(cfg: Config, start: int, ops: seq<Op>, i: nat, j: nat, slot: string, until: int)
    requires IsRun(cfg, start, ops) && i <= j <= |ops|
    requires slot in TableAt(cfg, start, ops, i).tombs && TableAt(cfg, start, ops, i).tombs[slot] == until
    requires TableAt(cfg, start, ops, j).clock < until
    ensures slot in TableAt(cfg, start, ops, j).tombs && TableAt(cfg, start, ops, j).tombs[slot] == until
    decreases j
  {
    hide After, Inv, Sensible, Step, TableAt;
    if i < j {
      TableSteps(cfg, start, ops, j - 1);
      ClockRises(TableAt(cfg, start, ops, j - 1), cfg, ops[j - 1]);
      TombStandsFor(cfg, start, ops, i, j - 1, slot, until);
      TombStands(TableAt(cfg, start, ops, j - 1), cfg, ops[j - 1], slot);
    }
  }

  lemma ClockRises(t: Table, cfg: Config, op: Op)
    requires ValidConfig(cfg) && Inv(t, cfg) && Sensible(t, op)
    ensures t.clock <= Step(t, cfg, op).0.clock
    ensures !op.OpWake? && Step(t, cfg, op).1 != BadSlot ==> Step(t, cfg, op).0.clock == op.now
  {
    hide Charges, Admit, AtCap, JoinsMatch, WellCharged, CapHeld;
    match op
    case OpLoad(saved, now) => LoadKeeps(t, cfg, saved, now);
    case _ =>
  }

  /** For ten minutes after a session is deleted as used, its code is neither joined nor handed out again. */
  lemma UsedCodeIsRefused(cfg: Config, start: int, ops: seq<Op>, i: nat, j: nat)
    requires IsRun(cfg, start, ops) && i < j < |ops|
    requires ops[i].OpDelete? && ops[i].used && ReplyAt(cfg, start, ops, i).Deleted?
    requires ops[i].id in TableAt(cfg, start, ops, i).live
    requires ops[j].OpJoin? || ops[j].OpCreate?
    requires ops[j].slot == TableAt(cfg, start, ops, i).live[ops[i].id].slot && ops[j].now < ops[i].now + CONSUMED_TTL
    ensures ops[j].OpJoin? ==> ReplyAt(cfg, start, ops, j) in {RateLimited, AlreadyUsed}
    ensures ops[j].OpCreate? ==> ReplyAt(cfg, start, ops, j) in {BadSlot, RateLimited, TooMany, SlotTaken}
  {
    hide After, Inv, Sensible, TableAt, Admit, AtCap, Charges;
    var slot, until := ops[j].slot, ops[i].now + CONSUMED_TTL;
    TableSteps(cfg, start, ops, i);
    TableSteps(cfg, start, ops, j);
    assert TableAt(cfg, start, ops, j).clock <= ops[j].now by { ClockBefore(TableAt(cfg, start, ops, j), ops[j]); }
    TombStandsFor(cfg, start, ops, i + 1, j, slot, until);
  }

  lemma ClockBefore(t: Table, op: Op)
    requires Sensible(t, op) && (op.OpJoin? || op.OpCreate?)
    ensures t.clock <= op.now
  {
  }

  // ---- a pairing from end to end ----

  /** Nothing in the way, a code created, joined and waited on pairs its two ends: each hears of the other. */
  lemma PairingCompletes(t: Table, cfg: Config, sender: string, receiver: string, slot: string, id: string,
                         t1: int, t2: int, t3: int, senderToken: string, receiverToken: string, senderIce: IceCreds, receiverIce: IceCreds)
    requires ValidConfig(cfg) && Inv(t, cfg) && t.clock <= t1 <= t2 <= t3 && id !in t.issued && id != "" && senderToken != ""
    requires Create(t, cfg, sender, slot, t1, id, senderToken, senderIce).1.Created?
    ensures var t4 := Create(t, cfg, sender, slot, t1, id, senderToken, senderIce).0;
            && SlotsAgree(t4)
            && var (t5, joined) := DoJoin(t4, cfg, receiver, slot, t2, receiverToken, receiverIce);
            && joined in {RateLimited, TooMany, Joined(id, sender, senderIce)}
            && (joined.Joined? ==>
                  && SlotsAgree(t5)
                  && Wait(t5, cfg, sender, slot, senderToken, t3).1 in {RateLimited, Answered(id, Join(receiver, receiverIce))})
  {
    hide Charges, Admit, AtCap, JoinsMatch, WellCharged, CapHeld, UsedSlotsFree;
    CreateKeeps(t, cfg, sender, slot, t1, id, senderToken, senderIce);
    var t4 := Create(t, cfg, sender, slot, t1, id, senderToken, senderIce).0;
    assert !Tombstoned(t4, slot, t2);
    JoinKeeps(t4, cfg, receiver, slot, t2, receiverToken, receiverIce);
  }

  /** A poll keeps its session for as long as senders may stay silent, up to the time a code may wait. */
  lemma HeartbeatKeepsSession(t: Table, cfg: Config, ip: string, slot: string, bearer: string, now: int, later: int)
    requires ValidConfig(cfg) && Inv(t, cfg) && t.clock <= now <= later
    requires Wait(t, cfg, ip, slot, bearer, now).1.Parked?
    ensures var (t2, r) := Wait(t, cfg, ip, slot, bearer, now);
            && r.id in t2.live
            && var t3 := Evict(t2, cfg, later);
            (r.id in t3.live && slot in t3.bySlot && t3.bySlot[slot] == r.id)
            <==> later - now <= cfg.abandonedTTL && later - t2.live[r.id].createdAt <= cfg.unpairedTTL
  {
    hide Charges, Admit, AtCap, JoinsMatch, WellCharged, CapHeld, UsedSlotsFree;
    WaitKeeps(t, cfg, ip, slot, bearer, now);
    var (t2, r) := Wait(t, cfg, ip, slot, bearer, now);
    EvictKeeps(t2, cfg, later, t2.live.Keys);
    var t3 := Evict(t2, cfg, later);
    hide EvictAmong;
    EvictedIff(t2, cfg, later, r.id);
    assert t2.live[r.id].lastSeen == now && !t2.live[r.id].paired;
  }

  /** A pairing is kept for its time, and no longer than the next sweep after it. */
  lemma PairingKeepsSession(t: Table, cfg: Config, ip: string, slot: string, now: int, token: string, ice: IceCreds, later: int)
    requires ValidConfig(cfg) && Inv(t, cfg) && t.clock <= now <= later
    requires DoJoin(t, cfg, ip, slot, now, token, ice).1.Joined?
    ensures var (t2, r) := DoJoin(t, cfg, ip, slot, now, token, ice);
            r.id in Evict(t2, cfg, later).live <==> later - now <= cfg.pairedTTL
  {
    hide Charges, Admit, AtCap, JoinsMatch, WellCharged, CapHeld, UsedSlotsFree;
    var (t2, r) := DoJoin(t, cfg, ip, slot, now, token, ice);
    EvictedIff(t2, cfg, later, r.id);
  }

  lemma EvictedIff(t: Table, cfg: Config, now: int, id: string)
    requires id in t.live
    ensures id in Evict(t, cfg, now).live <==> !t.live[id].Stale(cfg, now)
  {
  }

  // ---- snapshots ----

  ghost predicate LoadedSoFar(t: Table, cfg: Config, saved: seq<Saved>, n: nat, now: int)
    requires n <= |saved|
  {
    && (forall id <- t.live :: exists i :: 0 <= i < n && saved[i].id == id && Usable(saved[i], cfg, now))
    && (forall slot <- t.bySlot :: exists i :: 0 <= i < n && saved[i].slot == slot)
    && (forall i :: 0 <= i < n && Usable(saved[i], cfg, now) ==> saved[i].id in t.live && t.live[saved[i].id] == Fresh(saved[i], now))
  }

  lemma LoadsNone(t: Table, cfg: Config, saved: seq<Saved>, now: int)
    requires t.live == map[] && t.bySlot == map[]
    ensures LoadedSoFar(t, cfg, saved, 0, now)
  {
  }

  lemma LoadsOne(t: Table, cfg: Config, saved: seq<Saved>, n: nat, now: int)
    requires n < |saved| && LoadedSoFar(t, cfg, saved, n, now)
    requires forall i :: 0 <= i < n ==> saved[i].id != saved[n].id && saved[i].slot != saved[n].slot
    ensures LoadedSoFar(LoadOne(t, cfg, saved[n], now), cfg, saved, n + 1, now)
  {
    hide Usable;
    var t2 := LoadOne(t, cfg, saved[n], now);
    assert saved[n].slot !in t.bySlot && saved[n].id !in t.live;
    if Usable(saved[n], cfg, now) {
      assert t2.live == t.live[saved[n].id := Fresh(saved[n], now)] && t2.bySlot == t.bySlot[saved[n].slot := saved[n].id];
    } else {
      assert t2 == t;
    }
    hide LoadOne, Fresh;
  }

  lemma {:induction false} LoadsAll(cfg: Config, saved: seq<Saved>, n: nat, start: int, now: int)
    requires n <= |saved|
    requires forall i, j :: 0 <= i < j < |saved| ==> saved[i].id != saved[j].id && saved[i].slot != saved[j].slot
    ensures LoadedSoFar(Load(Empty(start), cfg, saved[..n], now), cfg, saved, n, now)
    decreases n
  {
    hide LoadedSoFar, LoadOne;
    if n == 0 {
      LoadsNone(Load(Empty(start), cfg, saved[..0], now), cfg, saved, now);
    } else {
      LoadsAll(cfg, saved, n - 1, start, now);
      assert saved[..n][..n - 1] == saved[..n - 1];
      LoadsOne(Load(Empty(start), cfg, saved[..n - 1], now), cfg, saved, n - 1, now);
    }
  }

  lemma SlotsApart(t: Table, saved: seq<Saved>)
    requires SlotsAgree(t) && Snapshot(t, saved)
    ensures forall i, j :: 0 <= i < j < |saved| ==> saved[i].id != saved[j].id && saved[i].slot != saved[j].slot
  {
    forall i, j | 0 <= i < j < |saved|
      ensures saved[i].slot != saved[j].slot
    {
      assert t.bySlot[t.live[saved[i].id].slot] == saved[i].id && t.bySlot[t.live[saved[j].id].slot] == saved[j].id;
    }
  }

  /** A restart restores exactly the sessions still waiting and not yet expired, without their addresses. */
  lemma SnapshotRestores(t: Table, cfg: Config, saved: seq<Saved>, start: int, now: int, id: string)
    requires Inv(t, cfg) && Snapshot(t, saved)
    ensures var live := Load(Empty(start), cfg, saved, now).live;
            && (id in live <==> id in t.live && !t.live[id].paired && now - t.live[id].createdAt <= cfg.unpairedTTL)
            && (id in live ==> live[id] == Fresh(SavedForm(t.live[id]), now))
  {
    hide Load, JoinsMatch, CapHeld, UsedSlotsFree;
    SlotsApart(t, saved);
    LoadsAll(cfg, saved, |saved|, start, now);
    assert saved[..|saved|] == saved;
    if id in t.live && !t.live[id].paired {
      hide LoadedSoFar;
      var i :| 0 <= i < |saved| && saved[i] == SavedForm(t.live[id]);
      LoadedIff(Load(Empty(start), cfg, saved, now), cfg, saved, now, i);
    }
  }

  lemma LoadedIff(t: Table, cfg: Config, saved: seq<Saved>, now: int, i: nat)
    requires LoadedSoFar(t, cfg, saved, |saved|, now) && i < |saved|
    requires forall i, j :: 0 <= i < j < |saved| ==> saved[i].id != saved[j].id
    ensures saved[i].id in t.live <==> Usable(saved[i], cfg, now)
    ensures saved[i].id in t.live ==> t.live[saved[i].id] == Fresh(saved[i], now)
  {
  }
}
