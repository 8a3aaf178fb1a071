/**
 * The pairing server's session table as a value: one function per handler, each
 * a single step under the server's lock. Nothing is counted, compacted or
 * expired here: caps count the sessions themselves, rate limits look at every
 * call ever accepted, and tombstones are never swept.
 */
module Sessions {
  import opened Basics
  import opened Counts
  import opened RateLimit

  const MINUTE: nat := 60
  const CONSUMED_TTL: nat := 600
  const V6_SITE_FACTOR: nat := 4

  datatype IceCreds = IceCreds(ufrag: string, pwd: string)

  /** What a receiver leaves behind for the sender when it joins. */
  datatype Join = Join(addr: string, ice: IceCreds)

  datatype Config = Config(
    maxSessionsPerIP: int,   // zero or less: unlimited
    maxNewPerMinute: int,    // zero or less: unlimited
    unpairedTTL: int,
    abandonedTTL: int,
    pairedTTL: int,
    rateKey: string -> string,
    siteKey: string -> string,
    validSlot: string -> bool)

  ghost predicate ValidConfig(cfg: Config) {
    forall ip: string :: cfg.rateKey(ip) != ""
  }

  datatype Side = Sender | Receiver

  datatype Session = Session(
    id: string,
    slot: string,
    senderToken: string,
    senderIce: IceCreds,
    createdAt: int,
    senderAddr: string,
    senderKey: string,       // empty until a restored session's sender polls
    receiverAddr: string,
    receiverKey: string,
    receiverIce: IceCreds,
    receiverToken: string,
    paired: bool,
    pairedAt: int,
    lastSeen: int)
  {
    /** Whose role token this is, if anybody's. */
    function SideOf(tok: string): Option<Side> {
      if tok == "" then None
      else if senderToken != "" && senderToken == tok then Some(Sender)
      else if receiverToken != "" && receiverToken == tok then Some(Receiver)
      else None
    }

    /** Past its time: never joined for too long, its sender gone, or paired long ago. */
    predicate Stale(cfg: Config, now: int) {
      if paired then now - pairedAt > cfg.pairedTTL
      else now - createdAt > cfg.unpairedTTL || now - lastSeen > cfg.abandonedTTL
    }
  }

  /** A waiting session as written to the snapshot, which holds no address. */
  datatype Saved = Saved(id: string, slot: string, senderToken: string, senderIce: IceCreds, createdAt: int)

  datatype Table = Table(
    live: map<string, Session>,
    bySlot: map<string, string>,
    accepted: map<string, seq<int>>,  // every accepted call, per rate key
    tombs: map<string, int>,          // used codes, and until when they answer
    joins: map<string, Join>,         // every join ever, per session
    issued: set<string>,              // every session ever
    woken: set<string>,               // sessions whose waiters were woken
    clock: int,
    loaded: set<string>)              // sessions that came from a snapshot

  datatype Reply =
    | BadSlot | RateLimited | TooMany | SlotTaken | Created(id: string)
    | AlreadyUsed | NotFound | AlreadyPaired | Joined(id: string, peerAddr: string, peerIce: IceCreds)
    | Answered(id: string, join: Join) | Parked(id: string) | Expired
    | Unauthorized | Deleted | Swept | Restored

  function Empty(now: int): Table {
    Table(map[], map[], map[], map[], map[], {}, {}, now, {})
  }

  function RolesOf(live: map<string, Session>): map<string, Roles> {
    map id | id in live :: Roles(live[id].senderKey, live[id].receiverKey)
  }

  /** The roles that were checked against the cap when they were charged: all but the senders of restored sessions. */
  function CheckedRole(s: Session, loaded: set<string>): Roles {
    Roles(if s.id in loaded then "" else s.senderKey, s.receiverKey)
  }

  function CheckedRoles(live: map<string, Session>, loaded: set<string>): map<string, Roles> {
    map id | id in live :: CheckedRole(live[id], loaded)
  }

  function AcceptedAt(accepted: map<string, seq<int>>, key: string): seq<int> {
    if key in accepted then accepted[key] else []
  }

  /** One call against one key: allowed while fewer than limit were accepted in the last minute. */
  function Hit(accepted: map<string, seq<int>>, key: string, limit: int, now: int): (bool, map<string, seq<int>>) {
    var calls := AcceptedAt(accepted, key);
    if |Recent(calls, now - MINUTE)| < limit then (true, accepted[key := calls + [now]]) else (false, accepted)
  }

  /** The rate limit of create, join and wait: per address, and for IPv6 also per site. */
  function Admit(accepted: map<string, seq<int>>, cfg: Config, ip: string, now: int): (bool, map<string, seq<int>>) {
    if cfg.maxNewPerMinute <= 0 then (true, accepted)
    else
      var (ok, after) := Hit(accepted, cfg.rateKey(ip), cfg.maxNewPerMinute, now);
      if ok && cfg.siteKey(ip) != "" then Hit(after, cfg.siteKey(ip), cfg.maxNewPerMinute * V6_SITE_FACTOR, now)
      else (ok, after)
  }

  predicate Standing(tombs: map<string, int>, slot: string, now: int) {
    slot in tombs && now < tombs[slot]
  }

  predicate Tombstoned(t: Table, slot: string, now: int) {
    Standing(t.tombs, slot, now)
  }

  ghost predicate AtCap(t: Table, cfg: Config, key: string) {
    cfg.maxSessionsPerIP > 0 && Charges(RolesOf(t.live), key) >= cfg.maxSessionsPerIP
  }

  ghost function Create(t: Table, cfg: Config, ip: string, slot: string, now: int, id: string, token: string, ice: IceCreds): (Table, Reply) {
    if !cfg.validSlot(slot) then (t, BadSlot)
    else
      var (ok, accepted) := Admit(t.accepted, cfg, ip, now);
      var t1 := t.(accepted := accepted, clock := now);
      if !ok then (t1, RateLimited)
      else if AtCap(t, cfg, cfg.rateKey(ip)) then (t1, TooMany)
      else if slot in t.bySlot || Tombstoned(t, slot, now) then (t1, SlotTaken)
      else
        var s := Session(id, slot, token, ice, now, ip, cfg.rateKey(ip), "", "", IceCreds("", ""), "", false, 0, now);
        (t1.(live := t.live[id := s], bySlot := t.bySlot[slot := id], issued := t.issued + {id}), Created(id))
  }

  function Pair(s: Session, ip: string, key: string, ice: IceCreds, token: string, now: int): Session {
    s.(receiverAddr := ip, receiverKey := key, receiverIce := ice, receiverToken := token, paired := true, pairedAt := now)
  }

  ghost function DoJoin(t: Table, cfg: Config, ip: string, slot: string, now: int, token: string, ice: IceCreds): (Table, Reply)
    requires SlotsAgree(t)
  {
    var (ok, accepted) := Admit(t.accepted, cfg, ip, now);
    var t1 := t.(accepted := accepted, clock := now);
    if !ok then (t1, RateLimited)
    else if Tombstoned(t, slot, now) then (t1, AlreadyUsed)
    else if slot !in t.bySlot then (t1, NotFound)
    else
      var id := t.bySlot[slot];
      var s := t.live[id];
      if s.paired then (t1, AlreadyPaired)
      else if AtCap(t, cfg, cfg.rateKey(ip)) then (t1, TooMany)
      else
        (t1.(live := t.live[id := Pair(s, ip, cfg.rateKey(ip), ice, token, now)],
             joins := t.joins[id := Join(ip, ice)],
             woken := t.woken + {id}),
         Joined(id, s.senderAddr, s.senderIce))
  }

  /** The sender's poll: answers at once when the session is paired, parks when it is not. */
  function Wait(t: Table, cfg: Config, ip: string, slot: string, bearer: string, now: int): (Table, Reply)
    requires SlotsAgree(t)
  {
    var (ok, accepted) := Admit(t.accepted, cfg, ip, now);
    var t1 := t.(accepted := accepted, clock := now);
    if !ok then (t1, RateLimited)
    else if slot !in t.bySlot || t.live[t.bySlot[slot]].SideOf(bearer) != Some(Sender) then (t1, NotFound)
    else
      var id := t.bySlot[slot];
      var s := t.live[id];
      var seen := Seen(s, ip, cfg.rateKey(ip), now);
      (t1.(live := t.live[id := seen]),
       if s.paired then Answered(id, Join(s.receiverAddr, s.receiverIce)) else Parked(id))
  }

  /** A poll is a heartbeat; a restored session, which has no address yet, takes the poll's. */
  function Seen(s: Session, ip: string, key: string, now: int): Session {
    if s.senderKey == "" then s.(lastSeen := now, senderAddr := ip, senderKey := key) else s.(lastSeen := now)
  }

  /** A parked poll for session id is woken: whatever holds the slot now must still be that session. */
  function Wake(t: Table, slot: string, id: string): Reply
    requires SlotsAgree(t)
  {
    if slot in t.bySlot && t.bySlot[slot] == id then Answered(id, Join(t.live[id].receiverAddr, t.live[id].receiverIce))
    else Expired
  }

  function Forget(t: Table, id: string): Table
    requires id in t.live
  {
    t.(live := t.live - {id}, bySlot := t.bySlot - {t.live[id].slot})
  }

  function Delete(t: Table, id: string, bearer: string, used: bool, now: int): (Table, Reply) {
    var t1 := t.(clock := now);
    if id !in t.live then (t1, NotFound)
    else if t.live[id].SideOf(bearer).None? then (t1, Unauthorized)
    else
      var t2 := Forget(t1, id);
      (if used then t2.(tombs := t.tombs[t.live[id].slot := now + CONSUMED_TTL]) else t2, Deleted)
  }

  function StaleAmong(t: Table, cfg: Config, now: int, ids: set<string>): set<string> {
    set id | id in ids && id in t.live && t.live[id].Stale(cfg, now)
  }

  function SlotsOf(live: map<string, Session>, ids: set<string>): set<string>
    requires ids <= live.Keys
  {
    set id | id in ids :: live[id].slot
  }

  function WaitingOf(live: map<string, Session>, ids: set<string>): set<string>
    requires ids <= live.Keys
  {
    set id | id in ids && !live[id].paired
  }

  /** Drops the stale sessions among ids, with their slots, and wakes those still waiting. */
  function EvictAmong(t: Table, cfg: Config, now: int, ids: set<string>): Table {
    var gone := StaleAmong(t, cfg, now, ids);
    t.(live := t.live - gone,
       bySlot := t.bySlot - SlotsOf(t.live, gone),
       woken := t.woken + WaitingOf(t.live, gone),
       clock := now)
  }

  /** The janitor's sweep. */
  function Evict(t: Table, cfg: Config, now: int): Table {
    EvictAmong(t, cfg, now, t.live.Keys)
  }

  function Fresh(ss: Saved, now: int): Session {
    Session(ss.id, ss.slot, ss.senderToken, ss.senderIce, ss.createdAt, "", "", "", "", IceCreds("", ""), "", false, 0, now)
  }

  predicate Usable(ss: Saved, cfg: Config, now: int) {
    now - ss.createdAt <= cfg.unpairedTTL && cfg.validSlot(ss.slot) && ss.id != "" && ss.senderToken != ""
  }

  function LoadOne(t: Table, cfg: Config, ss: Saved, now: int): Table {
    if !Usable(ss, cfg, now) || ss.slot in t.bySlot || ss.id in t.live then t
    else t.(live := t.live[ss.id := Fresh(ss, now)], bySlot := t.bySlot[ss.slot := ss.id],
             issued := t.issued + {ss.id}, loaded := t.loaded + {ss.id})
  }

  function Load(t: Table, cfg: Config, saved: seq<Saved>, now: int): Table {
    if saved == [] then t.(clock := now)
    else LoadOne(Load(t, cfg, saved[..|saved| - 1], now), cfg, saved[|saved| - 1], now)
  }

  function SavedForm(s: Session): Saved {
    Saved(s.id, s.slot, s.senderToken, s.senderIce, s.createdAt)
  }

  /** What a snapshot holds: the sessions still waiting. */
  ghost predicate Snapshot(t: Table, saved: seq<Saved>) {
    && (forall i :: 0 <= i < |saved| ==>
          saved[i].id in t.live && !t.live[saved[i].id].paired && saved[i] == SavedForm(t.live[saved[i].id]))
    && (forall id <- t.live :: !t.live[id].paired ==> SavedForm(t.live[id]) in saved)
    && (forall i, j :: 0 <= i < j < |saved| ==> saved[i].id != saved[j].id)
  }

  // ---- the invariant ----

  /** Both maps hold the same sessions, each under its own key. */
  predicate SlotsAgree(t: Table) {
    && (forall slot <- t.bySlot :: t.bySlot[slot] in t.live && t.live[t.bySlot[slot]].slot == slot)
    && (forall id <- t.live :: t.live[id].id == id && t.live[id].slot in t.bySlot && t.bySlot[t.live[id].slot] == id)
  }

  /** A session is paired exactly when its join is on record, and carries it; then its waiters were woken. */
  ghost predicate JoinsMatch(t: Table) {
    && t.live.Keys <= t.issued && t.joins.Keys <= t.issued && t.woken <= t.issued && t.loaded <= t.issued
    && forall id <- t.live ::
         && (t.live[id].paired <==> id in t.joins)
         && (t.live[id].paired <==> id in t.woken)
         && (t.live[id].paired ==> t.joins[id] == Join(t.live[id].receiverAddr, t.live[id].receiverIce))
  }

  /** Who is charged: the receiver once paired, the sender unless the session came from a snapshot. */
  ghost predicate WellCharged(t: Table, cfg: Config) {
    forall id <- t.live ::
      && (t.live[id].paired <==> t.live[id].receiverKey != "")
      && (t.live[id].senderKey == "" ==> id in t.loaded)
      && id != "" && t.live[id].senderToken != "" && cfg.validSlot(t.live[id].slot)
  }

  /** The cap holds of the roles that were checked against it. */
  ghost predicate CapHeld(t: Table, cfg: Config) {
    cfg.maxSessionsPerIP > 0 ==>
      forall key: string :: key != "" ==> Charges(CheckedRoles(t.live, t.loaded), key) <= cfg.maxSessionsPerIP
  }

  /** The cap holds of all roles. */
  ghost predicate WithinCap(t: Table, cfg: Config) {
    cfg.maxSessionsPerIP > 0 ==>
      forall key: string :: key != "" ==> Charges(RolesOf(t.live), key) <= cfg.maxSessionsPerIP
  }

  /** While a used code's tombstone lives, no session holds its slot. */
  ghost predicate UsedSlotsFree(t: Table) {
    forall slot <- t.tombs :: t.clock < t.tombs[slot] ==> slot !in t.bySlot
  }

  ghost predicate Inv(t: Table, cfg: Config) {
    SlotsAgree(t) && JoinsMatch(t) && WellCharged(t, cfg) && CapHeld(t, cfg) && UsedSlotsFree(t)
  }
}
