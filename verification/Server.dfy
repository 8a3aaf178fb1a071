/**
 * The pairing server itself: two maps over shared session records, counters per
 * address, compacted rate buckets and swept tombstones, changed in place. Every
 * handler is proved to do exactly the step Sessions describes.
 */
module Server {
  import opened Basics
  import opened Counts
  import opened RateLimit
  import opened SessionRuns
  import S = Sessions

  /** The record both maps point to. */
  class Session {
    const id: string
    const slot: string
    const senderToken: string
    const senderIce: S.IceCreds
    const createdAt: int
    var senderAddr: string
    var senderKey: string
    var receiverAddr: string
    var receiverKey: string
    var receiverIce: S.IceCreds
    var receiverToken: string
    var paired: bool
    var pairedAt: int
    var lastSeen: int
    var closed: bool  // the channel that wakes the waiting sender

    function View(): S.Session
      reads this
    {
      S.Session(id, slot, senderToken, senderIce, createdAt, senderAddr, senderKey,
                receiverAddr, receiverKey, receiverIce, receiverToken, paired, pairedAt, lastSeen)
    }

    /** The record holds this session, and its channel is open or closed. */
    predicate Shows(v: S.Session, woken: bool)
      reads this
    {
      View() == v && closed == woken
    }

    constructor (v: S.Session)
      ensures Shows(v, false) && id == v.id
    {
      id, slot, senderToken, senderIce, createdAt := v.id, v.slot, v.senderToken, v.senderIce, v.createdAt;
      senderAddr, senderKey, receiverAddr, receiverKey := v.senderAddr, v.senderKey, v.receiverAddr, v.receiverKey;
      receiverIce, receiverToken := v.receiverIce, v.receiverToken;
      paired, pairedAt, lastSeen, closed := v.paired, v.pairedAt, v.lastSeen, false;
    }

    /** Closing a channel twice would panic. */
    method CloseWaiters()
      requires !closed
      modifies this`closed
      ensures closed
    {
      closed := true;
    }

    method SeenFrom(ip: string, key: string, now: int)
      modifies this
      ensures View() == S.Seen(old(View()), ip, key, now) && closed == old(closed)
    {
      lastSeen := now;
      if senderKey == "" {
        senderAddr, senderKey := ip, key;
      }
    }

    method PairWith(ip: string, key: string, ice: S.IceCreds, token: string, now: int)
      requires !closed
      modifies this
      ensures View() == S.Pair(old(View()), ip, key, ice, token, now) && closed
    {
      receiverAddr, receiverKey, receiverIce, receiverToken := ip, key, ice, token;
      paired, pairedAt := true, now;
      CloseWaiters();
    }
  }

  // ---- what the counters, buckets and tombstones stand for ----

  function BucketAt(buckets: map<string, seq<int>>, key: string): seq<int> {
    if key in buckets then buckets[key] else []
  }

  /** From this cutoff on, the stamps kept are the calls accepted. */
  ghost predicate Remembers(kept: seq<int>, accepted: seq<int>, cutoff: int) {
    forall later :: cutoff <= later ==> Recent(kept, later) == Recent(accepted, later)
  }

  ghost predicate BucketsAgree(buckets: map<string, seq<int>>, accepted: map<string, seq<int>>, clock: int) {
    forall key: string :: Remembers(BucketAt(buckets, key), S.AcceptedAt(accepted, key), clock - S.MINUTE)
  }

  ghost predicate TombsAgree(consumed: map<string, int>, tombs: map<string, int>, clock: int) {
    forall slot: string, now: int :: clock <= now ==>
      (S.Standing(consumed, slot, now) <==> S.Standing(tombs, slot, now))
  }

  lemma RemembersCall(kept: seq<int>, accepted: seq<int>, cutoff: int, now: int)
    requires Remembers(kept, accepted, cutoff) && cutoff <= now - S.MINUTE
    ensures Remembers(Recent(kept, now - S.MINUTE), accepted, now - S.MINUTE)
    ensures Remembers(Recent(kept, now - S.MINUTE) + [now], accepted + [now], now - S.MINUTE)
    ensures |Recent(kept, now - S.MINUTE)| == |Recent(accepted, now - S.MINUTE)|
  {
    hide Recent;
    forall later | now - S.MINUTE <= later
      ensures Recent(Recent(kept, now - S.MINUTE), later) == Recent(accepted, later)
      ensures Recent(Recent(kept, now - S.MINUTE) + [now], later) == Recent(accepted + [now], later)
    {
      RecentOfRecent(kept, now - S.MINUTE, later);
      RecentAppend(Recent(kept, now - S.MINUTE), now, later);
      RecentAppend(accepted, now, later);
    }
  }

  lemma BucketsAgreeLater(buckets: map<string, seq<int>>, accepted: map<string, seq<int>>, clock: int, now: int)
    requires BucketsAgree(buckets, accepted, clock) && clock <= now
    ensures BucketsAgree(buckets, accepted, now)
  {
    hide Recent;
  }

  lemma TombsAgreeLater(consumed: map<string, int>, tombs: map<string, int>, clock: int, now: int)
    requires TombsAgree(consumed, tombs, clock) && clock <= now
    ensures TombsAgree(consumed, tombs, now)
  {
  }

  lemma TombsAfterDelete(consumed: map<string, int>, tombs: map<string, int>, clock: int, slot: string, now: int)
    requires TombsAgree(consumed, tombs, clock) && clock <= now
    ensures TombsAgree(consumed[slot := now + S.CONSUMED_TTL], tombs[slot := now + S.CONSUMED_TTL], now)
  {
    var after, tombs2 := consumed[slot := now + S.CONSUMED_TTL], tombs[slot := now + S.CONSUMED_TTL];
    forall s: string, later: int {:trigger S.Standing(after, s, later)} | now <= later
      ensures S.Standing(after, s, later) <==> S.Standing(tombs2, s, later)
    {
      assert S.Standing(consumed, s, later) <==> S.Standing(tombs, s, later);
    }
  }

  lemma BucketsAfter(buckets: map<string, seq<int>>, accepted: map<string, seq<int>>, key: string, stamps: seq<int>, after: map<string, seq<int>>, now: int)
    requires BucketsAgree(buckets, accepted, now) && Remembers(stamps, S.AcceptedAt(after, key), now - S.MINUTE)
    requires forall other: string :: other != key ==> S.AcceptedAt(after, other) == S.AcceptedAt(accepted, other)
    ensures BucketsAgree(buckets[key := stamps], after, now)
  {
    hide Recent, Remembers;
    forall k: string
      ensures Remembers(BucketAt(buckets[key := stamps], k), S.AcceptedAt(after, k), now - S.MINUTE)
    {
      if k != key {
        assert BucketAt(buckets[key := stamps], k) == BucketAt(buckets, k);
      }
    }
  }

  /** One more charge keeps the counters exact. */
  lemma CountsAfterPut(counts: map<string, int>, live: map<string, S.Session>, v: S.Session, key: string)
    requires CountsMatch(counts, S.RolesOf(live)) && key != ""
    requires forall k: string :: k != "" ==>
               Charged(Roles(v.senderKey, v.receiverKey), k)
               == (if v.id in live then Charged(Roles(live[v.id].senderKey, live[v.id].receiverKey), k) else 0)
                  + (if k == key then 1 else 0)
    ensures CountsMatch(Charge(counts, key), S.RolesOf(live[v.id := v]))
  {
    hide CountsMatch, Charge, Charged;
    ChargeMatches(counts, S.RolesOf(live), v.id, Roles(v.senderKey, v.receiverKey), key);
    assert S.RolesOf(live[v.id := v]) == S.RolesOf(live)[v.id := Roles(v.senderKey, v.receiverKey)];
  }

  lemma CountsAfterDrop(counts: map<string, int>, live: map<string, S.Session>, id: string)
    requires CountsMatch(counts, S.RolesOf(live)) && id in live
    ensures CountsMatch(Release(Release(counts, live[id].senderKey), live[id].receiverKey), S.RolesOf(live - {id}))
  {
    hide CountsMatch, Release;
    ReleaseMatches(counts, S.RolesOf(live), id);
    assert S.RolesOf(live - {id}) == S.RolesOf(live) - {id};
  }

  lemma CountsOfSame(counts: map<string, int>, live: map<string, S.Session>, v: S.Session)
    requires CountsMatch(counts, S.RolesOf(live))
    requires v.id in live && v.senderKey == live[v.id].senderKey && v.receiverKey == live[v.id].receiverKey
    ensures CountsMatch(counts, S.RolesOf(live[v.id := v]))
  {
    hide CountsMatch;
    assert S.RolesOf(live[v.id := v]) == S.RolesOf(live);
  }

  lemma NotWokenYet(t: S.Table, cfg: S.Config, id: string)
    requires S.Inv(t, cfg) && id in t.live
    ensures id in t.woken <==> t.live[id].paired
  {
  }

  lemma FreshIdIsNew(t: S.Table, cfg: S.Config, id: string)
    requires S.Inv(t, cfg) && id !in t.issued
    ensures id !in t.live && id !in t.woken
  {
  }

  /** Both maps have the table's keys and point to the same records. */
  ghost predicate MapsAgree(byID: map<string, Session>, bySlot: map<string, Session>, t: S.Table) {
    && byID.Keys == t.live.Keys
    && bySlot.Keys == t.bySlot.Keys
    && (forall slot <- bySlot :: t.bySlot[slot] in byID && bySlot[slot] == byID[t.bySlot[slot]])
  }

  /** What joining changes in the table. */
  ghost predicate PairedBy(t: S.Table, next: S.Table, id: string, ip: string, key: string, ice: S.IceCreds, token: string, now: int) {
    && id in t.live
    && next.live == t.live[id := S.Pair(t.live[id], ip, key, ice, token, now)]
    && next.bySlot == t.bySlot && next.woken == t.woken + {id} && next.tombs == t.tombs
  }

  lemma MapsAfterPut(byID: map<string, Session>, bySlot: map<string, Session>, t: S.Table, sess: Session, id: string, slot: string, next: S.Table)
    requires MapsAgree(byID, bySlot, t) && id !in byID && slot !in bySlot
    requires next.live.Keys == t.live.Keys + {id} && next.bySlot == t.bySlot[slot := id]
    ensures MapsAgree(byID[id := sess], bySlot[slot := sess], next)
  {
  }

  lemma MapsAfterDrop(byID: map<string, Session>, bySlot: map<string, Session>, t: S.Table, id: string, next: S.Table)
    requires MapsAgree(byID, bySlot, t) && S.SlotsAgree(t) && id in t.live
    requires next.live == t.live - {id} && next.bySlot == t.bySlot - {t.live[id].slot}
    ensures MapsAgree(byID - {id}, bySlot - {t.live[id].slot}, next)
  {
  }

  class PairingServer {
    const cfg: S.Config
    var bySlot: map<string, Session>
    var byID: map<string, Session>
    var ipCounts: map<string, int>
    var buckets: map<string, seq<int>>
    var consumed: map<string, int>
    ghost var table: S.Table

    /** The maps point to the sessions of the table; a session's channel is closed when its waiters were woken. */
    ghost predicate Mirrors()
      reads this`byID, this`bySlot, this`table, byID.Values
    {
      && MapsAgree(byID, bySlot, table)
      && (forall id <- byID :: byID[id].Shows(table.live[id], id in table.woken))
    }

    /** The books: counters, buckets and tombstones stand for what the table says. */
    ghost predicate BooksAgree()
      reads this
    {
      && CountsMatch(ipCounts, S.RolesOf(table.live))
      && BucketsAgree(buckets, table.accepted, table.clock)
      && TombsAgree(consumed, table.tombs, table.clock)
    }

    ghost predicate Valid()
      reads this, byID.Values
    {
      S.ValidConfig(cfg) && S.Inv(table, cfg) && Mirrors() && BooksAgree()
    }

    constructor (cfg: S.Config, now: int)
      requires S.ValidConfig(cfg)
      ensures Valid() && table == S.Empty(now) && this.cfg == cfg
    {
      this.cfg := cfg;
      bySlot, byID, ipCounts, buckets, consumed := map[], map[], map[], map[], map[];
      table := S.Empty(now);
      new;
      EmptyKeeps(cfg, now);
      assert forall k :: Charges(S.RolesOf(table.live), k) == 0 by {
        forall k
          ensures Charges(S.RolesOf(table.live), k) == 0
        {
          assert SendersAt(S.RolesOf(table.live), k) == {} && ReceiversAt(S.RolesOf(table.live), k) == {};
        }
      }
    }

    /** Charges one call to a rate bucket, which is compacted first. */
    method AllowKey(key: string, limit: int, now: int, ghost accepted: map<string, seq<int>>, ghost clock: int)
      returns (ok: bool, ghost after: map<string, seq<int>>)
      requires BucketsAgree(buckets, accepted, clock) && clock <= now
      modifies this`buckets
      ensures (ok, after) == S.Hit(accepted, key, limit, now) && BucketsAgree(buckets, after, now)
    {
      hide Recent;
      RemembersCall(BucketAt(buckets, key), S.AcceptedAt(accepted, key), clock - S.MINUTE, now);
      BucketsAgreeLater(buckets, accepted, clock, now);
      var (verdict, stamps) := AllowStep(BucketAt(buckets, key), now, limit, S.MINUTE);
      after := S.Hit(accepted, key, limit, now).1;
      assert Remembers(stamps, S.AcceptedAt(after, key), now - S.MINUTE);
      BucketsAfter(buckets, accepted, key, stamps, after, now);
      buckets := buckets[key := stamps];
      ok := verdict;
    }

    /** The rate limit of create, join and wait: per address, and per site for IPv6. */
    method AllowNewSession(ip: string, now: int) returns (ok: bool)
      requires BucketsAgree(buckets, table.accepted, table.clock) && table.clock <= now
      modifies this`buckets
      ensures ok == S.Admit(table.accepted, cfg, ip, now).0
      ensures BucketsAgree(buckets, S.Admit(table.accepted, cfg, ip, now).1, now)
    {
      hide S.Hit, Remembers;
      if cfg.maxNewPerMinute <= 0 {
        BucketsAgreeLater(buckets, table.accepted, table.clock, now);
        return true;
      }
      ghost var after;
      ok, after := AllowKey(cfg.rateKey(ip), cfg.maxNewPerMinute, now, table.accepted, table.clock);
      if !ok {
        return false;
      }
      if cfg.siteKey(ip) != "" {
        ok, after := AllowKey(cfg.siteKey(ip), cfg.maxNewPerMinute * S.V6_SITE_FACTOR, now, after, now);
      }
    }

    predicate IsConsumed(slot: string, now: int)
      reads this`consumed
    {
      S.Standing(consumed, slot, now)
    }

    /** The counter decides the cap. */
    predicate CapReached(key: string)
      reads this`ipCounts
    {
      cfg.maxSessionsPerIP > 0 && (if key in ipCounts then ipCounts[key] else 0) >= cfg.maxSessionsPerIP
    }

    lemma SameKeys()
      requires Mirrors()
      ensures byID.Keys == table.live.Keys && bySlot.Keys == table.bySlot.Keys
    {
    }

    lemma TombIsExact(slot: string, now: int)
      requires TombsAgree(consumed, table.tombs, table.clock) && table.clock <= now
      ensures IsConsumed(slot, now) <==> S.Tombstoned(table, slot, now)
    {
    }

    lemma CapIsExact(key: string)
      requires CountsMatch(ipCounts, S.RolesOf(table.live)) && key != ""
      ensures CapReached(key) <==> S.AtCap(table, cfg, key)
    {
      hide Charges;
    }

    /** A rejected call leaves the session table alone; only the clock and the rate limits moved. */
    ghost method Reject(next: S.Table)
      requires Mirrors() && S.Inv(next, cfg) && S.ValidConfig(cfg) && table.clock <= next.clock
      requires next == table.(accepted := next.accepted, clock := next.clock)
      requires CountsMatch(ipCounts, S.RolesOf(table.live)) && TombsAgree(consumed, table.tombs, table.clock)
      requires BucketsAgree(buckets, next.accepted, next.clock)
      modifies this`table
      ensures Valid() && table == next
    {
      hide S.Inv, CountsMatch, BucketsAgree;
      TombsAgreeLater(consumed, table.tombs, table.clock, next.clock);
      hide TombsAgree;
      table := next;
    }

    /** Puts a session record in both maps. */
    method Link(sess: Session, v: S.Session, ghost next: S.Table)
      requires Mirrors() && v.id !in byID && v.slot !in bySlot && v.id !in table.woken && sess.Shows(v, false)
      requires next.live == table.live[v.id := v] && next.bySlot == table.bySlot[v.slot := v.id] && next.woken == table.woken
      modifies this`byID, this`bySlot, this`table
      ensures Mirrors() && table == next && byID == old(byID)[v.id := sess]
    {
      hide Session.Shows;
      MapsAfterPut(byID, bySlot, table, sess, v.id, v.slot, next);
      assert byID.Keys == table.live.Keys;
      hide MapsAgree;
      bySlot := bySlot[v.slot := sess];
      byID := byID[v.id := sess];
      table := next;
    }

    /** Puts a new session in the maps and charges its sender. */
    method Register(v: S.Session, key: string, ghost next: S.Table)
      requires Mirrors() && v.id !in table.live && v.slot !in table.bySlot && v.id !in table.woken
      requires next == table.(live := next.live, bySlot := next.bySlot, issued := next.issued, accepted := next.accepted, clock := next.clock)
      requires next.live == table.live[v.id := v] && next.bySlot == table.bySlot[v.slot := v.id]
      requires S.ValidConfig(cfg) && S.Inv(next, cfg) && BucketsAgree(buckets, next.accepted, next.clock)
      requires CountsMatch(ipCounts, S.RolesOf(table.live)) && TombsAgree(consumed, table.tombs, table.clock) && table.clock <= next.clock
      requires key != "" && v.senderKey == key && v.receiverKey == ""
      modifies this
      ensures Valid() && table == next && v.id in byID && fresh(byID[v.id]) && byID == old(byID)[v.id := byID[v.id]]
    {
      hide S.Inv, CountsMatch, BucketsAgree, S.RolesOf, Session.Shows;
      TombsAgreeLater(consumed, table.tombs, table.clock, next.clock);
      hide TombsAgree;
      CountsAfterPut(ipCounts, table.live, v, key);
      SameKeys();
      hide Mirrors;
      var sess := new Session(v);
      Link(sess, v, next);
      ipCounts := Charge(ipCounts, key);
    }

    lemma CreateCases(ip: string, slot: string, now: int, id: string, token: string, ice: S.IceCreds)
      ensures var (next, r) := S.Create(table, cfg, ip, slot, now, id, token, ice);
              var (admitted, after) := S.Admit(table.accepted, cfg, ip, now);
              && r == (if !cfg.validSlot(slot) then S.BadSlot
                       else if !admitted then S.RateLimited
                       else if S.AtCap(table, cfg, cfg.rateKey(ip)) then S.TooMany
                       else if slot in table.bySlot || S.Tombstoned(table, slot, now) then S.SlotTaken
                       else S.Created(id))
              && (r.BadSlot? ==> next == table)
              && (!r.BadSlot? ==> next.accepted == after && next.clock == now)
              && (r.RateLimited? || r.TooMany? || r.SlotTaken? ==> next == table.(accepted := after, clock := now))
    {
      hide S.Admit, S.AtCap, S.Tombstoned;
    }

    /** Create, once past the rate limit. */
    method ClaimSlot(ip: string, slot: string, now: int, id: string, token: string, ice: S.IceCreds, ghost next: S.Table) returns (r: S.Reply)
      requires Mirrors() && S.ValidConfig(cfg) && S.Inv(next, cfg) && table.clock <= now
      requires CountsMatch(ipCounts, S.RolesOf(table.live)) && TombsAgree(consumed, table.tombs, table.clock)
      requires BucketsAgree(buckets, next.accepted, next.clock)
      requires cfg.validSlot(slot) && S.Admit(table.accepted, cfg, ip, now).0
      requires next == S.Create(table, cfg, ip, slot, now, id, token, ice).0 && id !in table.live && id !in table.woken
      modifies this
      ensures Valid() && (table, r) == S.Create(old(table), cfg, ip, slot, now, id, token, ice)
      ensures if r.Created? then id in byID && fresh(byID[id]) && byID == old(byID)[id := byID[id]] else byID == old(byID)
    {
      hide S.Inv, S.Admit, S.AtCap, CountsMatch, BucketsAgree, TombsAgree, IsConsumed, S.Tombstoned, Mirrors;
      SameKeys();
      CreateCases(ip, slot, now, id, token, ice);
      TombIsExact(slot, now);
      var key := cfg.rateKey(ip);
      CapIsExact(key);
      if CapReached(key) {
        Reject(next);
        return S.TooMany;
      }
      if slot in bySlot || IsConsumed(slot, now) {
        Reject(next);
        return S.SlotTaken;
      }
      var v := S.Session(id, slot, token, ice, now, ip, key, "", "", S.IceCreds("", ""), "", false, 0, now);
      Register(v, key, next);
      return S.Created(id);
    }

    /** Registers a waiting session under a slot that no session and no tombstone holds. */
    method CreateSession(ip: string, slot: string, now: int, id: string, token: string, ice: S.IceCreds) returns (r: S.Reply)
      requires Valid() && Sensible(table, OpCreate(ip, slot, now, id, token, ice))
      modifies this
      ensures Valid() && (table, r) == S.Create(old(table), cfg, ip, slot, now, id, token, ice)
      ensures if r.Created? then id in byID && fresh(byID[id]) && byID == old(byID)[id := byID[id]] else byID == old(byID)
    {
      hide S.Inv, S.Admit, S.AtCap, CountsMatch, BucketsAgree, TombsAgree, IsConsumed, S.Tombstoned, Mirrors;
      CreateCases(ip, slot, now, id, token, ice);
      hide S.Create;
      ghost var (next, reply) := S.Create(table, cfg, ip, slot, now, id, token, ice);
      CreateKeeps(table, cfg, ip, slot, now, id, token, ice);
      FreshIdIsNew(table, cfg, id);
      if !cfg.validSlot(slot) {
        return S.BadSlot;
      }
      var allowed := AllowNewSession(ip, now);
      if !allowed {
        Reject(next);
        return S.RateLimited;
      }
      r := ClaimSlot(ip, slot, now, id, token, ice, next);
    }

    // ---- join ----

    lemma IdsApart()
      requires Mirrors() && S.SlotsAgree(table)
      ensures forall id <- byID :: byID[id].id == id
    {
    }

    /** Pairs a waiting session and wakes its sender. */
    method PairUp(sess: Session, ip: string, key: string, ice: S.IceCreds, token: string, now: int, ghost next: S.Table)
      requires Mirrors() && S.SlotsAgree(table) && sess.id in byID && byID[sess.id] == sess && sess.id !in table.woken
      requires next.live == table.live[sess.id := S.Pair(table.live[sess.id], ip, key, ice, token, now)]
      requires next.bySlot == table.bySlot && next.woken == table.woken + {sess.id}
      modifies this`table, sess
      ensures Mirrors() && table == next
    {
      hide S.SlotsAgree;
      IdsApart();
      assert MapsAgree(byID, bySlot, next);
      hide MapsAgree, S.Pair;
      assert sess.Shows(table.live[sess.id], false);
      sess.PairWith(ip, key, ice, token, now);
      assert sess.Shows(next.live[sess.id], true);
      hide Session.Shows;
      table := next;
    }

    lemma JoinCases(ip: string, slot: string, now: int, token: string, ice: S.IceCreds)
      requires S.SlotsAgree(table)
      ensures var (next, r) := S.DoJoin(table, cfg, ip, slot, now, token, ice);
              var (admitted, after) := S.Admit(table.accepted, cfg, ip, now);
              && (r.RateLimited? <==> !admitted)
              && (r.AlreadyUsed? <==> admitted && S.Tombstoned(table, slot, now))
              && (r.NotFound? <==> admitted && !S.Tombstoned(table, slot, now) && slot !in table.bySlot)
              && next.accepted == after && next.clock == now && next.tombs == table.tombs
              && (!r.Joined? ==> next == table.(accepted := after, clock := now))
    {
      hide S.Admit, S.AtCap, S.Tombstoned;
    }

    method JoinSession(ip: string, slot: string, now: int, token: string, ice: S.IceCreds) returns (r: S.Reply)
      requires Valid() && Sensible(table, OpJoin(ip, slot, now, token, ice))
      modifies this, byID.Values
      ensures Valid() && (table, r) == S.DoJoin(old(table), cfg, ip, slot, now, token, ice) && byID == old(byID)
    {
      hide S.Inv, S.Admit, S.AtCap, CountsMatch, BucketsAgree, TombsAgree, IsConsumed, S.Tombstoned, Mirrors, S.SlotsAgree, S.RolesOf;
      SoundParts();
      JoinCases(ip, slot, now, token, ice);
      JoinKeeps(table, cfg, ip, slot, now, token, ice);
      TombIsExact(slot, now);
      SameKeys();
      hide S.DoJoin;
      ghost var next := S.DoJoin(table, cfg, ip, slot, now, token, ice).0;
      var allowed := AllowNewSession(ip, now);
      if !allowed {
        Reject(next);
        return S.RateLimited;
      }
      if IsConsumed(slot, now) {
        Reject(next);
        return S.AlreadyUsed;
      }
      if slot !in bySlot {
        Reject(next);
        return S.NotFound;
      }
      r := JoinFound(ip, slot, now, token, ice, next);
    }

    lemma SoundParts()
      requires S.Inv(table, cfg)
      ensures S.SlotsAgree(table)
    {
    }

    /** Join, once the slot's session is found. */
    method JoinFound(ip: string, slot: string, now: int, token: string, ice: S.IceCreds, ghost next: S.Table) returns (r: S.Reply)
      requires Mirrors() && S.ValidConfig(cfg) && S.Inv(table, cfg) && S.Inv(next, cfg) && table.clock <= now
      requires CountsMatch(ipCounts, S.RolesOf(table.live)) && TombsAgree(consumed, table.tombs, table.clock)
      requires S.Admit(table.accepted, cfg, ip, now).0 && !S.Tombstoned(table, slot, now) && slot in bySlot
      requires BucketsAgree(buckets, next.accepted, next.clock) && next.clock == now
      requires next == S.DoJoin(table, cfg, ip, slot, now, token, ice).0
      modifies this, byID.Values
      ensures Valid() && (table, r) == S.DoJoin(old(table), cfg, ip, slot, now, token, ice) && byID == old(byID)
    {
      hide S.Inv, S.Admit, S.AtCap, CountsMatch, BucketsAgree, TombsAgree, S.Tombstoned, Mirrors, S.SlotsAgree;
      SoundParts();
      FoundAt(slot);
      FoundCases(ip, slot, now, token, ice);
      var sess := bySlot[slot];
      hide S.DoJoin;
      if sess.paired {
        Reject(next);
        return S.AlreadyPaired;
      }
      var key := cfg.rateKey(ip);
      CapIsExact(key);
      if CapReached(key) {
        Reject(next);
        return S.TooMany;
      }
      r := S.Joined(sess.id, sess.senderAddr, sess.senderIce);
      PairAndCharge(sess, ip, key, ice, token, now, next);
    }

    lemma FoundAt(slot: string)
      requires Mirrors() && S.SlotsAgree(table) && slot in bySlot
      ensures slot in table.bySlot && bySlot[slot].id == table.bySlot[slot] && bySlot[slot].slot == slot
      ensures bySlot[slot].id in byID && byID[bySlot[slot].id] == bySlot[slot] && byID.Keys == table.live.Keys
      ensures bySlot[slot].Shows(table.live[bySlot[slot].id], bySlot[slot].id in table.woken)
    {
    }

    lemma FoundCases(ip: string, slot: string, now: int, token: string, ice: S.IceCreds)
      requires S.ValidConfig(cfg) && S.Inv(table, cfg) && table.clock <= now && slot in table.bySlot
      requires S.Admit(table.accepted, cfg, ip, now).0 && !S.Tombstoned(table, slot, now)
      ensures var (next, r) := S.DoJoin(table, cfg, ip, slot, now, token, ice);
              var id := table.bySlot[slot];
              var s := table.live[id];
              var t1 := table.(accepted := next.accepted, clock := next.clock);
              var key := cfg.rateKey(ip);
              && r == (if s.paired then S.AlreadyPaired else if S.AtCap(table, cfg, key) then S.TooMany else S.Joined(id, s.senderAddr, s.senderIce))
              && (!r.Joined? ==> next == t1)
              && (r.Joined? ==>
                    && PairedBy(table, next, id, ip, key, ice, token, now) && s.receiverKey == "" && id !in table.woken)
    {
      hide S.Admit, S.AtCap, S.Tombstoned, S.CapHeld, S.UsedSlotsFree;
    }

    /** Pairs a waiting session and charges its receiver. */
    method PairAndCharge(sess: Session, ip: string, key: string, ice: S.IceCreds, token: string, now: int, ghost next: S.Table)
      requires Mirrors() && S.SlotsAgree(table) && sess.id in byID && byID[sess.id] == sess && sess.id !in table.woken
      requires S.ValidConfig(cfg) && S.Inv(next, cfg) && table.clock <= now && next.clock == now && key != ""
      requires CountsMatch(ipCounts, S.RolesOf(table.live)) && TombsAgree(consumed, table.tombs, table.clock)
      requires BucketsAgree(buckets, next.accepted, next.clock) && byID.Keys == table.live.Keys
      requires PairedBy(table, next, sess.id, ip, key, ice, token, now) && table.live[sess.id].receiverKey == "" && table.live[sess.id].id == sess.id
      modifies this, sess
      ensures Valid() && table == next && byID == old(byID)
    {
      hide S.Inv, CountsMatch, BucketsAgree, Mirrors, S.SlotsAgree, S.RolesOf;
      CountsAfterPut(ipCounts, table.live, next.live[sess.id], key);
      TombsAgreeLater(consumed, table.tombs, table.clock, now);
      hide TombsAgree;
      PairUp(sess, ip, key, ice, token, now, next);
      ipCounts := Charge(ipCounts, key);
    }

    // ---- wait ----

    /** The sender was seen. */
    method Touch(sess: Session, ip: string, key: string, now: int, ghost next: S.Table)
      requires Mirrors() && S.SlotsAgree(table) && sess.id in byID && byID[sess.id] == sess
      requires next.live == table.live[sess.id := S.Seen(table.live[sess.id], ip, key, now)]
      requires next.bySlot == table.bySlot && next.woken == table.woken
      modifies this`table, sess
      ensures Mirrors() && table == next
    {
      hide S.SlotsAgree;
      IdsApart();
      assert MapsAgree(byID, bySlot, next);
      hide MapsAgree, S.Seen;
      assert sess.Shows(table.live[sess.id], sess.id in table.woken);
      sess.SeenFrom(ip, key, now);
      assert sess.Shows(next.live[sess.id], sess.id in table.woken);
      hide Session.Shows;
      table := next;
    }

    /** A poll counts as a heartbeat, and charges a restored session to the poll's address. */
    method TouchAndCharge(sess: Session, ip: string, key: string, now: int, ghost next: S.Table)
      requires Mirrors() && S.SlotsAgree(table) && sess.id in byID && byID[sess.id] == sess
      requires S.ValidConfig(cfg) && S.Inv(next, cfg) && table.clock <= now && next.clock == now && key != ""
      requires CountsMatch(ipCounts, S.RolesOf(table.live)) && TombsAgree(consumed, table.tombs, table.clock)
      requires BucketsAgree(buckets, next.accepted, next.clock) && byID.Keys == table.live.Keys
      requires next.live == table.live[sess.id := S.Seen(table.live[sess.id], ip, key, now)]
      requires next.bySlot == table.bySlot && next.woken == table.woken && next.tombs == table.tombs
      requires sess.Shows(table.live[sess.id], sess.id in table.woken)
      modifies this, sess
      ensures Valid() && table == next && byID == old(byID)
    {
      hide S.Inv, CountsMatch, BucketsAgree, Mirrors, S.SlotsAgree, S.RolesOf;
      if sess.senderKey == "" {
        CountsAfterPut(ipCounts, table.live, next.live[sess.id], key);
      } else {
        CountsOfSame(ipCounts, table.live, next.live[sess.id]);
      }
      TombsAgreeLater(consumed, table.tombs, table.clock, now);
      hide TombsAgree;
      var restored := sess.senderKey == "";
      Touch(sess, ip, key, now, next);
      if restored {
        ipCounts := Charge(ipCounts, key);
      }
    }

    lemma WaitCases(ip: string, slot: string, bearer: string, now: int)
      requires S.SlotsAgree(table)
      ensures var (next, r) := S.Wait(table, cfg, ip, slot, bearer, now);
              var (admitted, after) := S.Admit(table.accepted, cfg, ip, now);
              && (r.RateLimited? <==> !admitted)
              && (r.NotFound? <==> admitted && (slot !in table.bySlot || table.live[table.bySlot[slot]].SideOf(bearer) != Some(S.Sender)))
              && next.accepted == after && next.clock == now && next.tombs == table.tombs
              && next.bySlot == table.bySlot && next.woken == table.woken
              && (r.RateLimited? || r.NotFound? ==> next == table.(accepted := after, clock := now))
              && (!r.RateLimited? && !r.NotFound? ==>
                    var id := table.bySlot[slot];
                    var s := table.live[id];
                    && next.live == table.live[id := S.Seen(s, ip, cfg.rateKey(ip), now)]
                    && r == if s.paired then S.Answered(id, S.Join(s.receiverAddr, s.receiverIce)) else S.Parked(id))
    {
      hide S.Admit;
    }

    method WaitSession(ip: string, slot: string, bearer: string, now: int) returns (r: S.Reply)
      requires Valid() && Sensible(table, OpWait(ip, slot, bearer, now))
      modifies this, byID.Values
      ensures Valid() && (table, r) == S.Wait(old(table), cfg, ip, slot, bearer, now) && byID == old(byID)
    {
      hide S.Inv, S.Admit, CountsMatch, BucketsAgree, TombsAgree, Mirrors, S.Seen, S.SlotsAgree, S.RolesOf;
      SoundParts();
      WaitCases(ip, slot, bearer, now);
      WaitKeeps(table, cfg, ip, slot, bearer, now);
      SameKeys();
      hide S.Wait;
      ghost var next := S.Wait(table, cfg, ip, slot, bearer, now).0;
      var allowed := AllowNewSession(ip, now);
      if !allowed {
        Reject(next);
        return S.RateLimited;
      }
      if slot !in bySlot {
        Reject(next);
        return S.NotFound;
      }
      r := WaitFound(ip, slot, bearer, now, next);
    }

    /** Wait, once the slot's session is found: only its sender may. */
    method WaitFound(ip: string, slot: string, bearer: string, now: int, ghost next: S.Table) returns (r: S.Reply)
      requires Mirrors() && S.ValidConfig(cfg) && S.SlotsAgree(table) && S.Inv(next, cfg) && table.clock <= now
      requires CountsMatch(ipCounts, S.RolesOf(table.live)) && TombsAgree(consumed, table.tombs, table.clock)
      requires S.Admit(table.accepted, cfg, ip, now).0 && slot in bySlot && byID.Keys == table.live.Keys
      requires BucketsAgree(buckets, next.accepted, next.clock)
      requires next == S.Wait(table, cfg, ip, slot, bearer, now).0
      modifies this, byID.Values
      ensures Valid() && (table, r) == S.Wait(old(table), cfg, ip, slot, bearer, now) && byID == old(byID)
    {
      hide S.Inv, S.Admit, CountsMatch, BucketsAgree, TombsAgree, Mirrors, S.Seen, S.SlotsAgree, S.RolesOf;
      WaitCases(ip, slot, bearer, now);
      FoundAt(slot);
      hide S.Wait;
      var sess := bySlot[slot];
      if sess.View().SideOf(bearer) != Some(S.Sender) {
        Reject(next);
        return S.NotFound;
      }
      r := if sess.paired then S.Answered(sess.id, S.Join(sess.receiverAddr, sess.receiverIce)) else S.Parked(sess.id);
      TouchAndCharge(sess, ip, cfg.rateKey(ip), now, next);
    }

    /** A parked poll, woken, looks the slot up again. */
    method WakeWait(slot: string, id: string) returns (r: S.Reply)
      requires Valid() && Sensible(table, OpWake(slot, id))
      ensures r == S.Wake(table, slot, id)
    {
      hide S.Inv, CountsMatch, BucketsAgree, TombsAgree, Mirrors;
      SoundParts();
      SameKeys();
      hide S.SlotsAgree;
      if slot !in bySlot {
        return S.Expired;
      }
      FoundAt(slot);
      var final := bySlot[slot];
      if final.id != id {
        return S.Expired;
      }
      return S.Answered(id, S.Join(final.receiverAddr, final.receiverIce));
    }

    // ---- delete and evict ----

    /** Takes a session out of both maps. */
    method Unlink(sess: Session, ghost next: S.Table)
      requires Mirrors() && S.SlotsAgree(table) && sess.id in byID && byID[sess.id] == sess && sess.slot == table.live[sess.id].slot
      requires next.live == table.live - {sess.id} && next.bySlot == table.bySlot - {sess.slot}
      requires forall id <- next.live :: id in next.woken <==> id in table.woken
      modifies this`byID, this`bySlot, this`table
      ensures Mirrors() && table == next && byID == old(byID) - {sess.id}
    {
      hide Session.Shows;
      MapsAfterDrop(byID, bySlot, table, sess.id, next);
      assert byID.Keys == table.live.Keys;
      hide MapsAgree, S.SlotsAgree;
      byID := byID - {sess.id};
      bySlot := bySlot - {sess.slot};
      table := next;
    }

    lemma KnownAs(id: string)
      requires Mirrors() && S.SlotsAgree(table) && id in byID
      ensures id in table.live && byID[id].id == id && byID[id].Shows(table.live[id], id in table.woken)
      ensures byID[id].slot == table.live[id].slot && table.live[id].id == id
    {
    }

    /** Takes a session out of the table and releases what it was charged. */
    method Drop(sess: Session, ghost next: S.Table)
      requires Mirrors() && S.SlotsAgree(table) && sess.id in byID && byID[sess.id] == sess && byID.Keys == table.live.Keys
      requires sess.Shows(table.live[sess.id], sess.id in table.woken) && CountsMatch(ipCounts, S.RolesOf(table.live))
      requires Drops(sess, next)
      modifies this`byID, this`bySlot, this`table, this`ipCounts
      ensures Mirrors() && table == next && byID == old(byID) - {sess.id} && CountsMatch(ipCounts, S.RolesOf(table.live))
    {
      hide S.SlotsAgree, CountsMatch, Mirrors, S.RolesOf;
      CountsAfterDrop(ipCounts, table.live, sess.id);
      Unlink(sess, next);
      ipCounts := Release(ipCounts, sess.senderKey);
      ipCounts := Release(ipCounts, sess.receiverKey);
    }

    lemma DeleteCases(id: string, bearer: string, used: bool, now: int)
      ensures var (next, r) := S.Delete(table, id, bearer, used, now);
              && (r == if id !in table.live then S.NotFound
                       else if table.live[id].SideOf(bearer).None? then S.Unauthorized
                       else S.Deleted)
              && next.accepted == table.accepted && next.clock == now
              && (!r.Deleted? ==> next == table.(clock := now))
              && (r.Deleted? ==>
                    && next.live == table.live - {id} && next.bySlot == table.bySlot - {table.live[id].slot} && next.woken == table.woken
                    && next.tombs == if used then table.tombs[table.live[id].slot := now + S.CONSUMED_TTL] else table.tombs)
    {
    }

    method DeleteSession(id: string, bearer: string, used: bool, now: int) returns (r: S.Reply)
      requires Valid() && Sensible(table, OpDelete(id, bearer, used, now))
      modifies this
      ensures Valid() && (table, r) == S.Delete(old(table), id, bearer, used, now)
      ensures byID == if r.Deleted? then old(byID) - {id} else old(byID)
    {
      hide S.Inv, CountsMatch, BucketsAgree, Mirrors, TombsAgree, S.RolesOf;
      SoundParts();
      SameKeys();
      hide S.SlotsAgree;
      DeleteKeeps(table, cfg, id, bearer, used, now);
      DeleteCases(id, bearer, used, now);
      hide S.Delete;
      ghost var next := S.Delete(table, id, bearer, used, now).0;
      BucketsAgreeLater(buckets, table.accepted, table.clock, now);
      if id !in byID {
        Reject(next);
        return S.NotFound;
      }
      KnownAs(id);
      var sess := byID[id];
      if sess.View().SideOf(bearer).None? {
        Reject(next);
        return S.Unauthorized;
      }
      DropAndBury(sess, used, now, next);
      return S.Deleted;
    }

    /** Drops a session, and leaves a tombstone if its code was used. */
    method DropAndBury(sess: Session, used: bool, now: int, ghost next: S.Table)
      requires Mirrors() && S.SlotsAgree(table) && sess.id in byID && byID[sess.id] == sess && byID.Keys == table.live.Keys
      requires sess.Shows(table.live[sess.id], sess.id in table.woken) && CountsMatch(ipCounts, S.RolesOf(table.live))
      requires Drops(sess, next) && table.clock <= now && next.clock == now && S.ValidConfig(cfg) && S.Inv(next, cfg)
      requires TombsAgree(consumed, table.tombs, table.clock) && BucketsAgree(buckets, next.accepted, now)
      requires next.tombs == if used then table.tombs[sess.slot := now + S.CONSUMED_TTL] else table.tombs
      modifies this
      ensures Valid() && table == next && byID == old(byID) - {sess.id}
    {
      hide S.Inv, S.SlotsAgree, CountsMatch, Mirrors, S.RolesOf, BucketsAgree, Drops;
      TombsAfterDelete(consumed, table.tombs, table.clock, sess.slot, now);
      TombsAgreeLater(consumed, table.tombs, table.clock, now);
      hide TombsAgree;
      Drop(sess, next);
      if used {
        consumed := consumed[sess.slot := now + S.CONSUMED_TTL];
      }
    }

    /** A wake-up may be due for sess itself, nobody else. */
    ghost predicate Drops(sess: Session, next: S.Table)
      reads this`table
    {
      && next.live == table.live - {sess.id} && next.bySlot == table.bySlot - {sess.slot}
      && (forall id <- next.live :: id in next.woken <==> id in table.woken)
    }

    lemma MoreEvicted(t0: S.Table, now: int, seen: set<string>, id: string)
      requires table == S.EvictAmong(t0, cfg, now, seen) && S.Inv(t0, cfg) && t0.clock <= now && id in t0.live && id !in seen
      ensures id in table.live && table.live[id] == t0.live[id]
      ensures var next := S.EvictAmong(t0, cfg, now, seen + {id});
              if t0.live[id].Stale(cfg, now) then
                && next.live == table.live - {id} && next.bySlot == table.bySlot - {t0.live[id].slot}
                && (forall x <- next.live :: x in next.woken <==> x in table.woken)
              else next == table
    {
      hide S.Inv;
      EvictOneMore(t0, cfg, now, seen, id);
      hide S.EvictAmong;
    }

    /** The sweep looks at one session. */
    method SweepOne(id: string, now: int, ghost t0: S.Table, ghost seen: set<string>)
      requires Mirrors() && CountsMatch(ipCounts, S.RolesOf(table.live)) && S.Inv(t0, cfg) && t0.clock <= now
      requires table == S.EvictAmong(t0, cfg, now, seen) && id in t0.live && id !in seen
      modifies this`byID, this`bySlot, this`table, this`ipCounts, byID.Values
      ensures Mirrors() && CountsMatch(ipCounts, S.RolesOf(table.live)) && table == S.EvictAmong(t0, cfg, now, seen + {id})
      ensures byID.Values <= old(byID.Values)
    {
      hide S.Inv, CountsMatch, Mirrors, S.RolesOf, S.SlotsAgree;
      EvictKeeps(t0, cfg, now, seen);
      SoundParts();
      MoreEvicted(t0, now, seen, id);
      SameKeys();
      KnownAs(id);
      hide S.EvictAmong;
      var sess := byID[id];
      if sess.View().Stale(cfg, now) {
        ghost var next := S.EvictAmong(t0, cfg, now, seen + {id});
        NotWokenYet(table, cfg, id);
        EvictKeeps(t0, cfg, now, seen + {id});
        DropStale(sess, next);
      }
    }

    /** A stale session goes; if it was still waiting, its sender is woken. */
    method DropStale(sess: Session, ghost next: S.Table)
      requires Mirrors() && S.SlotsAgree(table) && sess.id in byID && byID[sess.id] == sess && byID.Keys == table.live.Keys
      requires sess.Shows(table.live[sess.id], sess.id in table.woken) && CountsMatch(ipCounts, S.RolesOf(table.live))
      requires Drops(sess, next) && S.Inv(next, cfg) && (sess.closed <==> sess.paired)
      modifies this`byID, this`bySlot, this`table, this`ipCounts, sess
      ensures Mirrors() && table == next && byID == old(byID) - {sess.id} && CountsMatch(ipCounts, S.RolesOf(table.live))
    {
      hide S.Inv, S.SlotsAgree, CountsMatch, Mirrors, S.RolesOf, Drops, Session.Shows;
      Drop(sess, next);
      if !sess.paired {
        SoundParts();
        IdsApart();
        sess.CloseWaiters();
      }
    }

    /** Removes tombstones that no longer answer. */
    method SweepTombs(now: int, ghost tombs: map<string, int>)
      requires TombsAgree(consumed, tombs, now)
      modifies this`consumed
      ensures TombsAgree(consumed, tombs, now)
    {
      var slots := consumed.Keys;
      while slots != {}
        invariant TombsAgree(consumed, tombs, now)
      {
        var slot :| slot in slots;
        slots := slots - {slot};
        if slot in consumed && now > consumed[slot] {
          forall s: string, later: int {:trigger S.Standing(consumed - {slot}, s, later)} | now <= later
            ensures S.Standing(consumed - {slot}, s, later) <==> S.Standing(tombs, s, later)
          {
            assert S.Standing(consumed, s, later) <==> S.Standing(tombs, s, later);
          }
          consumed := consumed - {slot};
        }
      }
    }

    /** Compacts every bucket and forgets the empty ones. */
    method PruneBuckets(now: int, ghost accepted: map<string, seq<int>>)
      requires BucketsAgree(buckets, accepted, now)
      modifies this`buckets
      ensures BucketsAgree(buckets, accepted, now)
    {
      hide Recent, Remembers;
      var keys := buckets.Keys;
      while keys != {}
        invariant BucketsAgree(buckets, accepted, now)
      {
        var key :| key in keys;
        keys := keys - {key};
        var keep := Recent(BucketAt(buckets, key), now - S.MINUTE);
        RemembersCall(BucketAt(buckets, key), S.AcceptedAt(accepted, key), now - S.MINUTE, now);
        BucketsAfter(buckets, accepted, key, keep, accepted, now);
        buckets := buckets[key := keep];
        if keep == [] {
          assert forall k: string :: BucketAt(buckets - {key}, k) == BucketAt(buckets, k);
          buckets := buckets - {key};
        }
      }
    }

    /** The janitor: stale sessions go, in whatever order the map is walked, then old tombstones and idle buckets. */
    method Evict(now: int)
      requires Valid() && Sensible(table, OpEvict(now))
      modifies this, byID.Values
      ensures Valid() && table == S.Evict(old(table), cfg, now) && byID.Values <= old(byID.Values)
    {
      hide S.Inv, CountsMatch, S.RolesOf, S.EvictAmong, BucketsAgree, TombsAgree, Mirrors;
      SameKeys();
      ghost var t0 := table;
      BucketsAgreeLater(buckets, table.accepted, table.clock, now);
      TombsAgreeLater(consumed, table.tombs, table.clock, now);
      StartSweep(now);
      var todo := byID.Keys;
      ghost var seen := {};
      while todo != {}
        invariant seen + todo == t0.live.Keys && seen !! todo
        invariant Mirrors() && CountsMatch(ipCounts, S.RolesOf(table.live)) && table == S.EvictAmong(t0, cfg, now, seen)
        invariant byID.Values <= old(byID.Values) && buckets == old(buckets) && consumed == old(consumed)
      {
        var id :| id in todo;
        SweepOne(id, now, t0, seen);
        todo := todo - {id};
        seen := seen + {id};
      }
      assert seen == t0.live.Keys;
      EvictKeeps(t0, cfg, now, seen);
      EvictedBooks(t0, now, seen);
      SweepTombs(now, t0.tombs);
      PruneBuckets(now, t0.accepted);
    }

    ghost method StartSweep(now: int)
      requires Mirrors() && CountsMatch(ipCounts, S.RolesOf(table.live))
      modifies this`table
      ensures Mirrors() && CountsMatch(ipCounts, S.RolesOf(table.live)) && table == S.EvictAmong(old(table), cfg, now, {})
    {
      hide S.EvictAmong, CountsMatch;
      NothingEvictedYet(now);
      table := S.EvictAmong(table, cfg, now, {});
    }

    lemma NothingEvictedYet(now: int)
      ensures var t := S.EvictAmong(table, cfg, now, {});
              t.live == table.live && t.bySlot == table.bySlot && t.woken == table.woken
    {
      var gone := S.StaleAmong(table, cfg, now, {});
      assert gone == {};
      assert S.SlotsOf(table.live, gone) == {} && S.WaitingOf(table.live, gone) == {};
      assert table.live - gone == table.live;
      assert table.bySlot - {} == table.bySlot;
    }

    lemma EvictedBooks(t0: S.Table, now: int, seen: set<string>)
      ensures var t := S.EvictAmong(t0, cfg, now, seen);
              t.clock == now && t.tombs == t0.tombs && t.accepted == t0.accepted
    {
    }

    // ---- snapshots ----

    /** The snapshot lists every waiting session once. */
    method SaveState() returns (saved: seq<S.Saved>)
      requires Valid()
      ensures S.Snapshot(table, saved)
    {
      hide S.Inv, CountsMatch, BucketsAgree, TombsAgree, Mirrors;
      SoundParts();
      SameKeys();
      hide S.SlotsAgree;
      saved := [];
      var todo := byID.Keys;
      ghost var seen := {};
      while todo != {}
        invariant seen + todo == table.live.Keys && seen !! todo
        invariant ListedSoFar(table, saved, seen)
      {
        var id :| id in todo;
        KnownAs(id);
        var sess := byID[id];
        ListedNext(table, saved, seen, id);
        if !sess.paired {
          saved := saved + [S.Saved(sess.id, sess.slot, sess.senderToken, sess.senderIce, sess.createdAt)];
        }
        todo := todo - {id};
        seen := seen + {id};
      }
      assert seen == table.live.Keys;
    }

    /** Restores a snapshot; entries that are stale, malformed or clash with a live session are dropped. */
    method LoadState(saved: seq<S.Saved>, now: int) returns (n: nat)
      requires Valid() && Sensible(table, OpLoad(saved, now))
      modifies this
      ensures Valid() && table == S.Load(old(table), cfg, saved, now)
      ensures table.live.Keys >= old(table).live.Keys && n == |table.live.Keys| - |old(table).live.Keys|
    {
      hide S.Inv, CountsMatch, BucketsAgree, TombsAgree, Mirrors, S.RolesOf, S.LoadOne, Loadable, S.Load;
      ghost var t0 := table;
      BucketsAgreeLater(buckets, table.accepted, table.clock, now);
      TombsAgreeLater(consumed, table.tombs, table.clock, now);
      n := 0;
      NothingLoadedYet(table, cfg, now);
      StartLoad(now);
      for i := 0 to |saved|
        invariant table == S.Load(t0, cfg, saved[..i], now) && Valid()
        invariant table.live.Keys >= t0.live.Keys && n == |table.live.Keys| - |t0.live.Keys|
      {
        NextLoad(t0, cfg, saved, now, i);
        var added := LoadEntry(saved[i], now);
        if added {
          n := n + 1;
        }
      }
      assert saved[..|saved|] == saved;
    }

    ghost method StartLoad(now: int)
      requires Valid() && table.clock <= now && S.Inv(S.Load(table, cfg, [], now), cfg)
      modifies this`table
      ensures Valid() && table == S.Load(old(table), cfg, [], now)
    {
      hide S.Inv, CountsMatch, S.RolesOf;
      BucketsAgreeLater(buckets, table.accepted, table.clock, now);
      TombsAgreeLater(consumed, table.tombs, table.clock, now);
      hide BucketsAgree, TombsAgree;
      table := table.(clock := now);
    }

    method LoadEntry(ss: S.Saved, now: int) returns (added: bool)
      requires Valid() && table.clock == now && S.Inv(S.LoadOne(table, cfg, ss, now), cfg)
      requires ss.id in table.issued ==> ss.id in table.live
      modifies this
      ensures Valid() && table == S.LoadOne(old(table), cfg, ss, now)
      ensures if added then table.live.Keys == old(table).live.Keys + {ss.id} && ss.id !in old(table).live else table == old(table)
    {
      hide S.Inv, CountsMatch, BucketsAgree, TombsAgree, Mirrors, S.RolesOf;
      SameKeys();
      if !S.Usable(ss, cfg, now) || ss.slot in bySlot || ss.id in byID {
        return false;
      }
      var v := S.Fresh(ss, now);
      FreshIdIsNew(table, cfg, ss.id);
      CountsAfterIdle(ipCounts, table.live, v);
      ghost var next := S.LoadOne(table, cfg, ss, now);
      var sess := new Session(v);
      Link(sess, v, next);
      return true;
    }
  }

  lemma NothingLoadedYet(t: S.Table, cfg: S.Config, now: int)
    requires S.Inv(t, cfg) && t.clock <= now
    ensures S.Inv(S.Load(t, cfg, [], now), cfg) && S.Load(t, cfg, [], now).live == t.live
  {
    LoadKeeps(t, cfg, [], now);
  }

  /** After the first i entries, the next is one more single step. */
  lemma NextLoad(t: S.Table, cfg: S.Config, saved: seq<S.Saved>, now: int, i: nat)
    requires S.Inv(t, cfg) && t.clock <= now && Loadable(t, saved, now) && i < |saved|
    ensures var t1 := S.Load(t, cfg, saved[..i], now);
            && t1.clock == now
            && S.Load(t, cfg, saved[..i + 1], now) == S.LoadOne(t1, cfg, saved[i], now)
            && S.Inv(S.LoadOne(t1, cfg, saved[i], now), cfg)
            && (saved[i].id in t1.issued ==> saved[i].id in t1.live)
  {
    hide S.Inv, S.LoadOne;
    LoadKeeps(t, cfg, saved[..i], now);
    LoadKeeps(t, cfg, saved[..i + 1], now);
    assert saved[..i + 1][..i] == saved[..i] && saved[..i + 1][i] == saved[i];
  }

  lemma CountsAfterIdle(counts: map<string, int>, live: map<string, S.Session>, v: S.Session)
    requires CountsMatch(counts, S.RolesOf(live)) && v.id !in live && v.senderKey == "" && v.receiverKey == ""
    ensures CountsMatch(counts, S.RolesOf(live[v.id := v]))
  {
    hide Charges;
    assert S.RolesOf(live[v.id := v]) == S.RolesOf(live)[v.id := Roles("", "")];
    ChargesGrow(S.RolesOf(live), v.id, Roles("", ""), "");
    hide S.RolesOf;
  }

  /** The waiting sessions among seen are listed, each once. */
  ghost predicate ListedSoFar(t: S.Table, saved: seq<S.Saved>, seen: set<string>) {
    && (forall i :: 0 <= i < |saved| ==>
          saved[i].id in seen && saved[i].id in t.live && !t.live[saved[i].id].paired && saved[i] == S.SavedForm(t.live[saved[i].id]))
    && (forall id <- t.live :: id in seen && !t.live[id].paired ==> S.SavedForm(t.live[id]) in saved)
    && (forall i, j :: 0 <= i < j < |saved| ==> saved[i].id != saved[j].id)
  }

  lemma ListedNext(t: S.Table, saved: seq<S.Saved>, seen: set<string>, id: string)
    requires ListedSoFar(t, saved, seen) && id in t.live && id !in seen && t.live[id].id == id
    ensures ListedSoFar(t, if t.live[id].paired then saved else saved + [S.SavedForm(t.live[id])], seen + {id})
  {
  }
}
