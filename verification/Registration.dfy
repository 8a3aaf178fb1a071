/**
 * How the relay learns where its two peers are, over a network that drops,
 * duplicates, reorders, delays and spoofs datagrams. The cookie's MAC is ideal:
 * a cookie is the value it authenticates, and only the relay makes one.
 */
module Registration {
  import opened Basics

  const LIFETIME: nat := 30_000_000_000  // nanoseconds

  type Token = string
  type PeerId = string

  datatype Addr = Addr(ip: seq<int>, port: nat)

  /** Where a peer receives: a UDP address, or a WebSocket link. */
  datatype Endpoint = Udp(addr: Addr) | Ws(link: nat)

  datatype Peer = Peer(id: PeerId, ep: Endpoint)

  datatype Cookie = Blank | Mac(epoch: int, token: Token, addr: Addr) | Forged(noise: int)

  datatype Kind = Hello | Challenge | Register | Registered | Unknown

  datatype Msg = Msg(token: Token, kind: Kind, id: PeerId, cookie: Cookie)

  // ---- cookies ----

  function Epoch(now: nat): int {
    now / LIFETIME
  }

  /** The epoch before, in unsigned 64-bit arithmetic. */
  function Previous(epoch: int): int {
    if epoch == 0 then 0xFFFF_FFFF_FFFF_FFFF else epoch - 1
  }

  predicate CookieValid(c: Cookie, token: Token, addr: Addr, now: nat) {
    c == Mac(Epoch(now), token, addr) || c == Mac(Previous(Epoch(now)), token, addr)
  }

  /** Moments a clock of signed 64-bit nanoseconds can show. */
  predicate OnClock(now: nat) {
    now < 0x8000_0000_0000_0000
  }

  /** A cookie is good for one full lifetime and never for two, and only for the address and session it was made for. */
  lemma CookieLifetime(token: Token, addr: Addr, made: nat, now: nat)
    requires made <= now && OnClock(now)
    ensures now - made <= LIFETIME ==> CookieValid(Mac(Epoch(made), token, addr), token, addr, now)
    ensures now - made >= 2 * LIFETIME ==> !CookieValid(Mac(Epoch(made), token, addr), token, addr, now)
  {
  }

  // ---- one allocation ----

  predicate Names(peer: Option<Peer>, id: PeerId) {
    peer.Some? && peer.value.id == id
  }

  /** The slot a peer is filed under: its own, else the first free one, else none. */
  function SlotFor(peers: seq<Option<Peer>>, id: PeerId): Option<nat>
    requires |peers| == 2
  {
    if Names(peers[0], id) then Some(0)
    else if Names(peers[1], id) then Some(1)
    else if peers[0].None? then Some(0)
    else if peers[1].None? then Some(1)
    else None
  }

  function Filed(peers: seq<Option<Peer>>, np: Peer): seq<Option<Peer>>
    requires |peers| == 2
  {
    match SlotFor(peers, np.id)
    case None => peers
    case Some(k) => if k < |peers| then peers[k := Some(np)] else peers
  }

  class Allocation {
    var peers: array<Option<Peer>>

    ghost predicate Valid()
      reads this
    {
      peers.Length == 2
    }

    constructor ()
      ensures Valid() && fresh(peers) && peers[..] == [None, None]
    {
      peers := new Option<Peer>[2](_ => None);
    }

    /** Replaces the peer's address, or takes a free slot; false when both belong to others. */
    method Register(id: PeerId, ep: Endpoint) returns (ok: bool)
      requires Valid()
      modifies peers
      ensures Valid() && ok == SlotFor(old(peers[..]), id).Some?
      ensures peers[..] == Filed(old(peers[..]), Peer(id, ep))
    {
      for i := 0 to peers.Length
        invariant peers[..] == old(peers[..])
        invariant forall j :: 0 <= j < i ==> !Names(peers[j], id)
      {
        if Names(peers[i], id) {
          peers[i] := Some(Peer(id, ep));
          return true;
        }
      }
      for i := 0 to peers.Length
        invariant peers[..] == old(peers[..])
        invariant forall j :: 0 <= j < i ==> peers[j].Some?
      {
        if peers[i].None? {
          peers[i] := Some(Peer(id, ep));
          return true;
        }
      }
      return false;
    }
  }

  /** At most two peers, under different ids. */
  ghost predicate TwoPeers(peers: seq<Option<Peer>>) {
    |peers| == 2 && (peers[0].Some? && peers[1].Some? ==> peers[0].value.id != peers[1].value.id)
  }

  /** A slot once taken keeps its peer's id. */
  ghost predicate SameIds(before: seq<Option<Peer>>, after: seq<Option<Peer>>) {
    |before| == |after| == 2
    && (before[0].Some? ==> Names(after[0], before[0].value.id))
    && (before[1].Some? ==> Names(after[1], before[1].value.id))
  }

  lemma FilingKeepsIds(peers: seq<Option<Peer>>, np: Peer)
    requires TwoPeers(peers)
    ensures TwoPeers(Filed(peers, np)) && SameIds(peers, Filed(peers, np))
    ensures SlotFor(peers, np.id).Some? <==> Some(np) in Filed(peers, np)
    ensures SlotFor(peers, np.id).None? <==>
              peers[0].Some? && peers[1].Some? && peers[0].value.id != np.id && peers[1].value.id != np.id
    ensures forall p <- Filed(peers, np) :: p in peers || p == Some(np)
  {
  }

  // ---- the relay ----

  datatype Sent = Sent(dst: Endpoint, msg: Msg)

  datatype Hub = Hub(allocs: map<Token, seq<Option<Peer>>>, issued: set<Token>)

  datatype Event =
    | Allocate(token: Token)
    | Evict(token: Token)
    | Control(msg: Msg, src: Endpoint, now: nat, mayReply: bool)       // mayReply: within the reply limits
    | Stray(token: Token, addr: Addr, now: nat, mayReply: bool)        // data from an unknown UDP source

  function ChallengeFor(token: Token, id: PeerId, addr: Addr, now: nat): Sent {
    Sent(Udp(addr), Msg(token, Challenge, id, Mac(Epoch(now), token, addr)))
  }

  /** Records the source and confirms, unless both slots belong to others. */
  function Record(h: Hub, token: Token, id: PeerId, src: Endpoint): (Hub, seq<Sent>)
    requires token in h.allocs && |h.allocs[token]| == 2
  {
    if SlotFor(h.allocs[token], id).None? then (h, [])
    else (h.(allocs := h.allocs[token := Filed(h.allocs[token], Peer(id, src))]),
          [Sent(src, Msg(token, Registered, id, Blank))])
  }

  predicate Shaped(h: Hub) {
    forall t <- h.allocs :: |h.allocs[t]| == 2
  }

  /** One event, and what the relay sends in answer. */
  function Handle(h: Hub, e: Event): (Hub, seq<Sent>)
    requires Shaped(h)
  {
    match e
    case Allocate(token) =>
      if token in h.issued then (h, []) else (h.(allocs := h.allocs[token := [None, None]], issued := h.issued + {token}), [])
    case Evict(token) => (h.(allocs := h.allocs - {token}), [])
    case Control(msg, src, now, mayReply) =>
      if msg.token !in h.allocs then (h, [])
      else if msg.kind.Hello? && src.Udp? then
        (h, if mayReply then [ChallengeFor(msg.token, msg.id, src.addr, now)] else [])
      else if msg.kind.Hello? then Record(h, msg.token, msg.id, src)
      else if msg.kind.Register? then
        if src.Udp? && !CookieValid(msg.cookie, msg.token, src.addr, now) then (h, [])
        else Record(h, msg.token, msg.id, src)
      else (h, [])
    case Stray(token, addr, now, mayReply) =>
      (h, if token in h.allocs && mayReply then [ChallengeFor(token, "", addr, now)] else [])
  }

  /** What is known of the run so far: the relay's state and everything it sent. */
  datatype History = History(hub: Hub, outbox: seq<Sent>)

  function Minted(outbox: seq<Sent>, c: Cookie): bool {
    exists k :: 0 <= k < |outbox| && outbox[k].msg.cookie == c
  }

  /** Nobody else makes a valid cookie: whoever shows one has it from the relay. */
  predicate Possible(hist: History, e: Event) {
    e.Control? && e.msg.cookie.Mac? ==> Minted(hist.outbox, e.msg.cookie)
  }

  function After(events: seq<Event>): (r: Option<History>)
    ensures r.Some? ==> Shaped(r.value.hub)
  {
    if events == [] then Some(History(Hub(map[], {}), []))
    else
      var n := |events| - 1;
      match After(events[..n])
      case None => None
      case Some(hist) =>
        if !Possible(hist, events[n]) then None
        else
          var (hub, out) := Handle(hist.hub, events[n]);
          HandleShapes(hist.hub, events[n]);
          Some(History(hub, hist.outbox + out))
  }

  lemma HandleShapes(h: Hub, e: Event)
    requires Shaped(h)
    ensures Shaped(Handle(h, e).0)
  {
  }

  ghost predicate IsRun(events: seq<Event>) {
    After(events).Some?
  }

  lemma {:induction false} PrefixIsRun(events: seq<Event>, i: nat)
    requires IsRun(events) && i <= |events|
    ensures IsRun(events[..i])
    decreases |events| - i
  {
    if i < |events| {
      PrefixIsRun(events, i + 1);
      assert events[..i + 1][..i] == events[..i];
    } else {
      assert events[..i] == events;
    }
  }

  /** The state before event i. */
  ghost function At(events: seq<Event>, i: nat): (h: History)
    requires IsRun(events) && i <= |events|
    ensures Shaped(h.hub)
  {
    PrefixIsRun(events, i);
    After(events[..i]).value
  }

  /** What event i makes the relay send. */
  ghost function Answer(events: seq<Event>, i: nat): seq<Sent>
    requires IsRun(events) && i < |events|
  {
    Handle(At(events, i).hub, events[i]).1
  }

  lemma OneEvent(events: seq<Event>, i: nat)
    requires IsRun(events) && i < |events|
    ensures Possible(At(events, i), events[i])
    ensures At(events, i + 1) == History(Handle(At(events, i).hub, events[i]).0, At(events, i).outbox + Answer(events, i))
  {
    hide Handle, Possible;
    PrefixIsRun(events, i + 1);
    assert events[..i + 1][..i] == events[..i];
  }

  // ---- safety of every run ----

  ghost predicate Orderly(h: Hub) {
    h.allocs.Keys <= h.issued && forall t <- h.allocs :: TwoPeers(h.allocs[t])
  }

  lemma HandleKeepsOrder(h: Hub, e: Event)
    requires Shaped(h) && Orderly(h)
    ensures Orderly(Handle(h, e).0)
  {
    hide Filed, SlotFor, CookieValid;
    if e.Control? && e.msg.token in h.allocs {
      FilingKeepsIds(h.allocs[e.msg.token], Peer(e.msg.id, e.src));
    }
  }

  /** In every run an allocation holds at most two peers, with different ids. */
  lemma {:induction false} AlwaysTwoPeers(events: seq<Event>, i: nat)
    requires IsRun(events) && i <= |events|
    ensures Orderly(At(events, i).hub)
  {
    if i > 0 {
      AlwaysTwoPeers(events, i - 1);
      OneEvent(events, i - 1);
      HandleKeepsOrder(At(events, i - 1).hub, events[i - 1]);
    }
  }

  lemma HandleKeepsIds(h: Hub, e: Event, t: Token)
    requires Shaped(h) && Orderly(h) && t in h.allocs && t in Handle(h, e).0.allocs
    ensures SameIds(h.allocs[t], Handle(h, e).0.allocs[t])
  {
    hide Filed, SlotFor, CookieValid;
    if e.Control? && e.msg.token in h.allocs {
      FilingKeepsIds(h.allocs[e.msg.token], Peer(e.msg.id, e.src));
    }
  }

  lemma GoneForGood(h: Hub, e: Event, t: Token)
    requires Shaped(h) && t in h.issued && t !in h.allocs
    ensures t in Handle(h, e).0.issued && t !in Handle(h, e).0.allocs
  {
  }

  /** As long as its allocation lives, a slot keeps the id it was taken under. */
  lemma {:induction false} SlotIdsNeverChange(events: seq<Event>, i: nat, j: nat, t: Token)
    requires IsRun(events) && i <= j <= |events|
    requires t in At(events, i).hub.issued
    ensures t in At(events, j).hub.issued
    ensures t in At(events, j).hub.allocs ==>
              t in At(events, i).hub.allocs && SameIds(At(events, i).hub.allocs[t], At(events, j).hub.allocs[t])
    decreases j
  {
    hide After, At, Handle, Orderly, TwoPeers;
    if i < j {
      SlotIdsNeverChange(events, i, j - 1, t);
      AlwaysTwoPeers(events, j - 1);
      OneEvent(events, j - 1);
      StepOnIds(At(events, j - 1).hub, events[j - 1], t);
    }
  }

  lemma StepOnIds(h: Hub, e: Event, t: Token)
    requires Shaped(h) && Orderly(h) && t in h.issued
    ensures var h2 := Handle(h, e).0;
            t in h2.issued && (t in h2.allocs ==> t in h.allocs && SameIds(h.allocs[t], h2.allocs[t]))
  {
    hide Filed, SlotFor, CookieValid;
    if t in h.allocs {
      if t in Handle(h, e).0.allocs {
        HandleKeepsIds(h, e, t);
      }
    } else {
      GoneForGood(h, e, t);
    }
  }

  // ---- an address is recorded only once it answered a challenge ----

  /** Event i sent this cookie to this address and nowhere else; event j came from there, echoing it. */
  ghost predicate Echoed(events: seq<Event>, i: nat, j: nat, t: Token, id: PeerId, addr: Addr, made: nat) {
    && IsRun(events) && i < j < |events|
    && (exists asked: PeerId :: Answer(events, i) == [ChallengeFor(t, asked, addr, made)])
    && events[j].Control? && events[j].src == Udp(addr)
    && events[j].msg == Msg(t, Register, id, Mac(Epoch(made), t, addr))
    && CookieValid(Mac(Epoch(made), t, addr), t, addr, events[j].now)
  }

  lemma {:induction false} MintedBy(events: seq<Event>, n: nat, c: Cookie) returns (i: nat, asked: PeerId, made: nat)
    requires IsRun(events) && n <= |events| && c.Mac? && Minted(At(events, n).outbox, c)
    ensures i < n && Answer(events, i) == [ChallengeFor(c.token, asked, c.addr, made)] && c == Mac(Epoch(made), c.token, c.addr)
    decreases n
  {
    hide Epoch, Orderly, CookieValid, SlotFor, Filed;
    assert n > 0;
    hide After, At;
    OneEvent(events, n - 1);
    if Minted(At(events, n - 1).outbox, c) {
      i, asked, made := MintedBy(events, n - 1, c);
    } else {
      i := n - 1;
      MintedEither(At(events, i).outbox, Answer(events, i), c);
      asked, made := OnlyChallengesMint(At(events, i).hub, events[i], c);
    }
  }

  lemma MintedEither(sent: seq<Sent>, more: seq<Sent>, c: Cookie)
    requires Minted(sent + more, c)
    ensures Minted(sent, c) || Minted(more, c)
  {
    var k :| 0 <= k < |sent + more| && (sent + more)[k].msg.cookie == c;
    if k < |sent| {
      assert sent[k].msg.cookie == c;
    } else {
      assert more[k - |sent|].msg.cookie == c;
    }
  }

  lemma OnlyChallengesMint(h: Hub, e: Event, c: Cookie) returns (asked: PeerId, made: nat)
    requires Shaped(h) && c.Mac? && Minted(Handle(h, e).1, c)
    ensures Handle(h, e).1 == [ChallengeFor(c.token, asked, c.addr, made)] && c == Mac(Epoch(made), c.token, c.addr)
  {
    hide Epoch, CookieValid, SlotFor, Filed;
    made := e.now;
    asked := if e.Control? then e.msg.id else "";
  }

  lemma NewlyRecorded(h: Hub, e: Event, t: Token, p: Peer)
    requires Shaped(h) && t in Handle(h, e).0.allocs && Some(p) in Handle(h, e).0.allocs[t]
    requires p.ep.Udp? && !(t in h.allocs && Some(p) in h.allocs[t])
    ensures e.Control? && e.src == p.ep && e.msg == Msg(t, Register, p.id, e.msg.cookie)
    ensures CookieValid(e.msg.cookie, t, p.ep.addr, e.now)
  {
    hide SlotFor, CookieValid, Epoch;
  }

  /** Whatever is spoofed, lost, repeated or late: a UDP address on file was sent a cookie for that session, and echoed it in time. */
  lemma {:induction false} RecordedOnlyAfterEcho(events: seq<Event>, n: nat, t: Token, p: Peer) returns (i: nat, j: nat, made: nat)
    requires IsRun(events) && n <= |events| && t in At(events, n).hub.allocs && Some(p) in At(events, n).hub.allocs[t] && p.ep.Udp?
    ensures j < n && Echoed(events, i, j, t, p.id, p.ep.addr, made)
    decreases n
  {
    hide Handle, Epoch, Orderly, CookieValid, SlotFor, Filed;
    assert n > 0;
    hide After, At;
    OneEvent(events, n - 1);
    if t in At(events, n - 1).hub.allocs && Some(p) in At(events, n - 1).hub.allocs[t] {
      i, j, made := RecordedOnlyAfterEcho(events, n - 1, t, p);
    } else {
      j := n - 1;
      NewlyRecorded(At(events, j).hub, events[j], t, p);
      ValidIsMac(events[j].msg.cookie, t, p.ep.addr, events[j].now);
      var asked;
      i, asked, made := MintedBy(events, j, events[j].msg.cookie);
    }
  }

  lemma ValidIsMac(c: Cookie, t: Token, addr: Addr, now: nat)
    requires CookieValid(c, t, addr, now)
    ensures c.Mac? && c.token == t && c.addr == addr
  {
  }

  // ---- a confirmation means the relay has it on file ----

  /** Every confirmation sent for a live session names a peer still on file. */
  ghost predicate Confirmed(hist: History) {
    forall k :: 0 <= k < |hist.outbox| && hist.outbox[k].msg.kind.Registered? ==>
      OnFile(hist.hub, hist.outbox[k].msg.token, hist.outbox[k].msg.id)
  }

  predicate OnFile(h: Hub, t: Token, id: PeerId) {
    t in h.issued && (t in h.allocs ==> |h.allocs[t]| == 2 && (Names(h.allocs[t][0], id) || Names(h.allocs[t][1], id)))
  }

  lemma StaysOnFile(h: Hub, e: Event, t: Token, id: PeerId)
    requires Shaped(h) && Orderly(h) && OnFile(h, t, id)
    ensures OnFile(Handle(h, e).0, t, id)
  {
    hide Handle, Orderly;
    StepOnIds(h, e, t);
  }

  lemma AnswersAreOnFile(h: Hub, e: Event, k: nat)
    requires Shaped(h) && Orderly(h) && k < |Handle(h, e).1| && Handle(h, e).1[k].msg.kind.Registered?
    ensures OnFile(Handle(h, e).0, Handle(h, e).1[k].msg.token, Handle(h, e).1[k].msg.id)
  {
    hide CookieValid;
  }

  lemma {:induction false} AlwaysConfirmed(events: seq<Event>, n: nat)
    requires IsRun(events) && n <= |events|
    ensures Confirmed(At(events, n))
  {
    if n > 0 {
      AlwaysConfirmed(events, n - 1);
      hide After, At, Handle, Orderly, OnFile;
      OneEvent(events, n - 1);
      AlwaysTwoPeers(events, n - 1);
      var before, after := At(events, n - 1), At(events, n);
      forall k | 0 <= k < |after.outbox| && after.outbox[k].msg.kind.Registered?
        ensures OnFile(after.hub, after.outbox[k].msg.token, after.outbox[k].msg.id)
      {
        if k < |before.outbox| {
          StaysOnFile(before.hub, events[n - 1], after.outbox[k].msg.token, after.outbox[k].msg.id);
        } else {
          AnswersAreOnFile(before.hub, events[n - 1], k - |before.outbox|);
        }
      }
    }
  }

  // ---- the client's side ----

  /** What reading the socket brings: a datagram, perhaps malformed, a timeout, or an error. */
  datatype Inbound = Datagram(msg: Option<Msg>) | Timeout | Failed

  datatype Outcome = Done | NoReply | Cancelled | ReadError | WriteError | Waiting

  /** The context the handshake runs under, at each read. */
  datatype Context = Live | DeadlinePassed | Canceled

  predicate Confirms(e: Inbound, token: Token, id: PeerId) {
    e.Datagram? && e.msg.Some? && e.msg.value.token == token && e.msg.value.kind.Registered? && e.msg.value.id == id
  }

  predicate Challenges(e: Inbound, token: Token) {
    e.Datagram? && e.msg.Some? && e.msg.value.token == token && e.msg.value.kind.Challenge?
  }

  /** The handshake gives up on this read. */
  predicate GivesUp(e: Inbound, ctx: Context) {
    e.Failed? || (e.Timeout? && !ctx.Live?)
  }

  /** The handshake ends on this read. */
  predicate EndsOn(e: Inbound, ctx: Context, token: Token, id: PeerId) {
    GivesUp(e, ctx) || Confirms(e, token, id)
  }

  /** A message goes out before read n: the first, and after each challenge and each timeout. */
  predicate SendsBefore(inbox: seq<Inbound>, token: Token, n: nat)
    requires n <= |inbox|
  {
    n == 0 || Challenges(inbox[n - 1], token) || inbox[n - 1].Timeout?
  }

  /** What the client has to say before read n: its HELLO, or the echo of the latest challenge. */
  function Says(inbox: seq<Inbound>, token: Token, id: PeerId, n: nat): Msg
    requires n <= |inbox|
  {
    if n == 0 then Msg(token, Hello, id, Blank)
    else if Challenges(inbox[n - 1], token) then Msg(token, Register, id, inbox[n - 1].msg.value.cookie)
    else Says(inbox, token, id, n - 1)
  }

  /** All it has sent before it made the n-th read and no more. */
  function SentBefore(inbox: seq<Inbound>, token: Token, id: PeerId, n: nat): seq<Msg>
    requires n <= |inbox|
  {
    if n == 0 then []
    else
      SentBefore(inbox, token, id, n - 1)
      + (if SendsBefore(inbox, token, n - 1) then [Says(inbox, token, id, n - 1)] else [])
  }

  /** No read before this one ended the handshake. */
  ghost predicate GoesOn(inbox: seq<Inbound>, contexts: seq<Context>, token: Token, id: PeerId, n: nat)
    requires n <= |inbox| == |contexts|
  {
    forall j :: 0 <= j < n ==> !EndsOn(inbox[j], contexts[j], token, id)
  }

  /** How the read that ended it ended it. */
  predicate EndedBy(r: Outcome, e: Inbound, ctx: Context, token: Token, id: PeerId) {
    match r
    case Done => Confirms(e, token, id)
    case ReadError => e.Failed?
    case Cancelled => e.Timeout? && ctx.Canceled?
    case NoReply => e.Timeout? && ctx.DeadlinePassed?
    case WriteError => false
    case Waiting => false
  }

  /**
   * HELLO, CHALLENGE, REGISTER, REGISTERED; an unanswered message is repeated.
   * made counts the reads: the last one ended the handshake, unless a
   * write failed before the next or the inbox is not over yet.
   */
  method RegisterWith(token: Token, id: PeerId, inbox: seq<Inbound>, contexts: seq<Context>, writes: seq<bool>)
    returns (r: Outcome, sent: seq<Msg>, ghost made: nat)
    requires |contexts| == |inbox|
    ensures made <= |inbox| && sent == SentBefore(inbox, token, id, made)
    ensures match r
            case WriteError =>
              && made < |inbox| && GoesOn(inbox, contexts, token, id, made) && SendsBefore(inbox, token, made)
              && |sent| < |writes| && !writes[|sent|]
            case Waiting => made == |inbox| && GoesOn(inbox, contexts, token, id, made)
            case _ =>
              && 0 < made && GoesOn(inbox, contexts, token, id, made - 1)
              && EndedBy(r, inbox[made - 1], contexts[made - 1], token, id)
    ensures forall k :: 0 <= k < |sent| && k < |writes| ==> writes[k]
    // it succeeds exactly when a confirmation is read before anything that makes it give up
    ensures r.Done? ==> exists k :: 0 <= k < |inbox| && Confirms(inbox[k], token, id) && forall j :: 0 <= j < k ==> !GivesUp(inbox[j], contexts[j])
    ensures (forall k :: 0 <= k < |writes| ==> writes[k]) ==>
              (r.Done? <==> exists k :: 0 <= k < |inbox| && Confirms(inbox[k], token, id) && forall j :: 0 <= j < k ==> !GivesUp(inbox[j], contexts[j]))
  {
    var msg := Msg(token, Hello, id, Blank);
    var send := true;
    sent := [];
    made := 0;
    for n := 0 to |inbox|
      invariant made == n && sent == SentBefore(inbox, token, id, n)
      invariant send == SendsBefore(inbox, token, n) && msg == Says(inbox, token, id, n)
      invariant GoesOn(inbox, contexts, token, id, n)
      invariant forall k :: 0 <= k < |sent| && k < |writes| ==> writes[k]
    {
      if send {
        if |sent| < |writes| && !writes[|sent|] {
          return WriteError, sent, made;
        }
        sent := sent + [msg];
        send := false;
      }
      made := n + 1;
      match inbox[n]
      case Failed => return ReadError, sent, made;
      case Timeout =>
        if contexts[n].Canceled? {
          return Cancelled, sent, made;
        } else if contexts[n].DeadlinePassed? {
          return NoReply, sent, made;
        }
        send := true;
      case Datagram(None) =>
      case Datagram(Some(m)) =>
        if m.token == token {
          if m.kind.Challenge? {
            msg := Msg(token, Register, id, m.cookie);
            send := true;
          } else if m.kind.Registered? && m.id == id {
            assert Confirms(inbox[n], token, id) && forall j :: 0 <= j < n ==> !GivesUp(inbox[j], contexts[j]);
            return Done, sent, made;
          }
        }
    }
    return Waiting, sent, made;
  }

  /** A challenge that does not come last is answered before the next read, and by nothing but the echo of its cookie. */
  lemma ChallengeIsEchoed(inbox: seq<Inbound>, token: Token, id: PeerId, n: nat)
    requires n + 2 <= |inbox| && Challenges(inbox[n], token)
    ensures SentBefore(inbox, token, id, n + 2)
            == SentBefore(inbox, token, id, n + 1) + [Msg(token, Register, id, inbox[n].msg.value.cookie)]
  {
  }

  lemma {:induction false} LastSaid(inbox: seq<Inbound>, token: Token, id: PeerId, n: nat)
    requires 0 < n <= |inbox|
    ensures var sent := SentBefore(inbox, token, id, n);
            sent != [] && sent[|sent| - 1] == Says(inbox, token, id, n - 1)
  {
    if n > 1 {
      LastSaid(inbox, token, id, n - 1);
    }
  }

  /** After a timeout the last message is repeated. */
  lemma TimeoutRepeats(inbox: seq<Inbound>, token: Token, id: PeerId, n: nat)
    requires n + 2 <= |inbox| && inbox[n].Timeout?
    ensures var sent := SentBefore(inbox, token, id, n + 1);
            sent != [] && SentBefore(inbox, token, id, n + 2) == sent + [sent[|sent| - 1]]
  {
    LastSaid(inbox, token, id, n + 1);
  }

  /** Nothing else makes it send. */
  lemma OthersAreSilent(inbox: seq<Inbound>, token: Token, id: PeerId, n: nat)
    requires n + 2 <= |inbox| && !Challenges(inbox[n], token) && !inbox[n].Timeout?
    ensures SentBefore(inbox, token, id, n + 2) == SentBefore(inbox, token, id, n + 1)
  {
  }

  /** Every message the client sends is its HELLO, or echoes a cookie it was challenged with; the first is the HELLO. */
  lemma {:induction false} OnlyEchoes(inbox: seq<Inbound>, token: Token, id: PeerId, n: nat, k: nat)
    requires n <= |inbox| && k < |SentBefore(inbox, token, id, n)|
    ensures var msg := SentBefore(inbox, token, id, n)[k];
            || msg == Msg(token, Hello, id, Blank)
            || exists i :: 0 <= i < n && Challenges(inbox[i], token) && msg == Msg(token, Register, id, inbox[i].msg.value.cookie)
    ensures SentBefore(inbox, token, id, n)[0] == Msg(token, Hello, id, Blank)
  {
    if k < |SentBefore(inbox, token, id, n - 1)| {
      OnlyEchoes(inbox, token, id, n - 1, k);
    } else {
      SaysEchoes(inbox, token, id, n - 1);
      if n > 1 {
        LastSaid(inbox, token, id, n - 1);
        OnlyEchoes(inbox, token, id, n - 1, 0);
      }
    }
  }

  lemma {:induction false} SaysEchoes(inbox: seq<Inbound>, token: Token, id: PeerId, n: nat)
    requires n <= |inbox|
    ensures var msg := Says(inbox, token, id, n);
            || msg == Msg(token, Hello, id, Blank)
            || exists i :: 0 <= i < n && Challenges(inbox[i], token) && msg == Msg(token, Register, id, inbox[i].msg.value.cookie)
  {
    if n > 0 {
      SaysEchoes(inbox, token, id, n - 1);
    }
  }

  /** The network only delivers what the relay sent to somebody, as often and as late as it likes. */
  ghost predicate Delivered(inbox: seq<Inbound>, outbox: seq<Sent>) {
    forall k :: 0 <= k < |inbox| && inbox[k].Datagram? && inbox[k].msg.Some? ==>
      exists j :: 0 <= j < |outbox| && outbox[j].msg == inbox[k].msg.value
  }

  /** When the client's handshake returns without error, the relay has its id on file, and keeps it as long as the session lives. */
  lemma DoneMeansOnFile(events: seq<Event>, inbox: seq<Inbound>, token: Token, id: PeerId, k: nat)
    requires IsRun(events) && Delivered(inbox, At(events, |events|).outbox)
    requires k < |inbox| && Confirms(inbox[k], token, id)
    ensures OnFile(At(events, |events|).hub, token, id)
  {
    hide After, At, OnFile;
    AlwaysConfirmed(events, |events|);
    var j :| 0 <= j < |At(events, |events|).outbox| && At(events, |events|).outbox[j].msg == inbox[k].msg.value;
  }

  /** With nothing lost the handshake completes: a challenge answered within a lifetime is confirmed, unless two others hold the session. */
  lemma HandshakeCompletes(h1: Hub, h2: Hub, token: Token, id: PeerId, addr: Addr, t1: nat, t2: nat)
    requires Shaped(h1) && token in h1.allocs && Shaped(h2) && token in h2.allocs && SlotFor(h2.allocs[token], id).Some?
    requires t1 <= t2 <= t1 + LIFETIME && OnClock(t2)
    ensures var (_, challenge) := Handle(h1, Control(Msg(token, Hello, id, Blank), Udp(addr), t1, true));
            && |challenge| == 1 && challenge[0].dst == Udp(addr)
            && var (h3, reply) := Handle(h2, Control(Msg(token, Register, id, challenge[0].msg.cookie), Udp(addr), t2, true));
            && reply == [Sent(Udp(addr), Msg(token, Registered, id, Blank))]
            && token in h3.allocs && Some(Peer(id, Udp(addr))) in h3.allocs[token]
  {
    hide Epoch, SlotFor;
    CookieLifetime(token, addr, t1, t2);
    hide CookieValid;
    var k := SlotFor(h2.allocs[token], id).value;
    assert k < 2 by { SlotInRange(h2.allocs[token], id); }
    assert Filed(h2.allocs[token], Peer(id, Udp(addr)))[k] == Some(Peer(id, Udp(addr)));
  }

  // ---- client and relay together ----

  /** The relay's answers to a source's messages, in order, and its state after them. */
  function Answers(h: Hub, src: Endpoint, msgs: seq<Msg>, times: seq<nat>): (r: (Hub, seq<Sent>))
    requires Shaped(h) && |times| >= |msgs|
    ensures Shaped(r.0)
    decreases |msgs|
  {
    if msgs == [] then (h, [])
    else
      var n := |msgs| - 1;
      var (before, out) := Answers(h, src, msgs[..n], times);
      var (after, more) := Handle(before, Control(msgs[n], src, times[n], true));
      HandleShapes(before, Control(msgs[n], src, times[n], true));
      (after, out + more)
  }

  /** With nothing lost, the client reads each answer sent to it. */
  function Arrives(out: seq<Sent>): seq<Inbound> {
    seq(|out|, i requires 0 <= i < |out| => Datagram(Some(out[i].msg)))
  }

  /** A WebSocket link can receive where it sends from, so its HELLO registers it at once. */
  lemma LinkRegistersAtOnce(h: Hub, token: Token, id: PeerId, link: nat, now: nat, mayReply: bool)
    requires Shaped(h) && token in h.allocs && SlotFor(h.allocs[token], id).Some?
    ensures var (h2, out) := Handle(h, Control(Msg(token, Hello, id, Blank), Ws(link), now, mayReply));
            && out == [Sent(Ws(link), Msg(token, Registered, id, Blank))]
            && token in h2.allocs && Some(Peer(id, Ws(link))) in h2.allocs[token]
  {
    hide SlotFor;
    SlotInRange(h.allocs[token], id);
    assert Filed(h.allocs[token], Peer(id, Ws(link)))[SlotFor(h.allocs[token], id).value] == Some(Peer(id, Ws(link)));
  }

  /**
   * Client and relay composed: with nothing lost, a slot open to the id and the
   * answer within a cookie's lifetime, the inbox the relay makes of what the
   * client sends lets its handshake return without error, with its address on file.
   */
  method Handshake(h: Hub, token: Token, id: PeerId, src: Endpoint, times: seq<nat>)
    returns (r: Outcome, sent: seq<Msg>, inbox: seq<Inbound>)
    requires Shaped(h) && token in h.allocs && SlotFor(h.allocs[token], id).Some?
    requires |times| == 2 && times[0] <= times[1] <= times[0] + LIFETIME && OnClock(times[1])
    ensures r.Done? && |sent| <= 2 && inbox == Arrives(Answers(h, src, sent, times).1)
    ensures var after := Answers(h, src, sent, times).0;
            token in after.allocs && Some(Peer(id, src)) in after.allocs[token]
  {
    hide Handle, SlotFor, Epoch, CookieValid, SentBefore;
    var hello := Msg(token, Hello, id, Blank);
    var confirmed := Msg(token, Registered, id, Blank);
    OneAnswer(h, src, hello, times);
    if src.Ws? {
      LinkRegistersAtOnce(h, token, id, src.link, times[0], true);
      inbox := [Datagram(Some(confirmed))];
      OneSaid(inbox, token, id);
      assert inbox == Arrives([Sent(src, confirmed)]) && Ws(src.link) == src;
    } else {
      HandshakeCompletes(h, h, token, id, src.addr, times[0], times[1]);
      HelloChangesNothing(h, hello, src, times[0]);
      ChallengeIs(h, token, id, src.addr, times[0]);
      var challenge := ChallengeFor(token, id, src.addr, times[0]).msg;
      TwoAnswers(h, src, hello, Msg(token, Register, id, challenge.cookie), times);
      inbox := [Datagram(Some(challenge)), Datagram(Some(confirmed))];
      TwoSaid(inbox, token, id);
      assert inbox == Arrives([ChallengeFor(token, id, src.addr, times[0])] + [Sent(src, confirmed)]) && Udp(src.addr) == src;
      assert !EndsOn(inbox[0], Live, token, id);
    }
    assert Confirms(inbox[|inbox| - 1], token, id);
    hide Answers, Says, SendsBefore;
    var contexts: seq<Context> := seq(|inbox|, _ => Live);
    ghost var made;
    r, sent, made := RegisterWith(token, id, inbox, contexts, []);
    assert made == |inbox| && sent == SentBefore(inbox, token, id, |inbox|);
  }

  lemma OneSaid(inbox: seq<Inbound>, token: Token, id: PeerId)
    requires |inbox| == 1
    ensures SentBefore(inbox, token, id, 1) == [Msg(token, Hello, id, Blank)]
  {
    assert SentBefore(inbox, token, id, 0) == [];
  }

  lemma TwoSaid(inbox: seq<Inbound>, token: Token, id: PeerId)
    requires |inbox| == 2 && Challenges(inbox[0], token)
    ensures SentBefore(inbox, token, id, 2) == [Msg(token, Hello, id, Blank), Msg(token, Register, id, inbox[0].msg.value.cookie)]
  {
    assert SentBefore(inbox, token, id, 0) == [];
    ChallengeIsEchoed(inbox, token, id, 0);
  }

  lemma OneAnswer(h: Hub, src: Endpoint, msg: Msg, times: seq<nat>)
    requires Shaped(h) && |times| >= 1
    ensures Answers(h, src, [msg], times) == Handle(h, Control(msg, src, times[0], true))
  {
    assert [msg][..0] == [] && Answers(h, src, [], times) == (h, []);
    var more := Handle(h, Control(msg, src, times[0], true)).1;
    assert [] + more == more;
  }

  lemma TwoAnswers(h: Hub, src: Endpoint, a: Msg, b: Msg, times: seq<nat>)
    requires Shaped(h) && |times| >= 2 && Shaped(Handle(h, Control(a, src, times[0], true)).0)
    ensures var (h1, out1) := Handle(h, Control(a, src, times[0], true));
            var (h2, out2) := Handle(h1, Control(b, src, times[1], true));
            Answers(h, src, [a, b], times) == (h2, out1 + out2)
  {
    hide Handle;
    OneAnswer(h, src, a, times);
    assert [a, b][..1] == [a];
  }

  lemma HelloChangesNothing(h: Hub, hello: Msg, src: Endpoint, now: nat)
    requires Shaped(h) && src.Udp? && hello.kind.Hello?
    ensures Handle(h, Control(hello, src, now, true)).0 == h
  {
  }

  lemma ChallengeIs(h: Hub, token: Token, id: PeerId, addr: Addr, now: nat)
    requires Shaped(h) && token in h.allocs
    ensures Handle(h, Control(Msg(token, Hello, id, Blank), Udp(addr), now, true)).1 == [ChallengeFor(token, id, addr, now)]
  {
  }

  /**
   * A registered peer whose address changed: its data from the new address is
   * answered with a challenge, and the echo moves its own slot there and leaves
   * the other peer alone.
   */
  lemma RebindingMovesTheSlot(h: Hub, h2: Hub, token: Token, id: PeerId, k: nat, addr: Addr, t1: nat, t2: nat)
    requires Shaped(h) && token in h.allocs && Shaped(h2) && token in h2.allocs && k < 2
    requires TwoPeers(h2.allocs[token]) && Names(h2.allocs[token][k], id)
    requires t1 <= t2 <= t1 + LIFETIME && OnClock(t2)
    ensures var (h1, challenge) := Handle(h, Stray(token, addr, t1, true));
            && h1 == h && challenge == [ChallengeFor(token, "", addr, t1)]
            && var (h3, reply) := Handle(h2, Control(Msg(token, Register, id, challenge[0].msg.cookie), Udp(addr), t2, true));
            && reply == [Sent(Udp(addr), Msg(token, Registered, id, Blank))]
            && h3.allocs == h2.allocs[token := h2.allocs[token][k := Some(Peer(id, Udp(addr)))]]
  {
    hide Epoch;
    CookieLifetime(token, addr, t1, t2);
    hide CookieValid;
  }

  /** The relay says nothing but this: challenges to UDP sources, within its limits, and confirmations of what it records. */
  lemma SpeaksExactly(h: Hub, e: Event)
    requires Shaped(h)
    ensures Handle(h, e).1 ==
            match e
            case Allocate(_) => []
            case Evict(_) => []
            case Stray(t, addr, now, mayReply) => if t in h.allocs && mayReply then [ChallengeFor(t, "", addr, now)] else []
            case Control(msg, src, now, mayReply) =>
              if msg.token !in h.allocs then []
              else if msg.kind.Hello? && src.Udp? then (if mayReply then [ChallengeFor(msg.token, msg.id, src.addr, now)] else [])
              else if Proves(msg, src, now) && SlotFor(h.allocs[msg.token], msg.id).Some? then
                [Sent(src, Msg(msg.token, Registered, msg.id, Blank))]
              else []
  {
    hide SlotFor, Epoch;
  }

  /** The source has shown that it receives where it sends from: it has a link, or echoes this or the last epoch's cookie. */
  predicate Proves(msg: Msg, src: Endpoint, now: nat) {
    if src.Ws? then msg.kind.Hello? || msg.kind.Register?
    else
      msg.kind.Register? && msg.cookie.Mac? && msg.cookie.token == msg.token && msg.cookie.addr == src.addr
      && (msg.cookie.epoch == Epoch(now) || msg.cookie.epoch == Previous(Epoch(now)))
  }

  /** An allocation starts with both slots free, an eviction ends it, and nothing else does either. */
  lemma AllocationsExactly(h: Hub, e: Event, t: Token)
    requires Shaped(h)
    ensures t in Handle(h, e).0.allocs <==> (t in h.allocs && e != Evict(t)) || (e == Allocate(t) && t !in h.issued)
    ensures t in Handle(h, e).0.allocs && t !in h.allocs ==> Handle(h, e).0.allocs[t] == [None, None]
  {
    hide CookieValid, SlotFor;
  }

  lemma SlotInRange(peers: seq<Option<Peer>>, id: PeerId)
    requires |peers| == 2 && SlotFor(peers, id).Some?
    ensures SlotFor(peers, id).value < 2
  {
  }
}
