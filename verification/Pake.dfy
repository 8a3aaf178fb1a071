/** The self-delimiting encodings CPace hashes (draft-irtf-cfrg-cpace-21, Appendix A). */
module Pake {
  import opened Basics

  const BLOCK: nat := 128       // bytes in a SHA-512 block
  const SHARE_SIZE: nat := 32

  /** "CPace255". */
  const DSI: seq<byte> := [67, 80, 97, 99, 101, 50, 53, 53]

  /** "CPace255_ISK". */
  const DSI_ISK: seq<byte> := DSI + [95, 73, 83, 75]

  /** A length, seven bits to a byte, least significant first; all but the last byte have the top bit set. */
  function Leb(n: nat): (r: seq<byte>)
    ensures |r| >= 1
  {
    if n < 128 then [n as byte] else [(n % 128 + 128) as byte] + Leb(n / 128)
  }

  function WithLength(data: seq<byte>): seq<byte> {
    Leb(|data|) + data
  }

  method PrependLen(data: seq<byte>) returns (out: seq<byte>)
    ensures out == WithLength(data)
  {
    hide Leb;
    var n: nat := |data|;
    out := [];
    while true
      invariant out + Leb(n) == Leb(|data|)
      decreases n
    {
      LebStep(n);
      if n < 128 {
        out := out + [n as byte];
      } else {
        out := out + [(n % 128 + 128) as byte];
      }
      n := n / 128;
      if n == 0 {
        break;
      }
    }
    out := out + data;
  }

  lemma LebStep(n: nat)
    ensures Leb(n) == if n < 128 then [n as byte] else [(n % 128 + 128) as byte] + Leb(n / 128)
    ensures n < 128 <==> n / 128 == 0
  {
  }

  function Concat(args: seq<seq<byte>>): seq<byte> {
    if args == [] then [] else Concat(args[..|args| - 1]) + WithLength(args[|args| - 1])
  }

  method LvCat(args: seq<seq<byte>>) returns (out: seq<byte>)
    ensures out == Concat(args)
  {
    hide WithLength;
    out := [];
    for i := 0 to |args|
      invariant out == Concat(args[..i])
    {
      var field := PrependLen(args[i]);
      assert args[..i + 1][..i] == args[..i];
      out := out + field;
    }
    assert args[..|args|] == args;
  }

  // ---- a decoder ----

  function ReadLength(s: seq<byte>): (r: Option<(nat, seq<byte>)>)
    ensures r.Some? ==> |r.value.1| < |s|
  {
    if s == [] then None
    else if s[0] < 128 then Some((s[0] as nat, s[1..]))
    else
      match ReadLength(s[1..])
      case None => None
      case Some((high, rest)) => Some((high * 128 + (s[0] as nat - 128), rest))
  }

  function ReadField(s: seq<byte>): (r: Option<(seq<byte>, seq<byte>)>)
    ensures r.Some? ==> |r.value.1| < |s|
  {
    match ReadLength(s)
    case None => None
    case Some((n, rest)) => if |rest| < n then None else Some((rest[..n], rest[n..]))
  }

  function Decode(s: seq<byte>): Option<seq<seq<byte>>>
    decreases |s|
  {
    if s == [] then Some([])
    else
      match ReadField(s)
      case None => None
      case Some((field, rest)) =>
        match Decode(rest)
        case None => None
        case Some(fields) => Some([field] + fields)
  }

  lemma {:induction false} ReadsLength(n: nat, rest: seq<byte>)
    ensures ReadLength(Leb(n) + rest) == Some((n, rest))
  {
    assert (Leb(n) + rest)[0] == Leb(n)[0];
    if n < 128 {
      assert (Leb(n) + rest)[1..] == rest;
    } else {
      ReadsLength(n / 128, rest);
      assert (Leb(n) + rest)[1..] == Leb(n / 128) + rest;
      assert n == n % 128 + 128 * (n / 128);
    }
  }

  lemma ReadsField(data: seq<byte>, rest: seq<byte>)
    ensures ReadField(WithLength(data) + rest) == Some((data, rest))
  {
    hide Leb, ReadLength;
    ReadsLength(|data|, data + rest);
    assert WithLength(data) + rest == Leb(|data|) + (data + rest);
  }

  lemma {:induction false} ConcatFirst(args: seq<seq<byte>>)
    requires args != []
    ensures Concat(args) == WithLength(args[0]) + Concat(args[1..])
  {
    hide WithLength;
    var n := |args| - 1;
    if n == 0 {
      assert args[..0] == [] && args[1..] == [];
    } else {
      ConcatFirst(args[..n]);
      assert args[..n][1..] == args[1..][..n - 1] && args[1..][n - 1] == args[n];
    }
  }

  /** Whatever is concatenated can be taken apart again. */
  lemma {:induction false} Decodes(args: seq<seq<byte>>)
    ensures Decode(Concat(args)) == Some(args)
    decreases |args|
  {
    if args != [] {
      hide WithLength, ReadField;
      ConcatFirst(args);
      ReadsField(args[0], Concat(args[1..]));
      Decodes(args[1..]);
      NotEmpty(args[0]);
      assert args == [args[0]] + args[1..];
    }
  }

  lemma NotEmpty(data: seq<byte>)
    ensures |WithLength(data)| >= 1
  {
  }

  /** Equal concatenations come from equal lists, of any length. */
  lemma UniquelyDecodable(a: seq<seq<byte>>, b: seq<seq<byte>>)
    requires Concat(a) == Concat(b)
    ensures a == b
  {
    hide Concat, Decode;
    Decodes(a);
    Decodes(b);
  }

  lemma {:induction false} ConcatAppend(a: seq<seq<byte>>, b: seq<seq<byte>>)
    ensures Concat(a + b) == Concat(a) + Concat(b)
    decreases |b|
  {
    hide WithLength;
    if b == [] {
      assert a + b == a;
    } else {
      var n := |b| - 1;
      ConcatAppend(a, b[..n]);
      assert (a + b)[..|a| + n] == a + b[..n];
    }
  }

  // ---- the transcript and the generator string ----

  function Transcript(ya: seq<byte>, ada: seq<byte>, yb: seq<byte>, adb: seq<byte>): seq<byte> {
    Concat([ya, ada]) + Concat([yb, adb])
  }

  /** The transcript determines both shares and both sides' associated data. */
  lemma TranscriptDetermines(ya: seq<byte>, ada: seq<byte>, yb: seq<byte>, adb: seq<byte>,
                             ya2: seq<byte>, ada2: seq<byte>, yb2: seq<byte>, adb2: seq<byte>)
    requires Transcript(ya, ada, yb, adb) == Transcript(ya2, ada2, yb2, adb2)
    ensures ya == ya2 && ada == ada2 && yb == yb2 && adb == adb2
  {
    hide Concat;
    ConcatAppend([ya, ada], [yb, adb]);
    ConcatAppend([ya2, ada2], [yb2, adb2]);
    var all, all2 := [ya, ada] + [yb, adb], [ya2, ada2] + [yb2, adb2];
    UniquelyDecodable(all, all2);
    assert all[0] == all2[0] && all[1] == all2[1] && all[2] == all2[2] && all[3] == all2[3];
  }

  /** Padding that fills the rest of the first hash block, as far as there is any. */
  function PadLength(prs: seq<byte>): int {
    BLOCK - 1 - |WithLength(prs)| - |WithLength(DSI)|
  }

  function Pad(prs: seq<byte>): seq<byte> {
    Zeros(if PadLength(prs) < 0 then 0 else PadLength(prs))
  }

  function Generator(prs: seq<byte>, ci: seq<byte>, sid: seq<byte>): seq<byte> {
    Concat([DSI, prs, Pad(prs), ci, sid])
  }

  method GeneratorString(prs: seq<byte>, ci: seq<byte>, sid: seq<byte>) returns (out: seq<byte>)
    ensures out == Generator(prs, ci, sid)
  {
    hide WithLength;
    var first := PrependLen(prs);
    var second := PrependLen(DSI);
    var zpad := BLOCK - 1 - |first| - |second|;
    if zpad < 0 {
      zpad := 0;
    }
    out := LvCat([DSI, prs, Zeros(zpad), ci, sid]);
  }

  lemma ConcatThree(a: seq<byte>, b: seq<byte>, c: seq<byte>)
    ensures Concat([a, b, c]) == WithLength(a) + WithLength(b) + WithLength(c)
  {
    hide WithLength;
    assert [a][..0] == [] && [a, b][..1] == [a] && [a, b, c][..2] == [a, b];
    assert Concat([a]) == WithLength(a);
    assert Concat([a, b]) == Concat([a]) + WithLength(b);
  }

  lemma PadSize(prs: seq<byte>)
    ensures |WithLength(Pad(prs))| == |Pad(prs)| + 1
    ensures PadLength(prs) >= 0 ==> |Pad(prs)| == PadLength(prs)
    ensures PadLength(prs) < 0 ==> |Pad(prs)| == 0
  {
    assert |WithLength(prs)| >= 1;
  }

  /** The secret and its padding fill at least the first hash block, and exactly that block unless the secret is too long to pad. */
  lemma FirstBlockFilled(prs: seq<byte>, ci: seq<byte>, sid: seq<byte>)
    ensures Generator(prs, ci, sid) == Concat([DSI, prs, Pad(prs)]) + Concat([ci, sid])
    ensures |Concat([DSI, prs, Pad(prs)])| >= BLOCK
    ensures |Concat([DSI, prs, Pad(prs)])| == BLOCK <==> PadLength(prs) >= 0
  {
    hide Concat;
    ConcatAppend([DSI, prs, Pad(prs)], [ci, sid]);
    assert [DSI, prs, Pad(prs)] + [ci, sid] == [DSI, prs, Pad(prs), ci, sid];
    ConcatThree(DSI, prs, Pad(prs));
    PadSize(prs);
    hide WithLength, Pad;
  }

  /** The generator string determines the secret, the channel and the session it was made from. */
  lemma GeneratorDetermines(prs: seq<byte>, ci: seq<byte>, sid: seq<byte>, prs2: seq<byte>, ci2: seq<byte>, sid2: seq<byte>)
    requires Generator(prs, ci, sid) == Generator(prs2, ci2, sid2)
    ensures prs == prs2 && ci == ci2 && sid == sid2
  {
    hide Concat, Pad;
    var all, all2 := [DSI, prs, Pad(prs), ci, sid], [DSI, prs2, Pad(prs2), ci2, sid2];
    UniquelyDecodable(all, all2);
    assert all[1] == all2[1] && all[3] == all2[3] && all[4] == all2[4];
  }

  // ---- finishing a run ----

  datatype Role = Initiator | Responder

  datatype Finished = AlreadyFinished | InvalidShare | Hashed(input: seq<byte>)

  /** What is hashed into the session key. */
  function KeyInput(role: Role, sid: seq<byte>, k: seq<byte>, share: seq<byte>, ad: seq<byte>, peerShare: seq<byte>, peerAd: seq<byte>): seq<byte> {
    Concat([DSI_ISK, sid, k])
    + if role.Initiator? then Transcript(share, ad, peerShare, peerAd) else Transcript(peerShare, peerAd, share, ad)
  }

  /** One run of the exchange. */
  class State {
    const role: Role
    const sid: seq<byte>
    const ad: seq<byte>
    const share: seq<byte>
    var usedUp: bool

    constructor (role: Role, sid: seq<byte>, ad: seq<byte>, share: seq<byte>)
      ensures this.role == role && this.sid == sid && this.ad == ad && this.share == share && !usedUp
    {
      this.role, this.sid, this.ad, this.share, usedUp := role, sid, ad, share, false;
    }

    /** k is what the scalar multiplication gives for the peer's share: None for a low-order point. */
    method Finish(peerShare: seq<byte>, peerAd: seq<byte>, k: Option<seq<byte>>) returns (r: Finished)
      modifies this
      ensures usedUp
      ensures r == if old(usedUp) then AlreadyFinished
                   else if |peerShare| != SHARE_SIZE || k.None? then InvalidShare
                   else Hashed(KeyInput(role, sid, k.value, share, ad, peerShare, peerAd))
    {
      hide Concat;
      if usedUp {
        return AlreadyFinished;
      }
      usedUp := true;
      if |peerShare| != SHARE_SIZE {
        return InvalidShare;
      }
      if k.None? {
        return InvalidShare;
      }
      var ya, ada, yb, adb := share, ad, peerShare, peerAd;
      if role.Responder? {
        ya, ada, yb, adb := peerShare, peerAd, share, ad;
      }
      var head := LvCat([DSI_ISK, sid, k.value]);
      var left := LvCat([ya, ada]);
      var right := LvCat([yb, adb]);
      return Hashed(head + (left + right));
    }
  }

  /** Initiator and responder hash the same input exactly when they agree on everything: session, shared point, shares and data. */
  lemma SidesAgreeIffSameView(sid: seq<byte>, k: seq<byte>, share: seq<byte>, ad: seq<byte>, peerShare: seq<byte>, peerAd: seq<byte>,
                              sid2: seq<byte>, k2: seq<byte>, share2: seq<byte>, ad2: seq<byte>, peerShare2: seq<byte>, peerAd2: seq<byte>)
    ensures KeyInput(Initiator, sid, k, share, ad, peerShare, peerAd) == KeyInput(Responder, sid2, k2, share2, ad2, peerShare2, peerAd2)
            <==> sid == sid2 && k == k2 && share == peerShare2 && ad == peerAd2 && peerShare == share2 && peerAd == ad2
  {
    hide Concat;
    if KeyInput(Initiator, sid, k, share, ad, peerShare, peerAd) == KeyInput(Responder, sid2, k2, share2, ad2, peerShare2, peerAd2) {
      KeyInputFields([DSI_ISK, sid, k], share, ad, peerShare, peerAd);
      KeyInputFields([DSI_ISK, sid2, k2], peerShare2, peerAd2, share2, ad2);
      var all := [DSI_ISK, sid, k] + [share, ad, peerShare, peerAd];
      var all2 := [DSI_ISK, sid2, k2] + [peerShare2, peerAd2, share2, ad2];
      UniquelyDecodable(all, all2);
      assert forall i :: 0 <= i < 7 ==> all[i] == all2[i];
      assert all[1] == sid && all[2] == k && all[3] == share && all[4] == ad && all[5] == peerShare && all[6] == peerAd;
    }
  }

  lemma KeyInputFields(head: seq<seq<byte>>, ya: seq<byte>, ada: seq<byte>, yb: seq<byte>, adb: seq<byte>)
    ensures Concat(head) + Transcript(ya, ada, yb, adb) == Concat(head + [ya, ada, yb, adb])
  {
    hide Concat;
    ConcatAppend([ya, ada], [yb, adb]);
    assert [ya, ada] + [yb, adb] == [ya, ada, yb, adb];
    ConcatAppend(head, [ya, ada, yb, adb]);
  }

  /** The initiator's share and data come first, whoever computes. */
  lemma InitiatorFirst(role: Role, sid: seq<byte>, k: seq<byte>, share: seq<byte>, ad: seq<byte>, peerShare: seq<byte>, peerAd: seq<byte>)
    ensures KeyInput(role, sid, k, share, ad, peerShare, peerAd)
            == if role.Initiator? then Concat([DSI_ISK, sid, k, share, ad, peerShare, peerAd])
               else Concat([DSI_ISK, sid, k, peerShare, peerAd, share, ad])
  {
    hide Concat;
    if role.Initiator? {
      KeyInputFields([DSI_ISK, sid, k], share, ad, peerShare, peerAd);
      assert [DSI_ISK, sid, k] + [share, ad, peerShare, peerAd] == [DSI_ISK, sid, k, share, ad, peerShare, peerAd];
    } else {
      KeyInputFields([DSI_ISK, sid, k], peerShare, peerAd, share, ad);
      assert [DSI_ISK, sid, k] + [peerShare, peerAd, share, ad] == [DSI_ISK, sid, k, peerShare, peerAd, share, ad];
    }
  }
}
