/** The relay's wire format: data datagrams and control frames, told apart by their first byte. */
module Framing {
  import opened Basics

  const TOKEN_SIZE: nat := 16
  const HEADER_SIZE: nat := 17
  const PEER_ID_SIZE: nat := 8
  const COOKIE_SIZE: nat := 16
  const CONTROL_SIZE: nat := HEADER_SIZE + 1 + PEER_ID_SIZE + COOKIE_SIZE
  const PROTOCOL_VERSION: byte := 1
  const CONTROL_VERSION: byte := 2

  datatype Control = Control(token: seq<byte>, kind: byte, id: seq<byte>, cookie: seq<byte>)

  predicate WellSized(c: Control) {
    |c.token| == TOKEN_SIZE && |c.id| == PEER_ID_SIZE && |c.cookie| == COOKIE_SIZE
  }

  /** Copies a field into a frame at an offset. */
  method CopyInto(out: array<byte>, at: nat, field: seq<byte>)
    requires at + |field| <= out.Length
    modifies out
    ensures forall k :: 0 <= k < out.Length ==> out[k] == if at <= k < at + |field| then field[k - at] else old(out[k])
  {
    for i := 0 to |field|
      invariant forall k :: 0 <= k < out.Length ==> out[k] == if at <= k < at + i then field[k - at] else old(out[k])
    {
      out[at + i] := field[i];
    }
  }

  function ControlBytes(c: Control): seq<byte> {
    [CONTROL_VERSION] + c.token + [c.kind] + c.id + c.cookie
  }

  /** A zeroed frame with each field copied to its place; without a cookie its place stays zero. */
  method FrameControl(token: seq<byte>, kind: byte, id: seq<byte>, cookie: Option<seq<byte>>) returns (frame: seq<byte>)
    requires |token| == TOKEN_SIZE && |id| == PEER_ID_SIZE && (cookie.Some? ==> |cookie.value| == COOKIE_SIZE)
    ensures frame == ControlBytes(Control(token, kind, id, if cookie.Some? then cookie.value else Zeros(COOKIE_SIZE)))
    ensures |frame| == CONTROL_SIZE
  {
    var out := new byte[CONTROL_SIZE](_ => 0);
    out[0] := CONTROL_VERSION;
    CopyInto(out, 1, token);
    out[HEADER_SIZE] := kind;
    CopyInto(out, HEADER_SIZE + 1, id);
    if cookie.Some? {
      CopyInto(out, HEADER_SIZE + 1 + PEER_ID_SIZE, cookie.value);
    }
    frame := out[..];
    ghost var at := HEADER_SIZE + 1 + PEER_ID_SIZE;
    assert frame[..1] == [CONTROL_VERSION] && frame[1..HEADER_SIZE] == token && frame[HEADER_SIZE] == kind;
    assert frame[HEADER_SIZE + 1..at] == id;
    assert frame[at..] == if cookie.Some? then cookie.value else Zeros(COOKIE_SIZE);
    Assemble(frame);
  }

  lemma Assemble(b: seq<byte>)
    requires |b| == CONTROL_SIZE
    ensures var at := HEADER_SIZE + 1 + PEER_ID_SIZE;
            b == b[..1] + b[1..HEADER_SIZE] + [b[HEADER_SIZE]] + b[HEADER_SIZE + 1..at] + b[at..]
  {
  }

  function ParseControl(b: seq<byte>): Option<Control> {
    if |b| != CONTROL_SIZE || b[0] != CONTROL_VERSION then None
    else
      var at := HEADER_SIZE + 1 + PEER_ID_SIZE;
      Some(Control(b[1..HEADER_SIZE], b[HEADER_SIZE], b[HEADER_SIZE + 1..at], b[at..]))
  }

  /** Control frames and their bytes correspond one to one. */
  lemma ControlRoundTrip(c: Control, b: seq<byte>)
    requires WellSized(c)
    ensures ParseControl(b) == Some(c) <==> b == ControlBytes(c)
  {
    if ParseControl(b) == Some(c) {
      Assemble(b);
      assert b[..1] == [b[0]];
    }
    var out, at := ControlBytes(c), HEADER_SIZE + 1 + PEER_ID_SIZE;
    assert out[1..HEADER_SIZE] == c.token && out[HEADER_SIZE] == c.kind;
    assert out[HEADER_SIZE + 1..at] == c.id && out[at..] == c.cookie;
  }

  function DataBytes(token: seq<byte>, payload: seq<byte>): seq<byte> {
    [PROTOCOL_VERSION] + token + payload
  }

  /** Version, token and payload of any datagram long enough to hold a header. */
  function Parse(b: seq<byte>): Option<(byte, seq<byte>, seq<byte>)> {
    if |b| < HEADER_SIZE then None else Some((b[0], b[1..HEADER_SIZE], b[HEADER_SIZE..]))
  }

  lemma DataRoundTrip(token: seq<byte>, payload: seq<byte>, b: seq<byte>)
    requires |token| == TOKEN_SIZE
    ensures Parse(b) == Some((PROTOCOL_VERSION, token, payload)) <==> b == DataBytes(token, payload)
  {
    if Parse(b) == Some((PROTOCOL_VERSION, token, payload)) {
      assert b == b[..1] + b[1..HEADER_SIZE] + b[HEADER_SIZE..];
      assert b[..1] == [b[0]];
    }
    var out := DataBytes(token, payload);
    assert out[1..HEADER_SIZE] == token && out[HEADER_SIZE..] == payload;
  }

  /** No datagram is both data and control. */
  lemma NeverBoth(b: seq<byte>)
    ensures !(ParseControl(b).Some? && Parse(b).Some? && Parse(b).value.0 == PROTOCOL_VERSION)
  {
  }

  /** Where each field of a control frame sits. */
  lemma ControlLayout(c: Control)
    requires WellSized(c)
    ensures var b := ControlBytes(c);
            && |b| == 42 && b[0] == 2 && b[1..17] == c.token && b[17] == c.kind && b[18..26] == c.id && b[26..42] == c.cookie
  {
    var b := ControlBytes(c);
    assert b[1..17] == c.token && b[18..26] == c.id && b[26..42] == c.cookie;
  }

  /** A data datagram is a version byte, the token, and the payload. */
  lemma DataLayout(token: seq<byte>, payload: seq<byte>)
    requires |token| == TOKEN_SIZE
    ensures var b := DataBytes(token, payload);
            |b| == 17 + |payload| && b[0] == 1 && b[1..17] == token && b[17..] == payload
  {
    var b := DataBytes(token, payload);
    assert b[1..17] == token && b[17..] == payload;
  }
}
