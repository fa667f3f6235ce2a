/** The relay's binary wire protocol (`S2C` and `C2S` in api.py).
    Every message starts with a one-byte tag; no trailing payload carries a
    length prefix, because the websocket delimits each message.

    Beside each direction the module defines the other side's half, a
    client-side decoder for server messages and a client-side encoder for
    client frames, and proves the two halves inverse. */
module Codec {
  import opened Bytes
  import opened Wrappers
  import opened Text

  // ---------------------------------------------------------------------------
  // server to client

  const AUTH: byte := 0
  const PING: byte := 1
  const EVENT: byte := 2
  const TOAST: byte := 3
  const CHAT: byte := 4
  const NOTICE: byte := 5
  const KEEPALIVE: byte := 6

  /** `S2C.NoticeType` */
  const NOTICE_SIZE: byte := 0
  const NOTICE_RATE: byte := 1

  /** `S2C.ToastType` */
  const TOAST_DEFAULT: int8 := 0
  const TOAST_WARNING: int8 := 1
  const TOAST_ERROR: int8 := 2
  const TOAST_CHEESE: int8 := 3

  /** `struct.pack(">b", x)`: one byte, two's complement. */
  function Int8ToByte(x: int8): (b: byte)
    ensures 0 <= x ==> b == x
    ensures x < 0 ==> b == x + 0x100
  {
    if x < 0 then x + 0x100 else x
  }

  function ByteToInt8(b: byte): (x: int8)
    ensures Int8ToByte(x) == b
  {
    if b >= 0x80 then b - 0x100 else b
  }

  /** `S2C.auth()`: the handshake acknowledgement. */
  function AuthPacket(): (r: seq<byte>)
    ensures DecodeServer(r) == Some(Auth)
  {
    [AUTH]
  }

  /** `S2C.ping`: the sender's identity as its two big-endian 64-bit halves,
      the ping id as a signed 32-bit big-endian integer, the sync flag as 0 or 1,
      then the payload verbatim. */
  function PingPacket(target: Uuid, id: int32, sync: bool, data: seq<byte>): (r: seq<byte>)
    ensures |r| == 22 + |data|
    ensures r[0] == PING && r[1..17] == target
    ensures r[17..21] == Int32ToBe(id) && BeToInt32(r[17..21]) == id
    ensures r[21] == (if sync then 1 else 0) && r[22..] == data
  {
    var msb := BeToNat(target[..8]);
    var lsb := BeToNat(target[8..]);
    BeToNatToBe(target[..8]);
    BeToNatToBe(target[8..]);
    Int32RoundTrip(id);
    var r := [PING] + NatToBe(msb, 8) + NatToBe(lsb, 8) + Int32ToBe(id) + [if sync then 1 else 0] + data;
    assert r[1..17] == target[..8] + target[8..];
    r
  }

  /** `S2C.event`: "this identity's avatar changed". */
  function EventPacket(target: Uuid): (r: seq<byte>)
    ensures |r| == 17 && r[0] == EVENT && r[1..] == target
  {
    var msb := BeToNat(target[..8]);
    var lsb := BeToNat(target[8..]);
    BeToNatToBe(target[..8]);
    BeToNatToBe(target[8..]);
    var r := [EVENT] + NatToBe(msb, 8) + NatToBe(lsb, 8);
    assert r[1..] == target[..8] + target[8..];
    r
  }

  /** `S2C.toast`: sub-type byte, title, one NUL separator, message. The title
      must not hold a NUL; the encoder does not check it. */
  function ToastPacket(kind: int8, title: seq<byte>, message: seq<byte>): (r: seq<byte>)
    ensures |r| == 3 + |title| + |message|
    ensures r[0] == TOAST && r[1] == Int8ToByte(kind) && r[2..2 + |title|] == title
    ensures r[2 + |title|] == 0 && r[3 + |title|..] == message
  {
    [TOAST, Int8ToByte(kind)] + title + [0] + message
  }

  /** `S2C.chat` */
  function ChatPacket(message: seq<byte>): (r: seq<byte>)
    ensures |r| == 1 + |message|
    ensures r[0] == CHAT && r[1..] == message
  {
    [CHAT] + message
  }

  /** `S2C.notice` */
  function NoticePacket(kind: byte): (r: seq<byte>)
    ensures DecodeServer(r) == Some(Notice(kind))
  {
    [NOTICE, kind]
  }

  /** `S2C.keepalive()` */
  function KeepalivePacket(): (r: seq<byte>)
    ensures DecodeServer(r) == Some(Keepalive)
  {
    [KEEPALIVE]
  }

  /** What a client reads out of a server message. */
  datatype ServerMsg =
    | Auth
    | Ping(target: Uuid, id: int32, sync: bool, data: seq<byte>)
    | Event(target: Uuid)
    | Toast(kind: int8, title: seq<byte>, message: seq<byte>)
    | Chat(message: seq<byte>)
    | Notice(notice: byte)
    | Keepalive

  function EncodeServer(m: ServerMsg): seq<byte> {
    match m
    case Auth => AuthPacket()
    case Ping(t, id, sync, data) => PingPacket(t, id, sync, data)
    case Event(t) => EventPacket(t)
    case Toast(k, title, message) => ToastPacket(k, title, message)
    case Chat(message) => ChatPacket(message)
    case Notice(k) => NoticePacket(k)
    case Keepalive => KeepalivePacket()
  }

  /** The index of the first `x` in `s`. */
  function FirstIndex(s: seq<byte>, x: byte): (r: Option<nat>)
    ensures r.None? <==> x !in s
    ensures r.Some? ==> r.value < |s| && s[r.value] == x && x !in s[..r.value]
  {
    if s == [] then None
    else if s[0] == x then Some(0)
    else
      var rest := FirstIndex(s[1..], x);
      if rest.None? then None
      else
        assert s[..rest.value + 1] == [s[0]] + s[1..][..rest.value];
        Some(rest.value + 1)
  }

  /** A client's decoder for server messages: tag, then the fixed layout of
      that tag; a toast is cut at the first NUL after the sub-type byte. */
  function DecodeServer(b: seq<byte>): Option<ServerMsg> {
    if b == [] then None
    else if b[0] == AUTH && |b| == 1 then Some(Auth)
    else if b[0] == PING && |b| >= 22 then
      Some(Ping(b[1..17], BeToInt32(b[17..21]), b[21] != 0, b[22..]))
    else if b[0] == EVENT && |b| == 17 then Some(Event(b[1..]))
    else if b[0] == TOAST && |b| >= 2 then
      match FirstIndex(b[2..], 0)
      case None => None
      case Some(k) => Some(Toast(ByteToInt8(b[1]), b[2..][..k], b[2..][k + 1..]))
    else if b[0] == CHAT then Some(Chat(b[1..]))
    else if b[0] == NOTICE && |b| == 2 then Some(Notice(b[1]))
    else if b[0] == KEEPALIVE && |b| == 1 then Some(Keepalive)
    else None
  }

  /** Every server message decodes to itself, provided a toast's title holds no NUL. */
  lemma ServerRoundTrip(m: ServerMsg)
    requires m.Toast? ==> 0 !in m.title
    ensures DecodeServer(EncodeServer(m)) == Some(m)
  {
    match m
    case Toast(k, title, message) => ToastRoundTrip(k, title, message);
    case Ping(t, id, sync, data) => PingRoundTrip(t, id, sync, data);
    case _ =>
  }

  lemma PingRoundTrip(t: Uuid, id: int32, sync: bool, data: seq<byte>)
    ensures DecodeServer(PingPacket(t, id, sync, data)) == Some(Ping(t, id, sync, data))
  {
    var b := PingPacket(t, id, sync, data);
    assert b[0] == PING && |b| >= 22;
  }

  /** Splitting a toast after its sub-type byte at the first NUL recovers title and
      message whenever the title holds no NUL. */
  lemma ToastRoundTrip(k: int8, title: seq<byte>, message: seq<byte>)
    requires 0 !in title
    ensures DecodeServer(ToastPacket(k, title, message)) == Some(Toast(k, title, message))
  {
    var b := ToastPacket(k, title, message);
    var body := b[2..];
    assert body == title + [0] + message;
    var i := FirstIndex(body, 0);
    assert body[|title|] == 0;
    assert i.value == |title|;
    assert body[..|title|] == title;
    assert body[|title| + 1..] == message;
    assert b[0] == TOAST && |b| >= 2;
  }

  /** A title with a NUL in it is cut short by the decoder: the title ends at its
      first NUL, and the rest of it, with the separator NUL, lands in the message. */
  lemma ToastTitleWithNul(k: int8, t1: seq<byte>, t2: seq<byte>, message: seq<byte>)
    requires 0 !in t1
    ensures DecodeServer(ToastPacket(k, t1 + [0] + t2, message)) == Some(Toast(k, t1, t2 + [0] + message))
  {
    var b := ToastPacket(k, t1 + [0] + t2, message);
    var rest := t2 + [0] + message;
    var body := b[2..];
    assert body == t1 + [0] + rest;
    FirstNulAt(t1, rest);
    assert body[..|t1|] == t1 && body[|t1| + 1..] == rest;
    assert ByteToInt8(b[1]) == k;
    assert b[0] == TOAST && |b| >= 2;
  }

  /** The first NUL of `a + [0] + c` is the one after `a` when `a` holds none. */
  lemma FirstNulAt(a: seq<byte>, c: seq<byte>)
    requires 0 !in a
    ensures FirstIndex(a + [0] + c, 0) == Some(|a|)
  {
    var s := a + [0] + c;
    assert s[|a|] == 0;
    assert forall i :: 0 <= i < |a| ==> s[i] == a[i];
    assert forall i :: 0 <= i <= |a| ==> s[..|a| + 1][i] == s[i];
  }

  // ---------------------------------------------------------------------------
  // client to server

  const TOKEN: byte := 0
  const C_PING: byte := 1
  const SUB: byte := 2
  const UNSUB: byte := 3

  datatype PingBody = PingBody(id: int32, sync: bool, data: seq<byte>)

  /** What `C2S.parse` returns, one variant per `(type, payload)` shape it can produce. */
  datatype ClientFrame =
    | NoMessage                                   // (None, None)
    | TokenFrame(token: seq<byte>)
    | PingFrame(body: Option<PingBody>)           // None: shorter than 6 bytes
    | SubFrame(target: Option<Uuid>)              // None: not exactly 17 bytes
    | UnsubFrame(target: Option<Uuid>)
    | UnknownFrame(tag: byte, payload: seq<byte>)

  /** The token text: surrounding whitespace stripped, then every NUL removed. */
  function CleanToken(raw: seq<byte>): (t: seq<byte>)
    ensures 0 !in t
    ensures |t| <= |raw|
  {
    RemoveAll(Strip(raw), 0)
  }

  /** `C2S.parse` */
  function Parse(msg: seq<byte>): (r: ClientFrame)
    ensures r.NoMessage? <==> msg == []
    ensures r.TokenFrame? <==> msg != [] && msg[0] == TOKEN
    ensures r.TokenFrame? ==> 0 !in r.token
    ensures r.PingFrame? <==> msg != [] && msg[0] == C_PING
    ensures r.PingFrame? ==> (r.body.Some? <==> |msg| >= 6)
    ensures r.PingFrame? && r.body.Some? ==>
      && r.body.value.id == BeToInt32(msg[1..5])
      && r.body.value.sync == (msg[5] != 0)
      && r.body.value.data == msg[6..]
    ensures r.SubFrame? <==> msg != [] && msg[0] == SUB
    ensures r.UnsubFrame? <==> msg != [] && msg[0] == UNSUB
    ensures (r.SubFrame? || r.UnsubFrame?) ==> (r.target.Some? <==> |msg| == 17)
    ensures (r.SubFrame? || r.UnsubFrame?) && r.target.Some? ==> r.target.value == msg[1..]
    ensures r.UnknownFrame? ==> r.tag == msg[0] > UNSUB && r.payload == msg[1..]
  {
    if msg == [] then NoMessage
    else if msg[0] == TOKEN then TokenFrame(CleanToken(msg[1..]))
    else if msg[0] == C_PING then
      if |msg| < 6 then PingFrame(None)
      else PingFrame(Some(PingBody(BeToInt32(msg[1..5]), msg[5] != 0, msg[6..])))
    else if msg[0] == SUB || msg[0] == UNSUB then
      var target: Option<Uuid> := if |msg| != 17 then None else Some(msg[1..17]);
      if msg[0] == SUB then SubFrame(target) else UnsubFrame(target)
    else UnknownFrame(msg[0], msg[1..])
  }

  /** What a client sends; the ping's sync byte is any byte, nonzero meaning "echo to me". */
  datatype ClientMsg =
    | TokenMsg(raw: seq<byte>)
    | PingMsg(id: int32, syncByte: byte, data: seq<byte>)
    | SubMsg(target: Uuid)
    | UnsubMsg(target: Uuid)

  function EncodeClient(m: ClientMsg): (b: seq<byte>)
    ensures b != []
    ensures m.TokenMsg? ==> b[0] == TOKEN && b[1..] == m.raw
    ensures m.PingMsg? ==> |b| == 6 + |m.data| && b[0] == C_PING && b[1..5] == Int32ToBe(m.id) && b[5] == m.syncByte && b[6..] == m.data
    ensures m.SubMsg? ==> |b| == 17 && b[0] == SUB && b[1..] == m.target
    ensures m.UnsubMsg? ==> |b| == 17 && b[0] == UNSUB && b[1..] == m.target
  {
    match m
    case TokenMsg(raw) => [TOKEN] + raw
    case PingMsg(id, s, data) => [C_PING] + Int32ToBe(id) + [s] + data
    case SubMsg(t) => [SUB] + t
    case UnsubMsg(t) => [UNSUB] + t
  }

  /** The server reads back what a client encoded: a ping's id, sync and data exactly,
      a (un)subscription's identity, and a token after cleaning. */
  lemma ClientRoundTrip(m: ClientMsg)
    ensures Parse(EncodeClient(m)) == match m
      case TokenMsg(raw) => TokenFrame(CleanToken(raw))
      case PingMsg(id, s, data) => PingFrame(Some(PingBody(id, s != 0, data)))
      case SubMsg(t) => SubFrame(Some(t))
      case UnsubMsg(t) => UnsubFrame(Some(t))
  {
    var b := EncodeClient(m);
    match m
    case TokenMsg(raw) =>
      assert b[1..] == raw;
    case PingMsg(id, s, data) =>
      assert b[1..5] == Int32ToBe(id);
      Int32RoundTrip(id);
      assert b[6..] == data;
    case SubMsg(t) =>
      assert b[1..17] == t;
    case UnsubMsg(t) =>
      assert b[1..17] == t;
  }

  /** Every well-formed ping frame is the encoding of its own parse: nothing in it is lost. */
  lemma PingFrameComplete(msg: seq<byte>)
    requires Parse(msg).PingFrame? && Parse(msg).body.Some?
    ensures var p := Parse(msg).body.value;
      msg == EncodeClient(PingMsg(p.id, msg[5], p.data))
  {
    Int32ToBeInverse(msg[1..5]);
    assert msg == [msg[0]] + msg[1..5] + [msg[5]] + msg[6..];
  }

  /** NULs are removed from the whole token, not only from its ends, and only
      after whitespace is stripped, so a NUL can shield whitespace from the strip. */
  lemma CleanTokenExamples()
    ensures CleanToken([0x61, 0, 0x62]) == [0x61, 0x62]
    ensures CleanToken([0, 0x20, 0x61]) == [0x20, 0x61]
  {
    assert Strip([0x61, 0, 0x62]) == [0x61, 0, 0x62];
    assert Strip([0, 0x20, 0x61]) == [0, 0x20, 0x61];
  }
}
