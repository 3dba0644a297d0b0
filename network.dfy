/** Length-prefixed framing over a TCP byte stream: a frame is the payload's
    length as four big-endian bytes followed by the payload. The serialiser
    that turns a message into payload bytes is treated as opaque, so the
    payload here is the serialised byte string itself.

    A socket's incoming side is modelled as the queue of chunks the network
    will deliver, one per `recv`; the end of the queue (or an empty chunk)
    is the peer closing the connection, on which `recv` yields no bytes. */
module Framing {
  import opened Protocol

  type byte = b: int | 0 <= b < 256

  const HeaderSize: nat := 4
  /** The first length four bytes cannot represent. */
  const FrameLimit: nat := 0x1_0000_0000

  // ---------------------------------------------------------------- header

  function Pow256(k: nat): (p: nat)
    ensures p >= 1
  {
    if k == 0 then 1 else 0x100 * Pow256(k - 1)
  }

  /** The low `k` bytes of `n`, most significant first. */
  function ToBigEndian(n: nat, k: nat): (r: seq<byte>)
    ensures |r| == k
  {
    if k == 0 then [] else ToBigEndian(n / 0x100, k - 1) + [n % 0x100]
  }

  /** `n` as four big-endian bytes. */
  function BigEndian4(n: nat): (r: seq<byte>)
    requires n < FrameLimit
    ensures |r| == HeaderSize
  {
    ToBigEndian(n, HeaderSize)
  }

  /** The unsigned big-endian integer that `bs` spells, for any length
      (including fewer than four bytes). */
  function FromBigEndian(bs: seq<byte>): (n: nat)
    ensures n < Pow256(|bs|)
  {
    if |bs| == 0 then 0
    else FromBigEndian(bs[..|bs| - 1]) * 0x100 + bs[|bs| - 1]
  }

  lemma {:induction false} ToFromBigEndian(n: nat, k: nat)
    requires n < Pow256(k)
    ensures FromBigEndian(ToBigEndian(n, k)) == n
  {
    if k > 0 {
      ToFromBigEndian(n / 0x100, k - 1);
      var r := ToBigEndian(n, k);
      assert r[..k - 1] == ToBigEndian(n / 0x100, k - 1);
    }
  }

  lemma {:induction false} FromToBigEndian(bs: seq<byte>)
    ensures ToBigEndian(FromBigEndian(bs), |bs|) == bs
  {
    if bs != [] {
      var init := bs[..|bs| - 1];
      FromToBigEndian(init);
      var n := FromBigEndian(bs);
      assert n / 0x100 == FromBigEndian(init) && n % 0x100 == bs[|bs| - 1];
      assert bs == init + [bs[|bs| - 1]];
    }
  }

  lemma FrameLimitIsPow()
    ensures FrameLimit == Pow256(HeaderSize)
  {
    assert Pow256(2) == 0x1_0000;
  }

  /** Header parse undoes header construction. */
  lemma HeaderRoundTrip(n: nat)
    requires n < FrameLimit
    ensures FromBigEndian(BigEndian4(n)) == n
  {
    FrameLimitIsPow();
    ToFromBigEndian(n, HeaderSize);
  }

  /** And header construction undoes header parse: every four-byte header
      is the encoding of exactly one length. */
  lemma HeaderParseRoundTrip(bs: seq<byte>)
    requires |bs| == HeaderSize
    ensures FromBigEndian(bs) < FrameLimit && BigEndian4(FromBigEndian(bs)) == bs
  {
    FrameLimitIsPow();
    FromToBigEndian(bs);
  }

  // ---------------------------------------------------------------- sending

  /** The bytes `send_data` hands to `sendall` for `payload`: header then
      payload, or nothing at all when the length does not fit in the header
      (the conversion fails and the error is swallowed). */
  function SendData(payload: seq<byte>): (wire: seq<byte>)
    ensures |payload| < FrameLimit ==> |wire| == HeaderSize + |payload| && wire[HeaderSize..] == payload
    ensures |payload| >= FrameLimit ==> wire == []
  {
    if |payload| < FrameLimit then BigEndian4(|payload|) + payload else []
  }

  /** A sent frame announces its own payload length. */
  lemma SendDataAnnouncesLength(payload: seq<byte>)
    requires |payload| < FrameLimit
    ensures FromBigEndian(SendData(payload)[..HeaderSize]) == |payload|
  {
    assert SendData(payload)[..HeaderSize] == BigEndian4(|payload|);
    HeaderRoundTrip(|payload|);
  }

  // ---------------------------------------------------------------- the stream

  function Min(a: nat, b: nat): nat { if a <= b then a else b }

  /** What one `recv(n)` returns: up to `n` bytes of the next chunk; no bytes
      once the stream is closed. */
  function Take(cs: seq<seq<byte>>, n: nat): (r: seq<byte>)
    ensures |r| <= n
    ensures |r| == 0 <==> cs == [] || cs[0] == [] || n == 0
    ensures cs != [] ==> |r| <= |cs[0]| && r == cs[0][..|r|]
  {
    if cs == [] then [] else cs[0][..Min(n, |cs[0]|)]
  }

  /** The chunks still to come after that `recv(n)`: the unread tail of the
      chunk stays at the front, a chunk read to its end is dropped, and a
      closed stream stays closed. The stream moves on exactly when the
      `recv` returns bytes, and it never grows. */
  function Rest(cs: seq<seq<byte>>, n: nat): (r: seq<seq<byte>>)
    ensures r == cs <==> |Take(cs, n)| == 0
    ensures |r| <= |cs|
  {
    if cs == [] || cs[0] == [] then cs
    else if n >= |cs[0]| then cs[1..]
    else [cs[0][n..]] + cs[1..]
  }

  /** The bytes a stream will deliver before it closes. */
  function Flatten(cs: seq<seq<byte>>): seq<byte>
  {
    if cs == [] || cs[0] == [] then [] else cs[0] + Flatten(cs[1..])
  }

  lemma {:induction false} TakeRest(cs: seq<seq<byte>>, n: nat)
    ensures Take(cs, n) + Flatten(Rest(cs, n)) == Flatten(cs)
  {
    if cs == [] || cs[0] == [] {
      assert Take(cs, n) == [] && Rest(cs, n) == cs;
    } else if n >= |cs[0]| {
      assert Take(cs, n) == cs[0] && Rest(cs, n) == cs[1..];
    } else {
      var t := [cs[0][n..]] + cs[1..];
      assert Rest(cs, n) == t && t[0] != [];
      assert t[1..] == cs[1..];
      assert Flatten(t) == cs[0][n..] + Flatten(cs[1..]);
      assert cs[0][..n] + cs[0][n..] == cs[0];
    }
  }

  /** Prepends `prefix` to a successful result, leaving the rest of the
      stream alone. */
  function Prefixed(prefix: seq<byte>, res: (Option<seq<byte>>, seq<seq<byte>>)): (r: (Option<seq<byte>>, seq<seq<byte>>))
    ensures r.1 == res.1 && r.0.Some? == res.0.Some?
    ensures r.0.Some? ==> r.0.value == prefix + res.0.value
  {
    match res.0
    case None => res
    case Some(data) => (Some(prefix + data), res.1)
  }

  /** The payload loop of `recv_data` as a function: keep asking for the
      missing `need` bytes until they are there; give up with `None` as soon
      as a `recv` yields nothing. Also gives the stream left behind. */
  function Collect(cs: seq<seq<byte>>, need: nat): (res: (Option<seq<byte>>, seq<seq<byte>>))
    ensures res.0.Some? ==> |res.0.value| == need
    decreases need
  {
    if need == 0 then (Some([]), cs)
    else
      var packet := Take(cs, need);
      if |packet| == 0 then (None, Rest(cs, need))
      else Prefixed(packet, Collect(Rest(cs, need), need - |packet|))
  }

  lemma PrefixedAssoc(a: seq<byte>, b: seq<byte>, res: (Option<seq<byte>>, seq<seq<byte>>))
    ensures Prefixed(a, Prefixed(b, res)) == Prefixed(a + b, res)
  {
    if res.0.Some? {
      assert a + (b + res.0.value) == (a + b) + res.0.value;
    }
  }

  /** A stream with no empty chunk before its end: every `recv` on it
      delivers at least one byte until the queue runs out. */
  predicate Live(cs: seq<seq<byte>>)
  {
    forall i :: 0 <= i < |cs| ==> cs[i] != []
  }

  lemma RestLive(cs: seq<seq<byte>>, n: nat)
    requires Live(cs)
    ensures Live(Rest(cs, n))
  {
    var rest := Rest(cs, n);
    if cs != [] && n < |cs[0]| {
      forall i | 0 <= i < |rest| ensures rest[i] != [] {
        if i > 0 { assert rest[i] == cs[i]; }
      }
    } else if cs != [] {
      forall i | 0 <= i < |rest| ensures rest[i] != [] {
        assert rest[i] == cs[i + 1];
      }
    }
  }

  /** How a frame followed by `more` splits into header, payload and `more`. */
  lemma FrameParts(payload: seq<byte>, more: seq<byte>)
    requires |payload| < FrameLimit
    ensures var all := SendData(payload) + more;
      && |all| >= HeaderSize
      && FromBigEndian(all[..HeaderSize]) == |payload|
      && all[HeaderSize..] == payload + more
      && (payload + more)[..|payload|] == payload
      && (payload + more)[|payload|..] == more
  {
    var wire := SendData(payload);
    assert (wire + more)[..HeaderSize] == wire[..HeaderSize];
    SendDataAnnouncesLength(payload);
    assert (wire + more)[HeaderSize..] == wire[HeaderSize..] + more;
  }

  /** The payload loop succeeds exactly when the stream holds `need` more
      bytes; it then returns the next `need` bytes and consumes exactly
      those, however the network split them into chunks. */
  lemma {:induction false} CollectExact(cs: seq<seq<byte>>, need: nat)
    requires Live(cs)
    ensures Collect(cs, need).0.Some? <==> need <= |Flatten(cs)|
    ensures Collect(cs, need).0.Some? ==> Collect(cs, need).0.value == Flatten(cs)[..need]
    ensures Collect(cs, need).0.Some? ==> Flatten(Collect(cs, need).1) == Flatten(cs)[need..]
    ensures Live(Collect(cs, need).1)
    decreases need
  {
    if need == 0 {
    } else {
      var packet := Take(cs, need);
      var rest := Rest(cs, need);
      TakeRest(cs, need);
      if |packet| == 0 {
        assert cs == [];
      } else {
        RestLive(cs, need);
        CollectExact(rest, need - |packet|);
        var flat := Flatten(cs);
        assert flat == packet + Flatten(rest);
      }
    }
  }

  /** A collect that asks for nothing consumes nothing. */
  lemma CollectNothing(cs: seq<seq<byte>>)
    ensures Collect(cs, 0) == (Some([]), cs)
  {
  }

  // ---------------------------------------------------------------- receiving, as written

  /** `recv_data` as written: the header is a single `recv(4)`; no bytes
      means the connection closed; whatever came back (possibly fewer than
      four bytes) is parsed as the length; then the payload is collected. */
  function RecvFrame(cs: seq<seq<byte>>): (res: (Option<seq<byte>>, seq<seq<byte>>))
    ensures Take(cs, HeaderSize) == [] ==> res.0 == None
    ensures res.0.Some? ==> |res.0.value| == FromBigEndian(Take(cs, HeaderSize))
  {
    var rawLength := Take(cs, HeaderSize);
    if |rawLength| == 0 then (None, Rest(cs, HeaderSize))
    else Collect(Rest(cs, HeaderSize), FromBigEndian(rawLength))
  }

  /** When the first chunk carries the whole header, a frame sent by
      `send_data` is received intact, whatever the chunking of the payload,
      and the stream is left at the byte after it. */
  lemma {:induction false} RecvFrameRoundTrip(payload: seq<byte>, more: seq<byte>, cs: seq<seq<byte>>)
    requires |payload| < FrameLimit && Live(cs)
    requires Flatten(cs) == SendData(payload) + more
    requires cs != [] && |cs[0]| >= HeaderSize
    ensures RecvFrame(cs).0 == Some(payload)
    ensures Flatten(RecvFrame(cs).1) == more
  {
    FrameParts(payload, more);
    var header := Take(cs, HeaderSize);
    var rest := Rest(cs, HeaderSize);
    TakeRest(cs, HeaderSize);
    assert header == Flatten(cs)[..HeaderSize];
    assert Flatten(rest) == Flatten(cs)[HeaderSize..];
    RestLive(cs, HeaderSize);
    CollectExact(rest, |payload|);
  }

  /** A stream that closes before `length` payload bytes have arrived gives
      `None`. */
  lemma RecvFrameShort(cs: seq<seq<byte>>)
    requires Live(cs) && cs != [] && |cs[0]| >= HeaderSize
    requires |Flatten(cs)| < HeaderSize + FromBigEndian(cs[0][..HeaderSize])
    ensures RecvFrame(cs).0 == None
  {
    var rest := Rest(cs, HeaderSize);
    TakeRest(cs, HeaderSize);
    RestLive(cs, HeaderSize);
    CollectExact(rest, FromBigEndian(cs[0][..HeaderSize]));
  }

  /** The header read is not looped, so a header split across two chunks
      is parsed from its first part alone: the frame for the one-byte
      payload [7], delivered as [0, 0], [0, 1], [7], is read as a frame of
      length 0, and the rest of the frame is left in the stream, where the
      next receive takes it for a new frame. */
  lemma SplitHeaderMisparsed()
    ensures var cs := [[0, 0], [0, 1], [7]];
      && Live(cs) && Flatten(cs) == SendData([7])
      && RecvFrame(cs).0 == Some([])
      && RecvFrame(cs).1 == [[0, 1], [7]]
  {
    var cs: seq<seq<byte>> := [[0, 0], [0, 1], [7]];
    assert Flatten(cs[1..][1..]) == [7];
    assert Flatten(cs[1..]) == [0, 1, 7];
    assert Take(cs, HeaderSize) == [0, 0];
    assert FromBigEndian([0, 0]) == 0 by {
      assert [0, 0][..1] == [0];
      assert FromBigEndian([0]) == 0 by { assert [0][..0] == []; }
    }
  }

  // ---------------------------------------------------------------- receiving, corrected

  /** `recv_data` with the header collected by the same loop as the payload. */
  function RecvFrameFixed(cs: seq<seq<byte>>): (res: (Option<seq<byte>>, seq<seq<byte>>))
    ensures res.0.Some? ==> Collect(cs, HeaderSize).0.Some? && |res.0.value| == FromBigEndian(Collect(cs, HeaderSize).0.value)
  {
    var (header, rest) := Collect(cs, HeaderSize);
    match header
    case None => (None, rest)
    case Some(h) => Collect(rest, FromBigEndian(h))
  }

  /** The corrected receiver gets back every frame `send_data` produced,
      however the network chunks it, and consumes exactly that frame. */
  lemma {:induction false} RecvFrameFixedRoundTrip(payload: seq<byte>, more: seq<byte>, cs: seq<seq<byte>>)
    requires |payload| < FrameLimit && Live(cs)
    requires Flatten(cs) == SendData(payload) + more
    ensures RecvFrameFixed(cs).0 == Some(payload)
    ensures Flatten(RecvFrameFixed(cs).1) == more
  {
    FrameParts(payload, more);
    CollectExact(cs, HeaderSize);
    var res := Collect(cs, HeaderSize);
    CollectExact(res.1, |payload|);
  }

  /** The corrected receiver reports a closed connection when the stream
      ends before a whole frame has arrived. */
  lemma RecvFrameFixedShort(cs: seq<seq<byte>>)
    requires Live(cs) && |Flatten(cs)| < HeaderSize
    ensures RecvFrameFixed(cs).0 == None
  {
    CollectExact(cs, HeaderSize);
  }

  // ---------------------------------------------------------------- the socket

  /** The incoming side of a connected socket. */
  class Socket {
    var pending: seq<seq<byte>>

    constructor (chunks: seq<seq<byte>>)
      ensures pending == chunks
    {
      pending := chunks;
    }

    method Recv(n: nat) returns (data: seq<byte>)
      modifies this
      ensures data == Take(old(pending), n) && pending == Rest(old(pending), n)
    {
      data := Take(pending, n);
      pending := Rest(pending, n);
    }
  }

  /** The accumulation loop: receive until `length` bytes are in hand or a
      `recv` yields nothing. */
  method RecvExactly(sock: Socket, length: nat) returns (r: Option<seq<byte>>)
    modifies sock
    ensures (r, sock.pending) == Collect(old(sock.pending), length)
  {
    var dataBytes: seq<byte> := [];
    assert Collect(sock.pending, length).0.Some? ==> [] + Collect(sock.pending, length).0.value == Collect(sock.pending, length).0.value;
    while |dataBytes| < length
      invariant |dataBytes| <= length
      invariant Collect(old(sock.pending), length) == Prefixed(dataBytes, Collect(sock.pending, length - |dataBytes|))
      decreases length - |dataBytes|
    {
      ghost var before := sock.pending;
      var packet := sock.Recv(length - |dataBytes|);
      if |packet| == 0 {
        assert Collect(before, length - |dataBytes|) == (None, sock.pending);
        return None;
      }
      PrefixedAssoc(dataBytes, packet, Collect(sock.pending, length - |dataBytes| - |packet|));
      dataBytes := dataBytes + packet;
    }
    assert dataBytes + [] == dataBytes;
    r := Some(dataBytes);
  }

  /** `recv_data` as written. */
  method RecvData(sock: Socket) returns (r: Option<seq<byte>>)
    modifies sock
    ensures (r, sock.pending) == RecvFrame(old(sock.pending))
  {
    var rawLength := sock.Recv(HeaderSize);
    if |rawLength| == 0 {
      return None;
    }
    var length := FromBigEndian(rawLength);
    r := RecvExactly(sock, length);
  }

  /** `recv_data` with the header read looped like the payload. */
  method RecvDataFixed(sock: Socket) returns (r: Option<seq<byte>>)
    modifies sock
    ensures (r, sock.pending) == RecvFrameFixed(old(sock.pending))
  {
    var header := RecvExactly(sock, HeaderSize);
    if header.None? {
      return None;
    }
    var length := FromBigEndian(header.value);
    r := RecvExactly(sock, length);
  }
}
