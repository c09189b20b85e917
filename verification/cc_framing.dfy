/** Framing of the command-and-control channel between `opusctl` and the
    backend: a four-byte unsigned length in native (here little-endian) byte
    order, then the payload.  The JSON body is an opaque byte string.  The
    peer is a script of what each `recv` finds waiting. */
module CcFraming {
  import opened Common

  /** `CC_HDR.size`: the struct format "@I". */
  const HdrSize: nat := 4
  /** The first length "@I" cannot pack. */
  const HdrLimit: nat := 0x1_0000_0000

  function Pow256(k: nat): (r: nat)
    ensures r > 0
  {
    if k == 0 then 1 else 256 * Pow256(k - 1)
  }

  /** The `k` low-order bytes of `n`, least significant first. */
  function ToLE(n: nat, k: nat): (r: seq<byte>)
    ensures |r| == k
  {
    if k == 0 then [] else [(n % 256) as byte] + ToLE(n / 256, k - 1)
  }

  /** Any number packs to its value reduced modulo 256^k: "@I" keeps the
      low-order bytes. */
  lemma {:induction false} ToLEValue(n: nat, k: nat)
    ensures FromLE(ToLE(n, k)) == n % Pow256(k)
  {
    if k > 0 {
      var r := ToLE(n, k);
      assert r[1..] == ToLE(n / 256, k - 1);
      ToLEValue(n / 256, k - 1);
      ModSplit(n, 256, Pow256(k - 1));
    }
  }

  /** The remainder modulo `a * b`, digit by digit. */
  lemma ModSplit(n: nat, a: nat, b: nat)
    requires a > 0 && b > 0
    ensures n % (a * b) == n % a + a * ((n / a) % b)
  {
    var q := (n / a) / b;
    var d := (n / a) % b;
    assert n / a == b * q + d;
    assert n == a * (n / a) + n % a;
    assert n == (a * b) * q + (a * d + n % a) by {
      assert a * (b * q + d) == (a * b) * q + a * d;
    }
    assert a * d + n % a < a * b by {
      assert a * d <= a * (b - 1) by { MulLe(a, d, b - 1); }
      assert a * (b - 1) == a * b - a;
    }
    ModUnique(n, a * b, q, a * d + n % a);
  }

  lemma MulLe(a: nat, x: nat, y: nat)
    requires x <= y
    ensures a * x <= a * y
  {
    assert a * y == a * x + a * (y - x);
  }

  /** A remainder is the only one below the divisor. */
  lemma ModUnique(n: int, m: nat, q: int, r: int)
    requires m > 0 && 0 <= r < m && n == m * q + r
    ensures n % m == r
  {
    var q' := n / m;
    assert n == m * q' + n % m;
    if q' < q {
      assert m * q == m * q' + m * (q - q');
      MulLe(m, 1, (q - q') as nat);
    } else if q < q' {
      assert m * q' == m * q + m * (q' - q);
      MulLe(m, 1, (q' - q) as nat);
    }
  }

  /** The number whose little-endian bytes are `b`. */
  function FromLE(b: seq<byte>): (r: nat)
    ensures r < Pow256(|b|)
  {
    if b == [] then 0 else b[0] as nat + 256 * FromLE(b[1..])
  }

  lemma HdrRange()
    ensures Pow256(HdrSize) == HdrLimit
  {
    assert Pow256(2) == 65536;
  }

  /** Unpacking a packed length gives the length back. */
  lemma {:induction false} FromToLE(n: nat, k: nat)
    requires n < Pow256(k)
    ensures FromLE(ToLE(n, k)) == n
  {
    if k > 0 {
      var m := n / 256;
      assert m < Pow256(k - 1);
      FromToLE(m, k - 1);
      assert ToLE(n, k)[1..] == ToLE(m, k - 1);
    }
  }

  /** Packing an unpacked header gives the header back. */
  lemma {:induction false} ToFromLE(b: seq<byte>)
    ensures ToLE(FromLE(b), |b|) == b
  {
    if b != [] {
      ToFromLE(b[1..]);
      var n := FromLE(b);
      assert n % 256 == b[0] as nat && n / 256 == FromLE(b[1..]);
      assert ToLE(n, |b|) == [b[0]] + b[1..];
    }
  }

  /** `struct.error` is what `pack`/`unpack` raise; every socket failure,
      a timeout included, is an IOError. */
  datatype CcError = IOError | StructError

  /** `send_cc_msg`'s buffer: the packed length, then the payload; a
      payload too long for "@I" raises struct.error. */
  function EncodeCcMsg(msg: seq<byte>): (r: Result<seq<byte>, CcError>)
    ensures r.Success? <==> |msg| < HdrLimit
    ensures r.Failure? ==> r.error == StructError
    ensures r.Success? ==> |r.value| == HdrSize + |msg| && r.value[HdrSize..] == msg
    ensures r.Success? ==> FromLE(r.value[..HdrSize]) == |msg|
  {
    if |msg| < HdrLimit then
      HdrRange();
      FromToLE(|msg|, HdrSize);
      var buf := ToLE(|msg|, HdrSize) + msg;
      assert buf[..HdrSize] == ToLE(|msg|, HdrSize);
      Success(buf)
    else Failure(StructError)
  }

  /** What one `recv` finds: some bytes (none means the peer closed), or
      nothing before the timeout. */
  datatype RecvEvent = Chunk(bytes: seq<byte>) | TimedOut

  /** The bytes a script delivers, in order. */
  function Flat(script: seq<RecvEvent>): seq<byte> {
    if script == [] then []
    else (if script[0].Chunk? then script[0].bytes else []) + Flat(script[1..])
  }

  /** A result and what is left of the script. */
  datatype RecvResult = RecvResult(result: Result<seq<byte>, CcError>, rest: seq<RecvEvent>)

  /** One `sock.recv(n)`: at most `n` of the waiting bytes, the others
      staying for the next call; a timeout, or a script that has run out,
      raises. */
  function RecvOnce(script: seq<RecvEvent>, n: nat): (r: RecvResult)
    requires n > 0
    ensures r.result.Success? ==> |r.result.value| <= n && r.result.value + Flat(r.rest) == Flat(script)
    ensures r.result.Success? ==> script != [] && (r.result.value == [] <==> script[0] == Chunk([]))
    ensures r.result.Failure? ==> r.result.error == IOError
    ensures |r.rest| <= |script|
  {
    if script == [] then RecvResult(Failure(IOError), [])
    else match script[0]
      case TimedOut => RecvResult(Failure(IOError), script[1..])
      case Chunk(b) =>
        if |b| <= n then RecvResult(Success(b), script[1..])
        else
          var rest := [Chunk(b[n..])] + script[1..];
          assert rest[1..] == script[1..];
          assert b == b[..n] + b[n..];
          ConcatAssoc(b[..n], b[n..], Flat(script[1..]));
          RecvResult(Success(b[..n]), rest)
  }

  /** `__recv` as written: every call asks for `dataLen` bytes, not for the
      `size` still missing, and the loop stops once at least `dataLen`
      have come; an empty read raises IOError.  The result holds at least
      what was asked for, and may hold up to `dataLen - 1` bytes more. */
  function ReceivedAsWritten(script: seq<RecvEvent>, dataLen: nat, size: int, acc: seq<byte>): (r: RecvResult)
    requires size <= dataLen
    decreases if size > 0 then size else 0
    ensures r.result.Success? ==> acc <= r.result.value && |acc| + size <= |r.result.value|
    ensures r.result.Success? && size > 0 ==> |r.result.value| < |acc| + size + dataLen
    ensures r.result.Success? ==> acc + Flat(script) == r.result.value + Flat(r.rest)
    ensures r.result.Failure? ==> r.result.error == IOError
  {
    if size <= 0 then RecvResult(Success(acc), script)
    else
      var once := RecvOnce(script, dataLen);
      if once.result.Failure? then once
      else if once.result.value == [] then RecvResult(Failure(IOError), once.rest)
      else
        var got := once.result.value;
        ConcatAssoc(acc, got, Flat(once.rest));
        ReceivedAsWritten(once.rest, dataLen, size - |got|, acc + got)
  }

  /** `__recv` with each call asking for the bytes still missing: the
      result is exactly `size` bytes beyond `acc`. */
  function ReceivedExact(script: seq<RecvEvent>, size: nat, acc: seq<byte>): (r: RecvResult)
    decreases size
    ensures r.result.Success? ==> |r.result.value| == |acc| + size
    ensures r.result.Success? ==> acc + Flat(script) == r.result.value + Flat(r.rest)
    ensures r.result.Failure? ==> r.result.error == IOError
  {
    if size == 0 then RecvResult(Success(acc), script)
    else
      var once := RecvOnce(script, size);
      if once.result.Failure? then once
      else if once.result.value == [] then RecvResult(Failure(IOError), once.rest)
      else
        var got := once.result.value;
        ConcatAssoc(acc, got, Flat(once.rest));
        ReceivedExact(once.rest, size - |got|, acc + got)
  }

  /** `recv_cc_msg` as written: the header read may bring back more than
      four bytes, and then `unpack` raises struct.error. */
  function MessageAsWritten(script: seq<RecvEvent>): (r: RecvResult)
    ensures r.result.Failure? ==> r.result.error == IOError || r.result.error == StructError
    ensures r.result.Success? ==>
      && HdrSize <= |Flat(script)|
      && FromLE(Flat(script)[..HdrSize]) <= |r.result.value|
      && Flat(script) == Flat(script)[..HdrSize] + r.result.value + Flat(r.rest)
  {
    var h := ReceivedAsWritten(script, HdrSize, HdrSize, []);
    if h.result.Failure? then h
    else if |h.result.value| != HdrSize then RecvResult(Failure(StructError), h.rest)
    else
      var hdr := h.result.value;
      var n := FromLE(hdr);
      var p := ReceivedAsWritten(h.rest, n, n, []);
      if p.result.Success? then
        assert Flat(script) == hdr + Flat(h.rest);
        assert Flat(h.rest) == p.result.value + Flat(p.rest);
        ConcatAssoc(hdr, p.result.value, Flat(p.rest));
        assert Flat(script)[..HdrSize] == hdr;
        p
      else p
  }

  /** `recv_cc_msg` over the exact reads: a payload comes back only when the
      stream began with its packed length and the payload itself. */
  function MessageExact(script: seq<RecvEvent>): (r: RecvResult)
    ensures r.result.Failure? ==> r.result.error == IOError
    ensures r.result.Success? ==> |r.result.value| < HdrLimit
    ensures r.result.Success? ==> Flat(script) == ToLE(|r.result.value|, HdrSize) + r.result.value + Flat(r.rest)
  {
    var h := ReceivedExact(script, HdrSize, []);
    if h.result.Failure? then h
    else
      var hdr := h.result.value;
      var n := FromLE(hdr);
      var p := ReceivedExact(h.rest, n, []);
      if p.result.Success? then
        FrameRegroup(script, hdr, h.rest, p.result.value, p.rest);
        p
      else p
  }

  lemma FrameRegroup(script: seq<RecvEvent>, hdr: seq<byte>, mid: seq<RecvEvent>, pay: seq<byte>, rest: seq<RecvEvent>)
    requires |hdr| == HdrSize && |pay| == FromLE(hdr)
    requires [] + Flat(script) == hdr + Flat(mid) && [] + Flat(mid) == pay + Flat(rest)
    ensures |pay| < HdrLimit
    ensures Flat(script) == ToLE(|pay|, HdrSize) + pay + Flat(rest)
  {
    var fs, fm, fr := Flat(script), Flat(mid), Flat(rest);
    assert [] + fs == fs && [] + fm == fm;
    HdrRange();
    ToFromLE(hdr);
    assert ToLE(|pay|, HdrSize) == hdr;
    ConcatAssoc(hdr, pay, fr);
  }

  /** Every event brings at least one byte: the peer neither closes nor
      stalls. */
  predicate Chunked(script: seq<RecvEvent>) {
    forall i | 0 <= i < |script| :: script[i].Chunk? && script[i].bytes != []
  }

  lemma {:induction false} FlatChunked(script: seq<RecvEvent>)
    requires Chunked(script) && script != []
    ensures |Flat(script)| >= |script[0].bytes| > 0
  {
  }

  /** The exact reads succeed on a peer that keeps sending, as long as
      enough bytes come; what is left still keeps sending. */
  lemma {:induction false} ReceivedExactSucceeds(script: seq<RecvEvent>, size: nat, acc: seq<byte>)
    requires Chunked(script) && size <= |Flat(script)|
    ensures ReceivedExact(script, size, acc).result.Success?
    ensures Chunked(ReceivedExact(script, size, acc).rest)
    decreases size
  {
    if size > 0 {
      FlatChunked(script);
      var once := RecvOnce(script, size);
      var b := script[0].bytes;
      if |b| > size {
        assert once.rest == [Chunk(b[size..])] + script[1..];
        assert forall i | 1 <= i < |once.rest| :: once.rest[i] == script[i];
      } else {
        assert once.rest == script[1..];
      }
      var got := once.result.value;
      assert got + Flat(once.rest) == Flat(script);
      ReceivedExactSucceeds(once.rest, size - |got|, acc + got);
    }
  }

  /** The round trip: whatever chunks the frame of `msg` arrives in, the
      exact receive gives `msg` back and leaves what followed the frame. */
  lemma CcRoundTrip(msg: seq<byte>, script: seq<RecvEvent>, tail: seq<byte>)
    requires EncodeCcMsg(msg).Success?
    requires Chunked(script) && Flat(script) == EncodeCcMsg(msg).value + tail
    ensures MessageExact(script).result == Success(msg)
    ensures Flat(MessageExact(script).rest) == tail
  {
    var frame := EncodeCcMsg(msg).value;
    ReceivedExactSucceeds(script, HdrSize, []);
    var h := ReceivedExact(script, HdrSize, []);
    assert Flat(script) == h.result.value + Flat(h.rest);
    assert frame == frame[..HdrSize] + msg;
    assert h.result.value == Flat(script)[..HdrSize] == frame[..HdrSize];
    ConcatAssoc(frame[..HdrSize], msg, tail);
    assert Flat(h.rest) == msg + tail;
    ReceivedExactSucceeds(h.rest, |msg|, []);
    var p := ReceivedExact(h.rest, |msg|, []);
    assert p.result.value + Flat(p.rest) == msg + tail;
    assert p.result.value == (msg + tail)[..|msg|] == msg;
  }

  /** A frame that arrives in one piece, header and payload together, is
      read back even by the code as written. */
  lemma WholeFrameAsWritten(msg: seq<byte>, more: seq<RecvEvent>)
    requires EncodeCcMsg(msg).Success?
    ensures MessageAsWritten([Chunk(EncodeCcMsg(msg).value)] + more).result == Success(msg)
  {
    var frame := EncodeCcMsg(msg).value;
    var rest := if msg == [] then more else [Chunk(msg)] + more;
    WholeHeaderAsWritten(frame, msg, more, rest);
    assert FromLE(frame[..HdrSize]) == |msg|;
    WholePayloadAsWritten(msg, more, rest);
  }

  /** The header read takes exactly the four header bytes of a frame that
      arrives whole. */
  lemma WholeHeaderAsWritten(frame: seq<byte>, msg: seq<byte>, more: seq<RecvEvent>, rest: seq<RecvEvent>)
    requires |frame| == HdrSize + |msg| && frame[HdrSize..] == msg
    requires rest == if msg == [] then more else [Chunk(msg)] + more
    ensures ReceivedAsWritten([Chunk(frame)] + more, HdrSize, HdrSize, []) == RecvResult(Success(frame[..HdrSize]), rest)
  {
    var hdr := frame[..HdrSize];
    var script := [Chunk(frame)] + more;
    assert script[0] == Chunk(frame) && script[1..] == more;
    if msg == [] {
      assert hdr == frame;
    }
    assert RecvOnce(script, HdrSize) == RecvResult(Success(hdr), rest);
    assert [] + hdr == hdr;
    assert ReceivedAsWritten(rest, HdrSize, 0, hdr) == RecvResult(Success(hdr), rest);
  }

  /** The payload read then takes the payload. */
  lemma WholePayloadAsWritten(msg: seq<byte>, more: seq<RecvEvent>, rest: seq<RecvEvent>)
    requires rest == if msg == [] then more else [Chunk(msg)] + more
    ensures ReceivedAsWritten(rest, |msg|, |msg|, []).result == Success(msg)
  {
    var n := |msg|;
    if msg != [] {
      assert rest[0] == Chunk(msg) && rest[1..] == more;
      assert RecvOnce(rest, n) == RecvResult(Success(msg), more);
      assert [] + msg == msg;
      assert ReceivedAsWritten(more, n, 0, msg) == RecvResult(Success(msg), more);
    }
  }

  lemma TwoPacked()
    ensures ToLE(2, HdrSize) == [2, 0, 0, 0]
  {
    assert ToLE(0, 1) == [0];
    assert ToLE(0, 2) == [0, 0];
    assert ToLE(0, 3) == [0, 0, 0];
    assert ToLE(2, 4) == [2] + ToLE(0, 3);
  }

  /** The header of a two-byte payload split after its second byte: the
      second `recv(4)` returns four bytes, six arrive in all, and unpacking
      them fails. */
  lemma SplitHeaderAsWritten()
    ensures EncodeCcMsg([7, 8]) == Success([2, 0, 0, 0, 7, 8])
    ensures Flat([Chunk([2, 0]), Chunk([0, 0, 7, 8])]) == [2, 0, 0, 0, 7, 8]
    ensures MessageAsWritten([Chunk([2, 0]), Chunk([0, 0, 7, 8])]).result == Failure(StructError)
  {
    var a: seq<byte> := [2, 0];
    var b: seq<byte> := [0, 0, 7, 8];
    var script := [Chunk(a), Chunk(b)];
    var tail := [Chunk(b)];
    var m: seq<byte> := [7, 8];
    TwoPacked();
    assert EncodeCcMsg(m) == Success([2, 0, 0, 0] + m);
    assert [2, 0, 0, 0] + m == [2, 0, 0, 0, 7, 8];
    assert script[0] == Chunk(a) && script[1..] == tail;
    assert tail[0] == Chunk(b) && tail[1..] == [];
    assert Flat(tail) == b + [] == b;
    assert Flat(script) == a + b == [2, 0, 0, 0, 7, 8];
    assert RecvOnce(script, HdrSize) == RecvResult(Success(a), tail);
    assert RecvOnce(tail, HdrSize) == RecvResult(Success(b), []);
    assert ReceivedAsWritten([], HdrSize, -2, a + b) == RecvResult(Success(a + b), []);
    assert ReceivedAsWritten(tail, HdrSize, 2, a) == RecvResult(Success(a + b), []);
    assert [] + a == a;
  }

  /** The same chunks through the exact reads give the payload back. */
  lemma SplitHeaderExact()
    ensures MessageExact([Chunk([2, 0]), Chunk([0, 0, 7, 8])]).result == Success([7, 8])
  {
    var script := [Chunk([2, 0]), Chunk([0, 0, 7, 8])];
    TwoPacked();
    assert script[1..] == [Chunk([0, 0, 7, 8])];
    assert Flat(script) == [2, 0, 0, 0, 7, 8] + [];
    CcRoundTrip([7, 8], script, []);
  }

  /** The client end of a command connection. */
  class CcSocket {
    /** What the backend will deliver, one `recv` at a time. */
    var pending: seq<RecvEvent>
    /** The bytes written to the connection. */
    var sent: seq<byte>
    /** Whether writing succeeds; a failed `send` raises IOError. */
    const sendOk: bool
    var closed: bool

    constructor(pending: seq<RecvEvent>, sendOk: bool)
      ensures this.pending == pending && this.sendOk == sendOk && sent == [] && !closed
    {
      this.pending := pending;
      this.sendOk := sendOk;
      sent := [];
      closed := false;
    }

    method Recv(n: nat) returns (r: Result<seq<byte>, CcError>)
      requires n > 0
      modifies this`pending
      ensures RecvResult(r, pending) == RecvOnce(old(pending), n)
    {
      var once := RecvOnce(pending, n);
      r := once.result;
      pending := once.rest;
    }

    /** One `send` of the whole buffer. */
    method Send(buf: seq<byte>) returns (r: Result<(), CcError>)
      modifies this`sent
      ensures sendOk ==> r.Success? && sent == old(sent) + buf
      ensures !sendOk ==> r == Failure(IOError) && sent == old(sent)
    {
      if !sendOk {
        return Failure(IOError);
      }
      sent := sent + buf;
      return Success(());
    }

    method Close()
      modifies this`closed
      ensures closed
    {
      closed := true;
    }
  }

  /** `send_cc_msg`: frames `msg` and writes the frame. */
  method SendCcMsg(sock: CcSocket, msg: seq<byte>) returns (r: Result<(), CcError>)
    modifies sock`sent
    ensures var enc := EncodeCcMsg(msg);
      && (enc.Failure? ==> r == Failure(StructError) && sock.sent == old(sock.sent))
      && (enc.Success? && sock.sendOk ==> r.Success? && sock.sent == old(sock.sent) + enc.value)
      && (enc.Success? && !sock.sendOk ==> r == Failure(IOError) && sock.sent == old(sock.sent))
  {
    var enc := EncodeCcMsg(msg);
    if enc.Failure? {
      return Failure(enc.error);
    }
    r := sock.Send(enc.value);
  }

  /** `__recv` as written, the loop asking for `dataLen` on every call. */
  method RecvAsWritten(sock: CcSocket, dataLen: nat) returns (r: Result<seq<byte>, CcError>)
    modifies sock`pending
    ensures RecvResult(r, sock.pending) == ReceivedAsWritten(old(sock.pending), dataLen, dataLen, [])
  {
    var buf: seq<byte> := [];
    var size: int := dataLen;
    while size > 0
      invariant size <= dataLen
      invariant ReceivedAsWritten(old(sock.pending), dataLen, dataLen, []) == ReceivedAsWritten(sock.pending, dataLen, size, buf)
      decreases size
    {
      var tmp := sock.Recv(dataLen);
      if tmp.Failure? {
        return tmp;
      }
      if tmp.value == [] {
        return Failure(IOError);
      }
      buf := buf + tmp.value;
      size := size - |tmp.value|;
    }
    return Success(buf);
  }

  /** `__recv` asking on each call for what is still missing. */
  method RecvExact(sock: CcSocket, dataLen: nat) returns (r: Result<seq<byte>, CcError>)
    modifies sock`pending
    ensures RecvResult(r, sock.pending) == ReceivedExact(old(sock.pending), dataLen, [])
  {
    var buf: seq<byte> := [];
    var size: nat := dataLen;
    while size > 0
      invariant ReceivedExact(old(sock.pending), dataLen, []) == ReceivedExact(sock.pending, size, buf)
      decreases size
    {
      var tmp := sock.Recv(size);
      if tmp.Failure? {
        return tmp;
      }
      if tmp.value == [] {
        return Failure(IOError);
      }
      buf := buf + tmp.value;
      size := size - |tmp.value|;
    }
    return Success(buf);
  }

  /** `recv_cc_msg` as written. */
  method RecvCcMsgAsWritten(sock: CcSocket) returns (r: Result<seq<byte>, CcError>)
    modifies sock`pending
    ensures RecvResult(r, sock.pending) == MessageAsWritten(old(sock.pending))
  {
    var hdr := RecvAsWritten(sock, HdrSize);
    if hdr.Failure? {
      return hdr;
    }
    if |hdr.value| != HdrSize {
      return Failure(StructError);
    }
    var payLen := FromLE(hdr.value);
    r := RecvAsWritten(sock, payLen);
  }

  /** `recv_cc_msg` over the exact reads. */
  method RecvCcMsg(sock: CcSocket) returns (r: Result<seq<byte>, CcError>)
    modifies sock`pending
    ensures RecvResult(r, sock.pending) == MessageExact(old(sock.pending))
  {
    var hdr := RecvExact(sock, HdrSize);
    if hdr.Failure? {
      return hdr;
    }
    var payLen := FromLE(hdr.value);
    r := RecvExact(sock, payLen);
  }

  /** Which step of a request failed. */
  datatype Stage = Connect | Send | Receive

  /** What `make_request` raises: a BackendConnectionError naming the step
      for any IOError, or the struct.error of an unframeable request, which
      no handler catches. */
  datatype RequestError = BackendConnectionError(stage: Stage) | Uncaught(error: CcError)

  /** `make_request`: connect (`connectOk` says whether the connection is
      made), send the framed request, read the framed reply within the
      timeout, close, and return the reply. */
  method MakeRequest(connectOk: bool, sock: CcSocket, msg: seq<byte>) returns (r: Result<seq<byte>, RequestError>)
    modifies sock`pending, sock`sent, sock`closed
    ensures !connectOk ==> r == Failure(BackendConnectionError(Connect))
    ensures connectOk && EncodeCcMsg(msg).Failure? ==> r == Failure(Uncaught(StructError))
    ensures connectOk && EncodeCcMsg(msg).Success? && !sock.sendOk ==> r == Failure(BackendConnectionError(Send))
    ensures connectOk && EncodeCcMsg(msg).Success? && sock.sendOk ==>
      var reply := MessageExact(old(sock.pending));
      && sock.sent == old(sock.sent) + EncodeCcMsg(msg).value
      && sock.pending == reply.rest
      && (reply.result.Failure? ==> r == Failure(BackendConnectionError(Receive)))
      && (reply.result.Success? ==> r == Success(reply.result.value))
    ensures sock.closed <==> old(sock.closed) || r.Success?
  {
    if !connectOk {
      return Failure(BackendConnectionError(Connect));
    }
    var sendRes := SendCcMsg(sock, msg);
    if sendRes.Failure? {
      if sendRes.error == IOError {
        return Failure(BackendConnectionError(Send));
      }
      return Failure(Uncaught(sendRes.error));
    }
    var ret := RecvCcMsg(sock);
    if ret.Failure? {
      return Failure(BackendConnectionError(Receive));
    }
    sock.Close();
    return Success(ret.value);
  }

  /** A backend that answers with the frame of `reply`, in any chunks, is
      heard: the request gets exactly `reply` back. */
  method RequestRoundTrip(sock: CcSocket, msg: seq<byte>, reply: seq<byte>) returns (r: Result<seq<byte>, RequestError>)
    requires EncodeCcMsg(msg).Success? && EncodeCcMsg(reply).Success? && sock.sendOk
    requires Chunked(sock.pending) && Flat(sock.pending) == EncodeCcMsg(reply).value
    modifies sock`pending, sock`sent, sock`closed
    ensures r == Success(reply) && sock.closed
  {
    CcRoundTrip(reply, sock.pending, []);
    r := MakeRequest(true, sock, msg);
  }
}
