/** The non-blocking reader of one client connection: it collects a
    fixed-length header, then as many payload bytes as the header announces,
    across as many readiness events as the socket needs, keeping whatever it
    has received in a partial-read buffer between calls. */
module ReaderSpec {
  import opened Common

  /** The errno values recv can raise that the reader tells apart, as Linux
      defines them. */
  const EINTR: int := 4
  const EAGAIN: int := 11
  const EWOULDBLOCK: int := 11

  /** What one recv call on the socket does next: deliver bytes (an empty
      string when the peer has closed) or raise a socket error. */
  datatype RecvOutcome = Data(bytes: seq<byte>) | Raise(errno: int)

  /** The reader's status codes (0, 100 and 101 in the source). */
  datatype Status = Succeeded | CloseConnection | TryAgainLater

  /** A decoded header; only the length of the payload matters here. */
  datatype Header = Header(payloadLen: nat)

  /** One complete message: header bytes and payload bytes. */
  datatype Frame = Frame(hdr: seq<byte>, payload: seq<byte>)

  /** The bytes a scripted socket has yet to deliver, errors skipped. */
  function Bytes(script: seq<RecvOutcome>): seq<byte> {
    if script == [] then []
    else (if script[0].Data? then script[0].bytes else []) + Bytes(script[1..])
  }

  // ---------------------------------------------------------------------------
  // One recv call and the _receive loop
  // ---------------------------------------------------------------------------

  datatype Recvd = Recvd(got: RecvOutcome, rest: seq<RecvOutcome>)

  /** `recv(size)` on a non-blocking socket: at most `size` bytes of the next
      chunk (the remainder stays queued), the next error, or EAGAIN when
      nothing has arrived. */
  function Recv(script: seq<RecvOutcome>, size: nat): (r: Recvd)
    requires size > 0
    ensures r.got.Data? ==> |r.got.bytes| <= size
    ensures Bytes(script) == (if r.got.Data? then r.got.bytes else []) + Bytes(r.rest)
    ensures script == [] ==> r == Recvd(Raise(EAGAIN), [])
    ensures script != [] && r.got.Raise? ==> r.rest == script[1..]
    ensures |r.rest| <= |script|
  {
    if script == [] then Recvd(Raise(EAGAIN), [])
    else match script[0]
      case Raise(e) => Recvd(Raise(e), script[1..])
      case Data(b) =>
        if |b| <= size then Recvd(Data(b), script[1..])
        else
          var rest := [Data(b[size..])] + script[1..];
          assert rest[1..] == script[1..];
          assert b == b[..size] + b[size..];
          Recvd(Data(b[..size]), rest)
  }

  datatype Received = Received(bytes: seq<byte>, status: Status, rest: seq<RecvOutcome>)

  /** The `while size > 0` loop of `_receive`, having collected `acc` so far:
      an empty read or a hard error closes the connection, EAGAIN/EWOULDBLOCK
      stops with "try again later", EINTR is retried, and data is appended
      with `size` lowered by its length. */
  function ReceiveFrom(script: seq<RecvOutcome>, size: int, acc: seq<byte>): (r: Received)
    ensures |acc| <= |r.bytes| && r.bytes[..|acc|] == acc
    ensures r.status == Succeeded <==> |r.bytes| == |acc| + (if size > 0 then size else 0)
    ensures |r.bytes| <= |acc| + (if size > 0 then size else 0)
    ensures acc + Bytes(script) == r.bytes + Bytes(r.rest)
    decreases if size > 0 then size else 0, |script|
  {
    if size <= 0 then Received(acc, Succeeded, script)
    else
      var s := Recv(script, size);
      match s.got
      case Data(b) =>
        if b == [] then Received(acc, CloseConnection, s.rest)
        else
          var r := ReceiveFrom(s.rest, size - |b|, acc + b);
          assert (acc + b)[..|acc|] == acc;
          ConcatAssoc(acc, b, Bytes(s.rest));
          r
      case Raise(e) =>
        if e == EAGAIN || e == EWOULDBLOCK then Received(acc, TryAgainLater, s.rest)
        else if e == EINTR then ReceiveFrom(s.rest, size, acc)
        else Received(acc, CloseConnection, s.rest)
  }

  /** What the next recv decides while bytes are still wanted: an empty
      socket or EAGAIN/EWOULDBLOCK stops with "try again later", an empty
      read (the peer closed) or any other error stops with "close the
      connection", EINTR is retried, and data is appended, at most `size`
      bytes of it. */
  lemma ReceiveRules(t: seq<RecvOutcome>, size: int, acc: seq<byte>, e: int, b: seq<byte>)
    requires size > 0
    ensures ReceiveFrom([], size, acc) == Received(acc, TryAgainLater, [])
    ensures e == EAGAIN || e == EWOULDBLOCK ==> ReceiveFrom([Raise(e)] + t, size, acc) == Received(acc, TryAgainLater, t)
    ensures ReceiveFrom([Data([])] + t, size, acc) == Received(acc, CloseConnection, t)
    ensures e != EINTR && e != EAGAIN && e != EWOULDBLOCK ==>
      ReceiveFrom([Raise(e)] + t, size, acc) == Received(acc, CloseConnection, t)
    ensures ReceiveFrom([Raise(EINTR)] + t, size, acc) == ReceiveFrom(t, size, acc)
    ensures 0 < |b| <= size ==> ReceiveFrom([Data(b)] + t, size, acc) == ReceiveFrom(t, size - |b|, acc + b)
    ensures |b| > size ==> ReceiveFrom([Data(b)] + t, size, acc) == Received(acc + b[..size], Succeeded, [Data(b[size..])] + t)
  {
    assert ([Raise(e)] + t)[1..] == t;
    assert ([Raise(EINTR)] + t)[1..] == t;
    assert ([Data([])] + t)[1..] == t;
    assert ([Data(b)] + t)[1..] == t;
  }

  /** Starting the loop with bytes already collected only puts them in
      front: the status and what is left on the socket are the same. */
  lemma {:induction false} ReceiveShift(script: seq<RecvOutcome>, size: int, a: seq<byte>, b: seq<byte>)
    ensures ReceiveFrom(script, size, a + b).bytes == a + ReceiveFrom(script, size, b).bytes
    ensures ReceiveFrom(script, size, a + b).status == ReceiveFrom(script, size, b).status
    ensures ReceiveFrom(script, size, a + b).rest == ReceiveFrom(script, size, b).rest
    decreases if size > 0 then size else 0, |script|
  {
    if size > 0 {
      var s := Recv(script, size);
      match s.got
      case Data(c) =>
        if c != [] {
          assert (a + b) + c == a + (b + c);
          ReceiveShift(s.rest, size - |c|, a, b + c);
        }
      case Raise(e) =>
        if e == EINTR && !(e == EAGAIN || e == EWOULDBLOCK) {
          ReceiveShift(s.rest, size, a, b);
        }
    }
  }

  // ---------------------------------------------------------------------------
  // get_message as a function of the reader's state
  // ---------------------------------------------------------------------------

  /** A complete message of the wire format: `H` header bytes followed by as
      many payload bytes as the header announces. */
  predicate IsFrame(H: nat, loads: seq<byte> -> nat, f: Frame) {
    |f.hdr| == H && |f.payload| == loads(f.hdr)
  }

  function FrameBytes(f: Frame): seq<byte> {
    f.hdr + f.payload
  }

  predicate AllFrames(H: nat, loads: seq<byte> -> nat, fs: seq<Frame>) {
    forall k | 0 <= k < |fs| :: IsFrame(H, loads, fs[k])
  }

  /** `buf` holds no complete message. */
  predicate Partial(H: nat, loads: seq<byte> -> nat, buf: seq<byte>) {
    |buf| < H || |buf| < H + loads(buf[..H])
  }

  /** The reader's invariant between calls: no header yet and fewer than `H`
      bytes, or a header decoded from the first `H` bytes and fewer bytes than
      it announces. */
  predicate ReaderOk(H: nat, loads: seq<byte> -> nat, buf: seq<byte>, header: Option<Header>) {
    && H > 0
    && (header.None? ==> |buf| < H)
    && (header.Some? ==> H <= |buf| < H + header.value.payloadLen && header.value == Header(loads(buf[..H])))
  }

  datatype ReaderState = ReaderState(sock: seq<RecvOutcome>, buf: seq<byte>, header: Option<Header>)

  datatype GetResult = GetResult(status: Status, frame: Option<Frame>, state: ReaderState)

  datatype Phase = Phase(status: Status, state: ReaderState)

  /** The header half of `get_message`: with no header yet, ask for the
      missing header bytes and decode the header once all are there. */
  function HeaderPhase(H: nat, loads: seq<byte> -> nat, s: ReaderState): (p: Phase)
    requires ReaderOk(H, loads, s.buf, s.header)
    ensures p.status == Succeeded ==> s.header.Some? ==> p.state == s
    ensures p.status == Succeeded ==> s.header.None? ==> |p.state.buf| == H
    ensures p.status == Succeeded ==> p.state.header.Some? && H <= |p.state.buf|
    ensures p.status == Succeeded ==> p.state.header.value == Header(loads(p.state.buf[..H]))
    ensures p.status == Succeeded ==> HeaderDone(H, loads, p.state)
    ensures p.status != Succeeded ==> p.state.header.None? && |p.state.buf| < H
    ensures s.buf + Bytes(s.sock) == p.state.buf + Bytes(p.state.sock)
    ensures |s.buf| <= |p.state.buf| && p.state.buf[..|s.buf|] == s.buf
  {
    if s.header.Some? then Phase(Succeeded, s)
    else
      var rc := ReceiveFrom(s.sock, H - |s.buf|, s.buf);
      if rc.status != Succeeded then Phase(rc.status, ReaderState(rc.rest, rc.bytes, None))
      else
        assert rc.bytes[..H] == rc.bytes;
        Phase(Succeeded, ReaderState(rc.rest, rc.bytes, Some(Header(loads(rc.bytes)))))
  }

  /** The state once the header is decoded: at least the header's bytes and
      at most the whole message. */
  predicate HeaderDone(H: nat, loads: seq<byte> -> nat, st: ReaderState) {
    && H > 0
    && st.header.Some?
    && H <= |st.buf| <= H + st.header.value.payloadLen
    && st.header.value == Header(loads(st.buf[..H]))
  }

  /** The payload half of `get_message`: ask for the missing payload bytes;
      once all are there, split the buffer into header and payload and
      reset it. */
  function PayloadPhase(H: nat, loads: seq<byte> -> nat, st: ReaderState): (r: GetResult)
    requires HeaderDone(H, loads, st)
    ensures ReaderOk(H, loads, r.state.buf, r.state.header)
    ensures r.status == Succeeded <==> r.frame.Some?
    ensures r.frame.Some? ==> IsFrame(H, loads, r.frame.value) && r.state.buf == [] && r.state.header == None
    ensures r.frame.None? ==> |st.buf| <= |r.state.buf| && r.state.buf[..|st.buf|] == st.buf && r.state.header == st.header
    ensures r.frame.None? ==> st.buf + Bytes(st.sock) == r.state.buf + Bytes(r.state.sock)
    ensures r.frame.Some? ==> st.buf + Bytes(st.sock) == FrameBytes(r.frame.value) + Bytes(r.state.sock)
  {
    var rc := ReceiveFrom(st.sock, st.header.value.payloadLen - (|st.buf| - H), st.buf);
    var buf := rc.bytes;
    assert buf[..H] == st.buf[..H];
    if rc.status != Succeeded then GetResult(rc.status, None, ReaderState(rc.rest, buf, st.header))
    else
      assert FrameBytes(Frame(buf[..H], buf[H..])) == buf;
      GetResult(Succeeded, Some(Frame(buf[..H], buf[H..])), ReaderState(rc.rest, [], None))
  }

  /** `get_message`: the status, the message when one is complete, and the
      reader's next state.  A message resets the buffer and the header; any
      other status leaves the bytes read so far in the buffer. */
  function ReadMessage(H: nat, loads: seq<byte> -> nat, s: ReaderState): (r: GetResult)
    requires ReaderOk(H, loads, s.buf, s.header)
    ensures ReaderOk(H, loads, r.state.buf, r.state.header)
    ensures r.status == Succeeded <==> r.frame.Some?
    ensures r.frame.Some? ==> IsFrame(H, loads, r.frame.value) && r.state.buf == [] && r.state.header == None
    ensures r.frame.None? ==> |s.buf| <= |r.state.buf| && r.state.buf[..|s.buf|] == s.buf
    ensures r.frame.None? && s.header.Some? ==> r.state.header == s.header
    ensures r.frame.None? ==> s.buf + Bytes(s.sock) == r.state.buf + Bytes(r.state.sock)
    ensures r.frame.Some? ==> s.buf + Bytes(s.sock) == FrameBytes(r.frame.value) + Bytes(r.state.sock)
  {
    var p := HeaderPhase(H, loads, s);
    if p.status != Succeeded then GetResult(p.status, None, p.state)
    else
      var r := PayloadPhase(H, loads, p.state);
      assert r.frame.None? ==> r.state.buf[..|s.buf|] == p.state.buf[..|s.buf|];
      r
  }

  /** The status `get_message` reports when the reader is still short of a
      message: the next recv decides it, whichever half of the message is
      missing, and the buffer and the header stay as they were. */
  lemma ReadMessageRules(H: nat, loads: seq<byte> -> nat, buf: seq<byte>, header: Option<Header>,
                         t: seq<RecvOutcome>, e: int)
    requires ReaderOk(H, loads, buf, header)
    ensures ReadMessage(H, loads, ReaderState([], buf, header)) == GetResult(TryAgainLater, None, ReaderState([], buf, header))
    ensures e == EAGAIN || e == EWOULDBLOCK ==>
      ReadMessage(H, loads, ReaderState([Raise(e)] + t, buf, header)) == GetResult(TryAgainLater, None, ReaderState(t, buf, header))
    ensures ReadMessage(H, loads, ReaderState([Data([])] + t, buf, header)) == GetResult(CloseConnection, None, ReaderState(t, buf, header))
    ensures e != EINTR && e != EAGAIN && e != EWOULDBLOCK ==>
      ReadMessage(H, loads, ReaderState([Raise(e)] + t, buf, header)) == GetResult(CloseConnection, None, ReaderState(t, buf, header))
    ensures ReadMessage(H, loads, ReaderState([Raise(EINTR)] + t, buf, header)) == ReadMessage(H, loads, ReaderState(t, buf, header))
  {
    var size := if header.None? then H - |buf| else header.value.payloadLen - (|buf| - H);
    ReceiveRules(t, size, buf, e, []);
    ReadMessageStops(H, loads, buf, header, [], size);
    ReadMessageStops(H, loads, buf, header, [Data([])] + t, size);
    if e != EINTR {
      ReadMessageStops(H, loads, buf, header, [Raise(e)] + t, size);
    }
    ReadMessageSame(H, loads, buf, header, [Raise(EINTR)] + t, t, size);
  }

  /** When the first receive of `get_message` stops short of its target, so
      does `get_message`, with the same status and the buffer unchanged. */
  lemma ReadMessageStops(H: nat, loads: seq<byte> -> nat, buf: seq<byte>, header: Option<Header>,
                         sk: seq<RecvOutcome>, size: int)
    requires ReaderOk(H, loads, buf, header)
    requires size == if header.None? then H - |buf| else header.value.payloadLen - (|buf| - H)
    requires ReceiveFrom(sk, size, buf).status != Succeeded && ReceiveFrom(sk, size, buf).bytes == buf
    ensures var rc := ReceiveFrom(sk, size, buf);
      ReadMessage(H, loads, ReaderState(sk, buf, header)) == GetResult(rc.status, None, ReaderState(rc.rest, buf, header))
  {
    var p := HeaderPhase(H, loads, ReaderState(sk, buf, header));
    if header.None? {
      assert p.status != Succeeded;
    }
  }

  /** Two socket scripts that the first receive of `get_message` cannot
      tell apart give the same `get_message`. */
  lemma ReadMessageSame(H: nat, loads: seq<byte> -> nat, buf: seq<byte>, header: Option<Header>,
                        sk: seq<RecvOutcome>, sk': seq<RecvOutcome>, size: int)
    requires ReaderOk(H, loads, buf, header)
    requires size == if header.None? then H - |buf| else header.value.payloadLen - (|buf| - H)
    requires ReceiveFrom(sk, size, buf) == ReceiveFrom(sk', size, buf)
    ensures ReadMessage(H, loads, ReaderState(sk, buf, header)) == ReadMessage(H, loads, ReaderState(sk', buf, header))
  {
    var p, p' := HeaderPhase(H, loads, ReaderState(sk, buf, header)), HeaderPhase(H, loads, ReaderState(sk', buf, header));
    if header.None? {
      assert p == p';
    } else {
      assert PayloadPhase(H, loads, p.state) == PayloadPhase(H, loads, p'.state);
    }
  }

  // ---------------------------------------------------------------------------
  // Framing is unique
  // ---------------------------------------------------------------------------

  /** The bytes of a sequence of messages, in order. */
  function Flatten(fs: seq<Frame>): seq<byte> {
    if fs == [] then [] else FrameBytes(fs[0]) + Flatten(fs[1..])
  }

  lemma {:induction false} FlattenSnoc(fs: seq<Frame>, f: Frame)
    ensures Flatten(fs + [f]) == Flatten(fs) + FrameBytes(f)
  {
    if fs != [] {
      assert (fs + [f])[1..] == fs[1..] + [f];
      FlattenSnoc(fs[1..], f);
    } else {
      assert Flatten([f]) == FrameBytes(f) + Flatten([]);
    }
  }

  /** Bytes that start with a complete message are not partial. */
  lemma CompleteFrameFirst(H: nat, loads: seq<byte> -> nat, m: seq<Frame>, r: seq<byte>)
    requires m != [] && AllFrames(H, loads, m)
    ensures !Partial(H, loads, Flatten(m) + r)
  {
    var f := m[0];
    assert IsFrame(H, loads, f);
    var whole := Flatten(m) + r;
    assert whole == f.hdr + (f.payload + Flatten(m[1..]) + r);
    assert whole[..H] == f.hdr;
  }

  /** A byte stream splits into complete messages followed by an incomplete
      rest in exactly one way: whatever the chunks the bytes arrived in, the
      messages read from them are the same. */
  lemma {:induction false} FramingUnique(H: nat, loads: seq<byte> -> nat,
                                         m1: seq<Frame>, r1: seq<byte>, m2: seq<Frame>, r2: seq<byte>)
    requires H > 0
    requires AllFrames(H, loads, m1) && AllFrames(H, loads, m2)
    requires Partial(H, loads, r1) && Partial(H, loads, r2)
    requires Flatten(m1) + r1 == Flatten(m2) + r2
    ensures m1 == m2 && r1 == r2
  {
    if m1 == [] && m2 == [] {
      assert Flatten(m1) + r1 == r1 && Flatten(m2) + r2 == r2;
    } else if m1 == [] {
      assert Flatten(m1) + r1 == r1;
      CompleteFrameFirst(H, loads, m2, r2);
    } else if m2 == [] {
      assert Flatten(m2) + r2 == r2;
      CompleteFrameFirst(H, loads, m1, r1);
    } else {
      FirstFrameSame(H, loads, m1[0], m1[1..], r1, m2[0], m2[1..], r2, Flatten(m1) + r1);
      FramingUnique(H, loads, m1[1..], r1, m2[1..], r2);
      assert m1 == [m1[0]] + m1[1..];
      assert m2 == [m2[0]] + m2[1..];
    }
  }

  /** Two streams of messages that give the same bytes start with the same
      message and agree on what follows it. */
  lemma FirstFrameSame(H: nat, loads: seq<byte> -> nat, f1: Frame, t1: seq<Frame>, r1: seq<byte>,
                       f2: Frame, t2: seq<Frame>, r2: seq<byte>, s: seq<byte>)
    requires IsFrame(H, loads, f1) && IsFrame(H, loads, f2)
    requires s == Flatten([f1] + t1) + r1 && s == Flatten([f2] + t2) + r2
    ensures f1 == f2 && Flatten(t1) + r1 == Flatten(t2) + r2
  {
    FlattenCons(f1, t1);
    FlattenCons(f2, t2);
    Parts4(f1.hdr, f1.payload, Flatten(t1), r1, s);
    Parts4(f2.hdr, f2.payload, Flatten(t2), r2, s);
    assert f1.hdr == s[..H] == f2.hdr;
    var n := H + loads(f1.hdr);
    assert f1.payload == s[H..n] == f2.payload;
  }

  lemma FlattenCons(f: Frame, t: seq<Frame>)
    ensures Flatten([f] + t) == (f.hdr + f.payload) + Flatten(t)
  {
    assert ([f] + t)[1..] == t;
  }

  /** The slices of a concatenation of four pieces at the first two seams. */
  lemma Parts4(a: seq<byte>, b: seq<byte>, c: seq<byte>, d: seq<byte>, s: seq<byte>)
    requires s == ((a + b) + c) + d
    ensures s[..|a|] == a && s[|a|..|a| + |b|] == b && s[|a| + |b|..] == c + d
  {
  }

  /** Reading a message keeps the connection's bytes accounted for: the
      messages handed out, then the buffer, then what the socket still holds
      are always the whole byte stream of the connection. */
  lemma ReadKeepsStream(H: nat, loads: seq<byte> -> nat, d: seq<Frame>, s: ReaderState, stream: seq<byte>)
    requires ReaderOk(H, loads, s.buf, s.header) && AllFrames(H, loads, d)
    requires Flatten(d) + (s.buf + Bytes(s.sock)) == stream
    ensures var r := ReadMessage(H, loads, s);
      r.frame.None? ==> Flatten(d) + (r.state.buf + Bytes(r.state.sock)) == stream
    ensures var r := ReadMessage(H, loads, s);
      r.frame.Some? ==> (AllFrames(H, loads, d + [r.frame.value])
        && Flatten(d + [r.frame.value]) + (r.state.buf + Bytes(r.state.sock)) == stream)
  {
    var r := ReadMessage(H, loads, s);
    if r.frame.Some? {
      var f := r.frame.value;
      FlattenSnoc(d, f);
      assert [] + Bytes(r.state.sock) == Bytes(r.state.sock);
      ConcatAssoc(Flatten(d), FrameBytes(f), Bytes(r.state.sock));
    }
  }
}

/** The reader object itself, proved against the functions above. */
module SockRead {
  import opened Common
  import opened ReaderSpec

  /** A connection's reader.  Its descriptor number and the peer's pid stand
      for the socket object it wraps; the socket's queued input is `sock`. */
  class SockReader {
    const fd: int
    const pid: int
    /** The fixed header length and the header decoder's payload length. */
    const hdrLen: nat
    const payloadLenOf: seq<byte> -> nat
    var sock: seq<RecvOutcome>
    var buf: seq<byte>
    var header: Option<Header>
    var closed: bool
    /** Every byte the peer sends over the connection, and every message
        handed out so far. */
    ghost const stream: seq<byte>
    ghost var delivered: seq<Frame>

    ghost predicate Valid()
      reads this`sock, this`buf, this`header, this`delivered
    {
      && ReaderOk(hdrLen, payloadLenOf, buf, header)
      && AllFrames(hdrLen, payloadLenOf, delivered)
      && Flatten(delivered) + (buf + Bytes(sock)) == stream
    }

    /** The bytes taken from the socket so far. */
    ghost function Taken(): seq<byte>
      reads this
    {
      Flatten(delivered) + buf
    }

    function State(): ReaderState
      reads this`sock, this`buf, this`header
    {
      ReaderState(sock, buf, header)
    }

    constructor(fd: int, pid: int, hdrLen: nat, payloadLenOf: seq<byte> -> nat, sock: seq<RecvOutcome>)
      requires hdrLen > 0
      ensures Valid()
      ensures this.fd == fd && this.pid == pid && this.hdrLen == hdrLen && this.payloadLenOf == payloadLenOf
      ensures this.sock == sock && buf == [] && header == None && !closed
      ensures stream == Bytes(sock) && delivered == []
    {
      this.fd := fd;
      this.pid := pid;
      this.hdrLen := hdrLen;
      this.payloadLenOf := payloadLenOf;
      this.sock := sock;
      buf := [];
      header := None;
      closed := false;
      stream := Bytes(sock);
      delivered := [];
    }

    /** `_receive`: up to `size` bytes from the socket and the status the
        loop stopped with. */
    method Receive(size: int) returns (data: seq<byte>, status: Status)
      modifies this`sock
      ensures Received(data, status, sock) == ReceiveFrom(old(sock), size, [])
    {
      ghost var sock0 := sock;
      data := [];
      status := Succeeded;
      var remaining := size;
      while remaining > 0
        invariant ReceiveFrom(sock0, size, []) == ReceiveFrom(sock, remaining, data)
        decreases if remaining > 0 then remaining else 0, |sock|
      {
        var s := Recv(sock, remaining);
        sock := s.rest;
        match s.got
        case Data(b) =>
          if b == [] {
            status := CloseConnection;
            break;
          }
          data := data + b;
          remaining := remaining - |b|;
        case Raise(e) =>
          if e == EAGAIN || e == EWOULDBLOCK {
            status := TryAgainLater;
          } else if e == EINTR {
            continue;
          } else {
            status := CloseConnection;
          }
          break;
      }
    }

    /** `_fill_buffer`: receives and appends whatever arrived to the buffer. */
    method FillBuffer(remaining: int) returns (status: Status)
      modifies this`sock, this`buf
      ensures var rc := ReceiveFrom(old(sock), remaining, old(buf));
        status == rc.status && sock == rc.rest && buf == rc.bytes
    {
      ghost var sock0, buf0 := sock, buf;
      var data;
      data, status := Receive(remaining);
      buf := buf + data;
      ReceiveShift(sock0, remaining, buf0, []);
      assert buf0 + [] == buf0;
    }

    /** The first half of `get_message`: with no header yet, fills the
        buffer up to the header length and decodes the header. */
    method ReadHeader() returns (status: Status)
      requires ReaderOk(hdrLen, payloadLenOf, buf, header)
      modifies this`sock, this`buf, this`header
      ensures Phase(status, State()) == HeaderPhase(hdrLen, payloadLenOf, old(State()))
    {
      status := Succeeded;
      if header.None? {
        status := FillBuffer(hdrLen - |buf|);
        if status != Succeeded {
          return;
        }
        if |buf| == hdrLen {
          header := Some(Header(payloadLenOf(buf)));
        }
      }
    }

    /** `get_message`, proved against its specification function; every
        byte taken from the socket is either handed out in the message or
        kept in the buffer. */
    method GetMessage() returns (status: Status, frame: Option<Frame>)
      requires Valid()
      modifies this`sock, this`buf, this`header, this`delivered
      ensures Valid()
      ensures GetResult(status, frame, State()) == ReadMessage(hdrLen, payloadLenOf, old(State()))
      ensures frame.None? ==> delivered == old(delivered)
      ensures frame.Some? ==> delivered == old(delivered) + [frame.value]
    {
      ghost var s0 := State();
      ReadKeepsStream(hdrLen, payloadLenOf, delivered, s0, stream);
      var st := ReadHeader();
      if st != Succeeded {
        return st, None;
      }
      status, frame := ReadPayload();
      if frame.Some? {
        delivered := delivered + [frame.value];
      }
    }

    /** The second half of `get_message`: fills the buffer up to the length
        the header announces, then hands out header and payload and resets
        the buffer and the header. */
    method ReadPayload() returns (status: Status, frame: Option<Frame>)
      requires HeaderDone(hdrLen, payloadLenOf, State())
      modifies this`sock, this`buf, this`header
      ensures GetResult(status, frame, State()) == PayloadPhase(hdrLen, payloadLenOf, old(State()))
    {
      status := FillBuffer(header.value.payloadLen - (|buf| - hdrLen));
      if status != Succeeded {
        return status, None;
      }
      var hdrBuf := buf[..hdrLen];
      var payBuf := buf[hdrLen..];
      buf := [];
      header := None;
      return Succeeded, Some(Frame(hdrBuf, payBuf));
    }

    /** `close`: closes the underlying socket. */
    method Close()
      modifies this`closed
      ensures closed
    {
      closed := true;
    }
  }

  /** Two readers that have taken the same bytes from their sockets have
      handed out the same messages and hold the same partial message, however
      differently those bytes were split into reads. */
  lemma SameBytesSameMessages(a: SockReader, b: SockReader)
    requires a.Valid() && b.Valid()
    requires a.hdrLen == b.hdrLen && a.payloadLenOf == b.payloadLenOf
    requires a.Taken() == b.Taken()
    ensures a.delivered == b.delivered && a.buf == b.buf
  {
    FramingUnique(a.hdrLen, a.payloadLenOf, a.delivered, a.buf, b.delivered, b.buf);
  }
}
