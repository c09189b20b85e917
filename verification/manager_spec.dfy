/** The connection manager and the producer's command handling as functions
    of an abstract state: each open descriptor's owner and reader state, the
    per-pid descriptor lists, and the next descriptor number. */
module ManagerSpec {
  import opened Common
  import opened PosixArgs
  import opened ReaderSpec
  import opened ConnIndex

  /** What the manager hands on: a client's message, or the disconnect
      message of a pid whose last connection closed (its tid is the pid). */
  datatype Outgoing = Message(frame: Frame) | Disconnect(pid: int, fd: int)

  /** Every message among `out` is one whole frame of the stream format. */
  ghost predicate FramesOnly(H: nat, loads: seq<byte> -> nat, out: seq<Outgoing>) {
    forall k | 0 <= k < |out| :: out[k].Message? ==> IsFrame(H, loads, out[k].frame)
  }

  /** One readiness event: the listening socket has a client to accept (the
      client's pid and what it will send), or a client descriptor is
      readable and/or hung up. */
  datatype PollEvent =
    | NewConnection(pid: int, script: seq<RecvOutcome>)
    | ClientEvent(fd: int, pollIn: bool, hangUp: bool)

  /** One open connection: the peer's pid and its reader's state. */
  datatype Conn = Conn(pid: int, state: ReaderState)

  datatype Mgr = Mgr(conns: map<int, Conn>, pidMap: map<int, seq<int>>, nextFd: int)

  /** What a manager operation gives back, and the state it leaves. */
  datatype Outcome = Outcome(result: Result<seq<Outgoing>, PyError>, mgr: Mgr)

  /** Every reader keeps its own invariant. */
  ghost predicate ConnsOk(H: nat, loads: seq<byte> -> nat, conns: map<int, Conn>) {
    forall fd | fd in conns :: ReaderOk(H, loads, conns[fd].state.buf, conns[fd].state.header)
  }

  function Owners(m: Mgr): map<int, int> {
    map fd | fd in m.conns :: m.conns[fd].pid
  }

  /** The index invariant: the per-pid lists agree with the owners, and
      every open descriptor is below the next number. */
  ghost predicate IndexOk(m: Mgr) {
    && PidIndexOk(Owners(m), m.pidMap)
    && (forall fd | fd in m.conns :: fd < m.nextFd)
  }

  /** `_handle_new_connection`: the client gets the next descriptor number
      and an empty reader, and the descriptor is appended to its pid's list. */
  function Accept(m: Mgr, pid: int, script: seq<RecvOutcome>): (r: Mgr)
    ensures r.conns.Keys == m.conns.Keys + {m.nextFd} && r.nextFd == m.nextFd + 1
    ensures r.conns[m.nextFd] == Conn(pid, ReaderState(script, [], None))
    ensures forall fd | fd in m.conns && fd != m.nextFd :: r.conns[fd] == m.conns[fd]
  {
    Mgr(m.conns[m.nextFd := Conn(pid, ReaderState(script, [], None))], PidAdd(m.pidMap, pid, m.nextFd), m.nextFd + 1)
  }

  /** `_handle_close_connection` of `fd`, whose peer is `pid`: the
      descriptor is forgotten if it is open, removed from the pid's list if
      the pid has one (`list.remove` raises ValueError when it is not
      listed), and the pid's entry and one disconnect message go when the
      list empties. */
  function Hangup(m: Mgr, fd: int, pid: int, out: seq<Outgoing>): (r: Outcome)
    ensures r.mgr.conns == m.conns - {fd} && r.mgr.nextFd == m.nextFd
    ensures r.result.Failure? <==> pid in m.pidMap && fd !in m.pidMap[pid]
    ensures r.result.Failure? ==> r.result.error == ValueError
    ensures r.result.Success? ==> r.result.value == out + (if ClosesLast(m.pidMap, pid, fd) then [Disconnect(pid, fd)] else [])
    ensures r.result.Success? ==> r.mgr.pidMap == PidRemove(m.pidMap, pid, fd)
  {
    var conns := m.conns - {fd};
    if pid !in m.pidMap then Outcome(Success(out), m.(conns := conns))
    else if fd !in m.pidMap[pid] then Outcome(Failure(ValueError), m.(conns := conns))
    else
      var rest := RemoveFirst(m.pidMap[pid], fd);
      if rest == [] then
        assert m.pidMap[pid] == [fd] by { assert |m.pidMap[pid]| == 1 && m.pidMap[pid][0] == fd; }
        Outcome(Success(out + [Disconnect(pid, fd)]), Mgr(conns, m.pidMap - {pid}, m.nextFd))
      else
        assert m.pidMap[pid] != [fd];
        Outcome(Success(out), Mgr(conns, m.pidMap[pid := rest], m.nextFd))
  }

  /** `_handle_client` of an open descriptor: its reader takes one
      `get_message` step; a message is appended, a closed connection goes
      through `Hangup`, and "try again later" adds nothing. */
  function Serve(H: nat, loads: seq<byte> -> nat, m: Mgr, fd: int, out: seq<Outgoing>): (r: Outcome)
    requires fd in m.conns && ConnsOk(H, loads, m.conns)
    ensures ConnsOk(H, loads, r.mgr.conns) && r.mgr.nextFd == m.nextFd
    ensures r.mgr.conns.Keys <= m.conns.Keys && m.conns.Keys - {fd} <= r.mgr.conns.Keys
    ensures FramesOnly(H, loads, out) && r.result.Success? ==> FramesOnly(H, loads, r.result.value)
  {
    var c := m.conns[fd];
    var g := ReadMessage(H, loads, c.state);
    var m1 := m.(conns := m.conns[fd := Conn(c.pid, g.state)]);
    match g.status
    case Succeeded =>
      var out' := out + [Message(g.frame.value)];
      assert forall k | 0 <= k < |out| :: out'[k] == out[k];
      Outcome(Success(out'), m1)
    case CloseConnection => Hangup(m1, fd, c.pid, out)
    case TryAgainLater => Outcome(Success(out), m1)
  }

  /** The body of the `do_poll` loop for one event, with `out` collected so
      far: the listening socket accepts, a readable client is served (even
      when it has also hung up), a hung-up one is closed, and an event for a
      descriptor that is not open raises KeyError. */
  function Step(H: nat, loads: seq<byte> -> nat, m: Mgr, ev: PollEvent, out: seq<Outgoing>): (r: Outcome)
    requires H > 0 && ConnsOk(H, loads, m.conns)
    ensures ConnsOk(H, loads, r.mgr.conns)
  {
    match ev
    case NewConnection(pid, script) =>
      var m' := Accept(m, pid, script);
      assert ConnsOk(H, loads, m'.conns);
      Outcome(Success(out), m')
    case ClientEvent(fd, pollIn, hangUp) =>
      if !pollIn && !hangUp then Outcome(Success(out), m)
      else if fd !in m.conns then Outcome(Failure(KeyError), m)
      else if pollIn then Serve(H, loads, m, fd, out)
      else Hangup(m, fd, m.conns[fd].pid, out)
  }

  /** The loop of `do_poll` over the events still to handle: each event's
      step in turn, and an exception ends the loop with what was done so
      far. */
  function PollFrom(H: nat, loads: seq<byte> -> nat, m: Mgr, evs: seq<PollEvent>, out: seq<Outgoing>): (r: Outcome)
    requires H > 0 && ConnsOk(H, loads, m.conns)
    ensures ConnsOk(H, loads, r.mgr.conns)
    decreases |evs|
  {
    if evs == [] then Outcome(Success(out), m)
    else
      var s := Step(H, loads, m, evs[0], out);
      if s.result.Failure? then s else PollFrom(H, loads, s.mgr, evs[1..], s.result.value)
  }

  /** `do_poll`: a failed or timed-out poll (`None`) or no events gives an
      empty list and changes nothing. */
  function Poll(H: nat, loads: seq<byte> -> nat, m: Mgr, events: Option<seq<PollEvent>>): (r: Outcome)
    requires H > 0 && ConnsOk(H, loads, m.conns)
    ensures ConnsOk(H, loads, r.mgr.conns)
    ensures events.None? || events == Some([]) ==> r == Outcome(Success([]), m)
  {
    if events.None? then Outcome(Success([]), m) else PollFrom(H, loads, m, events.value, [])
  }

  /** One step on a consistent index keeps it, hands on only whole frames
      besides disconnect messages, and raises only KeyError. */
  lemma StepKeeps(H: nat, loads: seq<byte> -> nat, m: Mgr, ev: PollEvent, out: seq<Outgoing>)
    requires H > 0 && ConnsOk(H, loads, m.conns) && IndexOk(m) && FramesOnly(H, loads, out)
    ensures var r := Step(H, loads, m, ev, out);
      && (r.result.Success? ==> FramesOnly(H, loads, r.result.value))
      && (r.result.Failure? <==> ev.ClientEvent? && (ev.pollIn || ev.hangUp) && ev.fd !in m.conns)
      && (r.result.Failure? ==> r.result.error == KeyError)
      && IndexOk(r.mgr)
  {
    match ev
    case NewConnection(pid, script) =>
      AcceptKeepsIndex(m, pid, script);
    case ClientEvent(fd, pollIn, hangUp) =>
      if fd in m.conns {
        if pollIn {
          ServeKeepsIndex(H, loads, m, fd, out);
        } else if hangUp {
          HangupKeepsIndex(m, fd, out);
        }
      }
  }

  /** The messages a poll hands on are whole frames, and its only error is
      KeyError. */
  lemma {:induction false} PollFromFrames(H: nat, loads: seq<byte> -> nat, m: Mgr, evs: seq<PollEvent>, out: seq<Outgoing>)
    requires H > 0 && ConnsOk(H, loads, m.conns) && IndexOk(m) && FramesOnly(H, loads, out)
    ensures var r := PollFrom(H, loads, m, evs, out);
      && (r.result.Success? ==> FramesOnly(H, loads, r.result.value))
      && (r.result.Failure? ==> r.result.error == KeyError)
      && IndexOk(r.mgr)
    decreases |evs|
  {
    if evs != [] {
      var s := Step(H, loads, m, evs[0], out);
      StepKeeps(H, loads, m, evs[0], out);
      if s.result.Success? {
        PollFromFrames(H, loads, s.mgr, evs[1..], s.result.value);
      }
    }
  }

  /** One event only appends to the messages collected so far; only a new
      connection advances the descriptor counter, by one; and KeyError
      leaves the manager as it was. */
  lemma StepExtends(H: nat, loads: seq<byte> -> nat, m: Mgr, ev: PollEvent, out: seq<Outgoing>)
    requires H > 0 && ConnsOk(H, loads, m.conns)
    ensures var r := Step(H, loads, m, ev, out);
      && (r.result.Success? ==> out <= r.result.value)
      && r.mgr.nextFd == m.nextFd + (if ev.NewConnection? then 1 else 0)
      && (r.result.Failure? && r.result.error == KeyError ==> r.mgr == m)
  {
    if ev.ClientEvent? && ev.pollIn && ev.fd in m.conns {
      var g := ReadMessage(H, loads, m.conns[ev.fd].state);
      if g.status == Succeeded {
        assert out <= out + [Message(g.frame.value)];
      }
    }
  }

  /** The `do_poll` loop only appends to the messages collected so far and
      never lowers the descriptor counter. */
  lemma {:induction false} PollFromExtends(H: nat, loads: seq<byte> -> nat, m: Mgr, evs: seq<PollEvent>, out: seq<Outgoing>)
    requires H > 0 && ConnsOk(H, loads, m.conns)
    ensures var r := PollFrom(H, loads, m, evs, out);
      && (r.result.Success? ==> out <= r.result.value)
      && r.mgr.nextFd >= m.nextFd
    decreases |evs|
  {
    if evs != [] {
      var s := Step(H, loads, m, evs[0], out);
      StepExtends(H, loads, m, evs[0], out);
      if s.result.Success? {
        PollFromExtends(H, loads, s.mgr, evs[1..], s.result.value);
      }
    }
  }

  lemma AcceptKeepsIndex(m: Mgr, pid: int, script: seq<RecvOutcome>)
    requires IndexOk(m)
    ensures IndexOk(Accept(m, pid, script))
  {
    ConnectKeeps(Owners(m), m.pidMap, m.nextFd, pid);
    assert Owners(Accept(m, pid, script)) == Owners(m)[m.nextFd := pid];
  }

  /** Closing an open descriptor through its owner never raises, and keeps
      the index. */
  lemma HangupKeepsIndex(m: Mgr, fd: int, out: seq<Outgoing>)
    requires IndexOk(m) && fd in m.conns
    ensures Hangup(m, fd, m.conns[fd].pid, out).result.Success?
    ensures IndexOk(Hangup(m, fd, m.conns[fd].pid, out).mgr)
  {
    var pid := m.conns[fd].pid;
    assert Owners(m)[fd] == pid;
    CloseKeeps(Owners(m), m.pidMap, fd);
    var r := Hangup(m, fd, pid, out);
    assert Owners(r.mgr) == Owners(m) - {fd};
    assert r.mgr.pidMap == PidRemove(m.pidMap, pid, fd);
  }

  lemma ServeKeepsIndex(H: nat, loads: seq<byte> -> nat, m: Mgr, fd: int, out: seq<Outgoing>)
    requires IndexOk(m) && fd in m.conns && ConnsOk(H, loads, m.conns)
    ensures Serve(H, loads, m, fd, out).result.Success?
    ensures IndexOk(Serve(H, loads, m, fd, out).mgr)
  {
    var c := m.conns[fd];
    var g := ReadMessage(H, loads, c.state);
    var m1 := m.(conns := m.conns[fd := Conn(c.pid, g.state)]);
    assert Owners(m1) == Owners(m);
    if g.status == CloseConnection {
      HangupKeepsIndex(m1, fd, out);
    }
  }

  /** The `detach` loop: `_handle_close_connection` of each of the pid's
      descriptors in turn, on a copy of its list. */
  function DetachFrom(m: Mgr, pid: int, fds: seq<int>, out: seq<Outgoing>): (r: Outcome)
    decreases |fds|
  {
    if fds == [] then Outcome(Success(out), m)
    else
      var s := Hangup(m, fds[0], pid, out);
      if s.result.Failure? then s else DetachFrom(s.mgr, pid, fds[1..], s.result.value)
  }

  /** Whatever the index, the `detach` loop only closes descriptors: no
      other connection changes, the next descriptor stays, the messages so
      far are kept, and when no step raises every listed descriptor is
      gone. */
  lemma {:induction false} DetachFromKeeps(m: Mgr, pid: int, fds: seq<int>, out: seq<Outgoing>)
    ensures var r := DetachFrom(m, pid, fds, out);
      && r.mgr.nextFd == m.nextFd
      && r.mgr.conns.Keys <= m.conns.Keys
      && (forall fd | fd in r.mgr.conns :: r.mgr.conns[fd] == m.conns[fd])
      && (r.result.Success? ==> out <= r.result.value)
      && (r.result.Success? ==> forall fd | fd in fds :: fd !in r.mgr.conns)
    decreases |fds|
  {
    if fds != [] {
      var s := Hangup(m, fds[0], pid, out);
      if s.result.Success? {
        DetachFromKeeps(s.mgr, pid, fds[1..], s.result.value);
        assert forall fd | fd in fds :: fd == fds[0] || fd in fds[1..];
      }
    }
  }

  /** One step of the `detach` loop. */
  lemma DetachFromStep(m: Mgr, pid: int, fd: int, rest: seq<int>, out: seq<Outgoing>, s: Outcome)
    requires s == Hangup(m, fd, pid, out) && s.result.Success?
    ensures DetachFrom(m, pid, [fd] + rest, out) == DetachFrom(s.mgr, pid, rest, s.result.value)
  {
    assert ([fd] + rest)[1..] == rest;
  }

  /** `detach`: an unknown pid gives no count and nothing else; a connected
      one has each of its descriptors closed and the count comes back. */
  function Detached(m: Mgr, pid: int): (r: (Option<nat>, Outcome))
    ensures r.0.None? <==> pid !in m.pidMap
    ensures r.0.None? ==> r.1 == Outcome(Success([]), m)
    ensures r.0.Some? ==> r.0.value == |m.pidMap[pid]|
    ensures r.1.mgr.nextFd == m.nextFd && r.1.mgr.conns.Keys <= m.conns.Keys
  {
    if pid !in m.pidMap then (None, Outcome(Success([]), m))
    else
      DetachFromKeeps(m, pid, m.pidMap[pid], []);
      (Some(|m.pidMap[pid]|), DetachFrom(m, pid, m.pidMap[pid], []))
  }

  /** On a consistent index, detaching a connected pid closes exactly its
      descriptors, drops its entry, touches no other pid or reader, and
      hands on one disconnect message, for its last descriptor. */
  lemma DetachedClosesAll(m: Mgr, pid: int)
    requires IndexOk(m) && pid in m.pidMap
    ensures var fds := m.pidMap[pid];
      var r := Detached(m, pid).1;
      && fds != []
      && r.result == Success([Disconnect(pid, fds[|fds| - 1])])
      && r.mgr.pidMap == m.pidMap - {pid}
      && r.mgr.conns == (map fd | fd in m.conns && fd !in fds :: m.conns[fd])
      && r.mgr.nextFd == m.nextFd
      && IndexOk(r.mgr)
  {
    var fds := m.pidMap[pid];
    DetachFromSteps(m, pid, fds, []);
    assert Detached(m, pid).1 == DetachFrom(m, pid, fds, []);
    assert [] + [Disconnect(pid, fds[|fds| - 1])] == [Disconnect(pid, fds[|fds| - 1])];
  }

  /** While the pid's list is exactly the descriptors still to close,
      closing them one by one never raises and ends with the pid gone. */
  lemma {:induction false} DetachFromSteps(m: Mgr, pid: int, fds: seq<int>, out: seq<Outgoing>)
    requires IndexOk(m) && pid in m.pidMap && m.pidMap[pid] == fds
    ensures fds != []
    ensures var r := DetachFrom(m, pid, fds, out);
      && r.result == Success(out + [Disconnect(pid, fds[|fds| - 1])])
      && r.mgr.pidMap == m.pidMap - {pid}
      && r.mgr.conns == (map fd | fd in m.conns && fd !in fds :: m.conns[fd])
      && r.mgr.nextFd == m.nextFd
      && IndexOk(r.mgr)
    decreases |fds|
  {
    var fd := fds[0];
    assert fd in m.pidMap[pid];
    assert fd in Owners(m) && Owners(m)[fd] == pid;
    HangupKeepsIndex(m, fd, out);
    var s := Hangup(m, fd, pid, out);
    assert fds == [fd] + fds[1..];
    assert RemoveFirst(fds, fd) == fds[1..];
    if fds[1..] == [] {
      assert fds == [fd];
      assert DetachFrom(s.mgr, pid, [], s.result.value) == s;
      assert s.mgr.conns == (map g | g in m.conns && g !in fds :: m.conns[g]);
    } else {
      assert s.mgr.pidMap == m.pidMap[pid := fds[1..]];
      DetachFromSteps(s.mgr, pid, fds[1..], out);
      assert s.result.value == out;
      assert fds[1..][|fds[1..]| - 1] == fds[|fds| - 1];
      assert s.mgr.pidMap - {pid} == m.pidMap - {pid};
      RestrictStep(m.conns, fd, fds[1..], fds);
    }
  }

  /** Dropping `fd` and then the descriptors of `rest` drops those of
      `[fd] + rest`. */
  lemma RestrictStep(c: map<int, Conn>, fd: int, rest: seq<int>, fds: seq<int>)
    requires fds == [fd] + rest
    ensures (map g | g in c - {fd} && g !in rest :: (c - {fd})[g]) == (map g | g in c && g !in fds :: c[g])
  {
    forall g ensures g in fds <==> g == fd || g in rest {
      if g in rest {
        var j :| 0 <= j < |rest| && rest[j] == g;
        assert fds[j + 1] == g;
      }
    }
  }

  /** A command from the command-and-control channel: the `cmd` entry and
      the optional `pid` entry of its dictionary. */
  datatype Command = Command(cmd: Option<string>, pid: Option<int>)

  /** The reply dictionary: `success`, and either the pid map or a message. */
  datatype Reply =
    | PsReply(pidMap: map<int, nat>)
    | Answer(success: bool, msg: string)

  /** `ps`: each connected pid and its number of open connections. */
  function PidCounts(pidMap: map<int, seq<int>>): (r: map<int, nat>)
    ensures r.Keys == pidMap.Keys
    ensures forall pid | pid in r :: r[pid] == |pidMap[pid]|
  {
    map pid | pid in pidMap :: |pidMap[pid]|
  }

  /** What `_process_command` answers, hands on and leaves behind.  A command
      without `cmd` raises KeyError before any reply is set. */
  datatype Answered = Answered(reply: Option<Reply>, out: Outcome)

  function Commanded(m: Mgr, c: Command): (r: Answered)
    ensures c.cmd.None? ==> r == Answered(None, Outcome(Failure(KeyError), m))
    ensures c.cmd.Some? ==> r.reply.Some?
    ensures r.out.mgr != m ==> c.cmd == Some("detach") && c.pid.Some? && c.pid.value in m.pidMap
    ensures r.out.result.Success? && r.out.result.value != [] ==> r.reply.Some? && r.reply.value.Answer? && r.reply.value.success
  {
    if c.cmd.None? then Answered(None, Outcome(Failure(KeyError), m))
    else if c.cmd.value == "ps" then Answered(Some(PsReply(PidCounts(m.pidMap))), Outcome(Success([]), m))
    else if c.cmd.value == "detach" then
      if c.pid.None? then Answered(Some(Answer(false, "Missing pid argument.")), Outcome(Success([]), m))
      else
        var (count, o) := Detached(m, c.pid.value);
        if count.Some? then
          Answered(Some(Answer(true, "Success. " + IntToString(count.value) + " connections closed.")), o)
        else
          Answered(Some(Answer(false, "Pid " + IntToString(c.pid.value) + " not connected to OPUS.")), Outcome(Success([]), m))
    else Answered(Some(Answer(false, c.cmd.value + " is not a valid command.")), Outcome(Success([]), m))
  }

  /** The replies of `_process_command`, one per command, on a consistent
      index: `ps` gets the pid map and hands nothing on; `detach` without a
      pid, of an unknown pid, or an unknown command get a failure message;
      detaching a connected pid reports how many connections it had and
      hands on one disconnect message, for its last descriptor. */
  lemma CommandedReplies(m: Mgr, c: Command)
    requires IndexOk(m)
    ensures var a := Commanded(m, c);
      && (c.cmd == Some("ps") ==> a.reply == Some(PsReply(PidCounts(m.pidMap))) && a.out == Outcome(Success([]), m))
      && (c.cmd == Some("detach") && c.pid.None? ==>
            a.reply == Some(Answer(false, "Missing pid argument.")) && a.out == Outcome(Success([]), m))
      && (c.cmd == Some("detach") && c.pid.Some? && c.pid.value !in m.pidMap ==>
            a.reply == Some(Answer(false, "Pid " + IntToString(c.pid.value) + " not connected to OPUS.")) && a.out == Outcome(Success([]), m))
      && (c.cmd == Some("detach") && c.pid.Some? && c.pid.value in m.pidMap ==>
            var fds := m.pidMap[c.pid.value];
            && fds != []
            && a.reply == Some(Answer(true, "Success. " + IntToString(|fds|) + " connections closed."))
            && a.out.result == Success([Disconnect(c.pid.value, fds[|fds| - 1])])
            && a.out.mgr.pidMap == m.pidMap - {c.pid.value})
      && (c.cmd.Some? && c.cmd.value != "ps" && c.cmd.value != "detach" ==>
            a.reply == Some(Answer(false, c.cmd.value + " is not a valid command.")) && a.out == Outcome(Success([]), m))
  {
    if c.cmd == Some("detach") && c.pid.Some? && c.pid.value in m.pidMap {
      DetachedClosesAll(m, c.pid.value);
    }
  }

  /** One pass of `run`: the poll's messages, then, when a command is
      pending, its messages; an exception in either ends the pass. */
  function RunPass(H: nat, loads: seq<byte> -> nat, m: Mgr, events: Option<seq<PollEvent>>, pending: Option<Command>): (r: Answered)
    requires H > 0 && ConnsOk(H, loads, m.conns)
    ensures pending.None? ==> r == Answered(None, Poll(H, loads, m, events))
  {
    var p := Poll(H, loads, m, events);
    if p.result.Failure? || pending.None? then Answered(None, p)
    else
      var a := Commanded(p.mgr, pending.value);
      if a.out.result.Failure? then a
      else Answered(a.reply, Outcome(Success(p.result.value + a.out.result.value), a.out.mgr))
  }

  /** Messages of two runs of whole frames together are whole frames. */
  lemma FramesOnlyAppend(H: nat, loads: seq<byte> -> nat, a: seq<Outgoing>, b: seq<Outgoing>)
    requires FramesOnly(H, loads, a) && FramesOnly(H, loads, b)
    ensures FramesOnly(H, loads, a + b)
  {
    assert forall k | 0 <= k < |a + b| :: (a + b)[k] == if k < |a| then a[k] else b[k - |a|];
  }

  /** A command on a consistent index keeps it consistent, hands on only
      disconnect messages, and fails only when it has no `cmd`. */
  lemma CommandedKeeps(H: nat, loads: seq<byte> -> nat, m: Mgr, c: Command)
    requires IndexOk(m)
    ensures var a := Commanded(m, c);
      && (a.out.result.Success? ==> FramesOnly(H, loads, a.out.result.value))
      && (a.out.result.Success? ==> forall k | 0 <= k < |a.out.result.value| :: a.out.result.value[k].Disconnect?)
      && (a.out.result.Failure? ==> a.out.result.error == KeyError)
      && IndexOk(a.out.mgr)
  {
    if c.cmd == Some("detach") && c.pid.Some? && c.pid.value in m.pidMap {
      DetachedClosesAll(m, c.pid.value);
    }
  }

  /** A pass on a consistent index keeps it consistent, hands on only whole
      frames besides disconnect messages, and fails only with the poll's
      KeyError or a command without `cmd`. */
  lemma RunPassKeeps(H: nat, loads: seq<byte> -> nat, m: Mgr, events: Option<seq<PollEvent>>, pending: Option<Command>)
    requires H > 0 && ConnsOk(H, loads, m.conns) && IndexOk(m)
    ensures var r := RunPass(H, loads, m, events, pending);
      && (r.out.result.Success? ==> FramesOnly(H, loads, r.out.result.value))
      && (r.out.result.Failure? ==> r.out.result.error == KeyError)
      && IndexOk(r.out.mgr)
  {
    var p := Poll(H, loads, m, events);
    if events.Some? {
      PollFromFrames(H, loads, m, events.value, []);
    }
    if p.result.Success? && pending.Some? {
      var a := Commanded(p.mgr, pending.value);
      CommandedKeeps(H, loads, p.mgr, pending.value);
      if a.out.result.Success? {
        FramesOnlyAppend(H, loads, p.result.value, a.out.result.value);
      }
    }
  }
}
