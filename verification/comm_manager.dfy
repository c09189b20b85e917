/** The bookkeeping of the connection index: which descriptor belongs to
    which client pid, and the per-pid lists of open descriptors. */
module ConnIndex {
  import opened Common
  import opened SockRead

  /** The readers of a descriptor map. */
  ghost function ReaderSet(icm: map<int, SockReader>): set<SockReader> {
    set fd | fd in icm :: icm[fd]
  }

  /** Each reader is filed under its own descriptor, which is below the next
      descriptor number, uses the given header format, and keeps its own
      invariant. */
  ghost predicate ReadersOk(icm: map<int, SockReader>, nextFd: int, H: nat, loads: seq<byte> -> nat)
    reads ReaderSet(icm)`sock, ReaderSet(icm)`buf, ReaderSet(icm)`header, ReaderSet(icm)`delivered
  {
    forall fd | fd in icm ::
      var rd := icm[fd];
      rd.fd == fd && fd < nextFd && rd.hdrLen == H && rd.payloadLenOf == loads && rd.Valid()
  }

  /** Each reader is filed under its own descriptor, so forgetting `fd`
      drops exactly its reader. */
  lemma ReaderSetRemove(icm: map<int, SockReader>, fd: int)
    requires fd in icm && forall g | g in icm :: icm[g].fd == g
    ensures ReaderSet(icm - {fd}) == ReaderSet(icm) - {icm[fd]}
  {
    forall rd | rd in ReaderSet(icm) && rd != icm[fd]
      ensures rd in ReaderSet(icm - {fd})
    {
      var g :| g in icm && icm[g] == rd;
      assert (icm - {fd})[g] == rd;
    }
  }

  /** The readers of the connections `pid` has open. */
  ghost function OwnedReaders(icm: map<int, SockReader>, pid: int): set<SockReader> {
    set fd | fd in icm && icm[fd].pid == pid :: icm[fd]
  }

  /** When exactly the descriptors `fds` of `pid` are dropped, the readers
      left are the old ones other than those of `pid`. */
  lemma DroppedReaders(icm: map<int, SockReader>, icm': map<int, SockReader>, pid: int, fds: seq<int>)
    requires forall f | f in icm :: icm[f].fd == f && (icm[f].pid == pid <==> f in fds)
    requires forall f :: f in icm' <==> f in icm && f !in fds
    requires forall f | f in icm' :: icm'[f] == icm[f]
    ensures ReaderSet(icm') <= ReaderSet(icm)
    ensures forall rd | rd in ReaderSet(icm) :: rd in ReaderSet(icm') <==> rd !in OwnedReaders(icm, pid)
  {
    forall rd | rd in ReaderSet(icm)
      ensures rd in ReaderSet(icm') <==> rd !in OwnedReaders(icm, pid)
    {
      var g :| g in icm && icm[g] == rd;
      if g in fds {
        assert rd in OwnedReaders(icm, pid);
      } else {
        assert icm'[g] == rd;
      }
    }
  }

  /** Serving `fd` either keeps the map or forgets `fd`: every other reader
      stays, and the reader of `fd` stays exactly when the map is kept. */
  lemma ServedReaders(icm: map<int, SockReader>, icm': map<int, SockReader>, fd: int)
    requires fd in icm && forall g | g in icm :: icm[g].fd == g
    requires icm' == icm || icm' == icm - {fd}
    ensures ReaderSet(icm') <= ReaderSet(icm)
    ensures forall rd | rd in ReaderSet(icm) && rd != icm[fd] :: rd in ReaderSet(icm')
    ensures icm[fd] in ReaderSet(icm') <==> icm' == icm
  {
    ReaderSetRemove(icm, fd);
  }

  /** Filing `rd` under a new descriptor adds just `rd`. */
  lemma ReaderSetAdd(icm: map<int, SockReader>, fd: int, rd: SockReader)
    requires fd !in icm
    ensures ReaderSet(icm[fd := rd]) == ReaderSet(icm) + {rd}
  {
    forall x | x in ReaderSet(icm)
      ensures x in ReaderSet(icm[fd := rd])
    {
      var g :| g in icm && icm[g] == x;
      assert icm[fd := rd][g] == x;
    }
    assert icm[fd := rd][fd] == rd;
  }

  /** Forgetting a descriptor keeps the readers' invariant. */
  lemma ReadersOkRemove(icm: map<int, SockReader>, nextFd: int, H: nat, loads: seq<byte> -> nat, fd: int)
    requires ReadersOk(icm, nextFd, H, loads)
    ensures ReadersOk(icm - {fd}, nextFd, H, loads)
  {
  }

  /** Filing a valid reader under the next descriptor number keeps the
      readers' invariant, with the number moved on by one. */
  lemma ReadersOkAdd(icm: map<int, SockReader>, nextFd: int, H: nat, loads: seq<byte> -> nat, rd: SockReader)
    requires ReadersOk(icm, nextFd, H, loads)
    requires rd.fd == nextFd && rd.hdrLen == H && rd.payloadLenOf == loads && rd.Valid()
    ensures ReadersOk(icm[nextFd := rd], nextFd + 1, H, loads)
  {
  }

  lemma OwnersOfAdd(icm: map<int, SockReader>, fd: int, rd: SockReader)
    ensures OwnersOf(icm[fd := rd]) == OwnersOf(icm)[fd := rd.pid]
  {
  }

  lemma OwnersOfRemove(icm: map<int, SockReader>, fd: int)
    ensures OwnersOf(icm - {fd}) == OwnersOf(icm) - {fd}
  {
  }

  lemma MinusTwice(m: map<int, SockReader>, s: set<int>, x: int)
    ensures (m - s) - {x} == m - (s + {x})
  {
  }

  /** The pid of each open descriptor. */
  function OwnersOf(icm: map<int, SockReader>): map<int, int> {
    map fd | fd in icm :: icm[fd].pid
  }

  /** The per-pid lists agree with the descriptor owners: every list is
      non-empty and duplicate-free, every listed descriptor is open and owned
      by that pid, and every open descriptor is listed under its owner. */
  ghost predicate PidIndexOk(owners: map<int, int>, pidMap: map<int, seq<int>>) {
    && (forall pid | pid in pidMap :: pidMap[pid] != [] && NoDuplicates(pidMap[pid]))
    && (forall pid, fd | pid in pidMap && fd in pidMap[pid] :: fd in owners && owners[fd] == pid)
    && (forall fd | fd in owners :: owners[fd] in pidMap && fd in pidMap[owners[fd]])
  }

  /** A listed descriptor is open and owned by the pid it is listed under. */
  lemma ListedOwned(owners: map<int, int>, pidMap: map<int, seq<int>>, pid: int, fd: int)
    requires PidIndexOk(owners, pidMap) && pid in pidMap && fd in pidMap[pid]
    ensures fd in owners && owners[fd] == pid
  {
  }

  /** `pid_map` after a new connection `fd` of `pid`: appended to the pid's
      list, or a new list when the pid had none. */
  function PidAdd(pidMap: map<int, seq<int>>, pid: int, fd: int): (r: map<int, seq<int>>)
    ensures r.Keys == pidMap.Keys + {pid}
    ensures forall p | p in pidMap && p != pid :: r[p] == pidMap[p]
  {
    pidMap[pid := (if pid in pidMap then pidMap[pid] else []) + [fd]]
  }

  /** `pid_map` after connection `fd` of `pid` closes: removed from the
      pid's list, and the pid's entry dropped once the list is empty. */
  function PidRemove(pidMap: map<int, seq<int>>, pid: int, fd: int): (r: map<int, seq<int>>)
    requires pid in pidMap ==> fd in pidMap[pid]
    ensures forall p | p != pid :: (p in r <==> p in pidMap) && (p in r ==> r[p] == pidMap[p])
    ensures pid in r ==> pid in pidMap && r[pid] == RemoveFirst(pidMap[pid], fd)
  {
    if pid !in pidMap then pidMap
    else
      var rest := RemoveFirst(pidMap[pid], fd);
      if rest == [] then pidMap - {pid} else pidMap[pid := rest]
  }

  /** Closing `fd` empties its owner's list exactly when it was the owner's
      only connection. */
  predicate ClosesLast(pidMap: map<int, seq<int>>, pid: int, fd: int) {
    pid in pidMap && pidMap[pid] == [fd]
  }

  lemma NoDuplicatesTail(s: seq<int>)
    requires s != [] && NoDuplicates(s)
    ensures NoDuplicates(s[1..]) && s[0] !in s[1..]
  {
    var t := s[1..];
    forall j, k | 0 <= j < k < |t| ensures t[j] != t[k] {
      assert t[j] == s[j + 1] && t[k] == s[k + 1];
    }
    forall k | 0 <= k < |t| ensures t[k] != s[0] {
      assert t[k] == s[k + 1];
    }
  }

  lemma NoDuplicatesCons(x: int, t: seq<int>)
    requires NoDuplicates(t) && x !in t
    ensures NoDuplicates([x] + t)
  {
    var s := [x] + t;
    forall j, k | 0 <= j < k < |s| ensures s[j] != s[k] {
      assert s[k] == t[k - 1];
      if j > 0 { assert s[j] == t[j - 1]; }
    }
  }

  /** Removing a listed descriptor from a duplicate-free list leaves a
      duplicate-free list of exactly the other descriptors. */
  lemma {:induction false} RemoveFirstKeepsDistinct(s: seq<int>, x: int)
    requires x in s && NoDuplicates(s)
    ensures NoDuplicates(RemoveFirst(s, x))
    ensures forall y :: y in RemoveFirst(s, x) <==> y in s && y != x
  {
    NoDuplicatesTail(s);
    assert s == [s[0]] + s[1..];
    if s[0] != x {
      RemoveFirstKeepsDistinct(s[1..], x);
      NoDuplicatesCons(s[0], RemoveFirst(s[1..], x));
    }
  }

  /** A new connection keeps the index consistent. */
  lemma ConnectKeeps(owners: map<int, int>, pidMap: map<int, seq<int>>, fd: int, pid: int)
    requires PidIndexOk(owners, pidMap) && fd !in owners
    ensures PidIndexOk(owners[fd := pid], PidAdd(pidMap, pid, fd))
  {
    var o, m := owners[fd := pid], PidAdd(pidMap, pid, fd);
    if pid in pidMap {
      assert fd !in pidMap[pid];
      assert m[pid] == pidMap[pid] + [fd];
      forall g | g in m[pid] ensures g in o && o[g] == pid {
        if g != fd { assert g in pidMap[pid]; }
      }
    } else {
      assert m[pid] == [fd];
    }
  }

  /** Closing a connection keeps the index consistent, and its owner keeps an
      entry exactly when it still has another connection. */
  lemma CloseKeeps(owners: map<int, int>, pidMap: map<int, seq<int>>, fd: int)
    requires PidIndexOk(owners, pidMap) && fd in owners
    ensures owners[fd] in pidMap && fd in pidMap[owners[fd]]
    ensures PidIndexOk(owners - {fd}, PidRemove(pidMap, owners[fd], fd))
    ensures owners[fd] !in PidRemove(pidMap, owners[fd], fd) <==> ClosesLast(pidMap, owners[fd], fd)
  {
    var pid := owners[fd];
    var s := pidMap[pid];
    RemoveFirstKeepsDistinct(s, fd);
    var rest := RemoveFirst(s, fd);
    if rest == [] {
      assert forall y | y in s :: y == fd;
      assert s == [fd] by {
        assert |s| == 1;
        assert s[0] in s;
      }
    } else {
      assert s != [fd] by { assert |s| == |rest| + 1; }
    }
  }

  lemma {:induction false} DistinctCount(s: seq<int>)
    requires NoDuplicates(s)
    ensures |set x | x in s| == |s|
  {
    if s != [] {
      var t := s[1..];
      assert NoDuplicates(t) by {
        forall j, k | 0 <= j < k < |t| ensures t[j] != t[k] { assert t[j] == s[j + 1] && t[k] == s[k + 1]; }
      }
      DistinctCount(t);
      assert s[0] !in t by {
        forall k | 0 <= k < |t| ensures t[k] != s[0] { assert t[k] == s[k + 1]; }
      }
      assert (set x | x in s) == (set x | x in t) + {s[0]} by {
        assert s == [s[0]] + t;
      }
    }
  }

  /** A pid's list is as long as the number of connections it owns, which is
      at least one. */
  lemma ConnectionsCounted(owners: map<int, int>, pidMap: map<int, seq<int>>, pid: int)
    requires PidIndexOk(owners, pidMap) && pid in pidMap
    ensures |pidMap[pid]| == |set fd | fd in owners && owners[fd] == pid| >= 1
  {
    var s := pidMap[pid];
    DistinctCount(s);
    forall fd ensures (fd in owners && owners[fd] == pid) <==> fd in s {
    }
    assert (set fd | fd in owners && owners[fd] == pid) == (set x | x in s);
  }
}

/** The server side of the provenance connections: one reader per client
    descriptor, the per-pid descriptor lists, and the disconnect message
    synthesised when a pid's last connection goes away. */
module CommManager {
  import opened Common
  import opened PosixArgs
  import opened ReaderSpec
  import opened SockRead
  import opened ConnIndex
  import opened ManagerSpec

  /** `conns` records each open descriptor's owner and reader state. */
  ghost predicate ConnsMatch(icm: map<int, SockReader>, conns: map<int, Conn>)
    reads ReaderSet(icm)`sock, ReaderSet(icm)`buf, ReaderSet(icm)`header
  {
    && conns.Keys == icm.Keys
    && forall fd | fd in icm :: conns[fd] == Conn(icm[fd].pid, icm[fd].State())
  }

  lemma ConnsMatchAdd(icm: map<int, SockReader>, conns: map<int, Conn>, fd: int, rd: SockReader)
    requires ConnsMatch(icm, conns)
    ensures ConnsMatch(icm[fd := rd], conns[fd := Conn(rd.pid, rd.State())])
  {
  }

  lemma ConnsMatchRemove(icm: map<int, SockReader>, conns: map<int, Conn>, fd: int)
    requires ConnsMatch(icm, conns)
    ensures ConnsMatch(icm - {fd}, conns - {fd})
  {
  }

  class MultiCommunicationManager {
    const hdrLen: nat
    const payloadLenOf: seq<byte> -> nat
    /** fd -> reader, and pid -> the descriptors of its open connections. */
    var inputClientMap: map<int, SockReader>
    var pidMap: map<int, seq<int>>
    /** The next descriptor number accept hands out. */
    var nextFd: int
    var serverOpen: bool
    /** Each open descriptor's owner and reader state. */
    ghost var conns: map<int, Conn>

    ghost function Readers(): set<SockReader>
      reads this`inputClientMap
    {
      ReaderSet(inputClientMap)
    }

    /** The readers of the connections that `pid` has open. */
    ghost function ReadersOf(pid: int): (r: set<SockReader>)
      reads this`inputClientMap
      ensures r <= Readers()
      ensures forall fd | fd in inputClientMap && inputClientMap[fd].pid == pid :: inputClientMap[fd] in r
    {
      OwnedReaders(inputClientMap, pid)
    }

    function Owners(): map<int, int>
      reads this`inputClientMap
    {
      OwnersOf(inputClientMap)
    }

    /** The descriptors `pid` has open. */
    function Connections(pid: int): set<int>
      reads this
    {
      set fd | fd in inputClientMap && inputClientMap[fd].pid == pid
    }

    ghost predicate Valid()
      reads this`inputClientMap, this`pidMap, this`nextFd, this`conns, Readers()`sock, Readers()`buf, Readers()`header, Readers()`delivered
    {
      && hdrLen > 0
      && ReadersOk(inputClientMap, nextFd, hdrLen, payloadLenOf)
      && ConnsMatch(inputClientMap, conns)
      && PidIndexOk(Owners(), pidMap)
    }

    /** The manager as a value: the open connections, the per-pid lists and
        the next descriptor number. */
    ghost function AbsState(): Mgr
      reads this
    {
      Mgr(conns, pidMap, nextFd)
    }

    /** A valid manager's value keeps every reader's invariant and a
        consistent index. */
    lemma AbsOk()
      requires Valid()
      ensures ConnsOk(hdrLen, payloadLenOf, AbsState().conns) && IndexOk(AbsState())
    {
      forall fd | fd in conns
        ensures ReaderOk(hdrLen, payloadLenOf, conns[fd].state.buf, conns[fd].state.header)
        ensures conns[fd].pid == inputClientMap[fd].pid
      {
        assert inputClientMap[fd].Valid();
      }
      assert ManagerSpec.Owners(AbsState()) == Owners();
    }

    constructor(hdrLen: nat, payloadLenOf: seq<byte> -> nat)
      requires hdrLen > 0
      ensures Valid() && fresh(Readers())
      ensures inputClientMap == map[] && pidMap == map[] && serverOpen
    {
      this.hdrLen := hdrLen;
      this.payloadLenOf := payloadLenOf;
      inputClientMap := map[];
      pidMap := map[];
      nextFd := 0;
      serverOpen := true;
      conns := map[];
    }

    /** `_handle_new_connection`: accepts the client, stores a reader for it
        under its descriptor and appends the descriptor to its pid's list. */
    method HandleNewConnection(pid: int, script: seq<RecvOutcome>) returns (fd: int)
      requires Valid()
      modifies this
      ensures Valid()
      ensures fd == old(nextFd) && nextFd == fd + 1 && serverOpen == old(serverOpen)
      ensures fd !in old(inputClientMap) && fd in inputClientMap
      ensures var rd := inputClientMap[fd];
        && fresh(rd) && rd.pid == pid && rd.sock == script && rd.buf == [] && rd.header.None? && !rd.closed
        && inputClientMap == old(inputClientMap)[fd := rd]
      ensures pidMap == PidAdd(old(pidMap), pid, fd)
      ensures Readers() == old(Readers()) + {inputClientMap[fd]}
      ensures AbsState() == Accept(old(AbsState()), pid, script)
    {
      var rd := new SockReader(nextFd, pid, hdrLen, payloadLenOf, script);
      ConnectKeeps(Owners(), pidMap, nextFd, pid);
      ReadersOkAdd(inputClientMap, nextFd, hdrLen, payloadLenOf, rd);
      ConnsMatchAdd(inputClientMap, conns, nextFd, rd);
      OwnersOfAdd(inputClientMap, nextFd, rd);
      ReaderSetAdd(inputClientMap, nextFd, rd);
      fd := Enlist(pid);
      Admit(fd, rd);
    }

    /** Hands out the next descriptor number to `pid` and appends it to the
        pid's list. */
    method Enlist(pid: int) returns (fd: int)
      modifies this`pidMap, this`nextFd
      ensures fd == old(nextFd) && nextFd == fd + 1
      ensures pidMap == PidAdd(old(pidMap), pid, fd)
    {
      fd := nextFd;
      nextFd := nextFd + 1;
      pidMap := PidAdd(pidMap, pid, fd);
    }

    /** Files reader `rd` under the new descriptor `fd`. */
    method Admit(fd: int, rd: SockReader)
      modifies this`inputClientMap, this`conns
      ensures inputClientMap == old(inputClientMap)[fd := rd]
      ensures conns == old(conns)[fd := Conn(rd.pid, rd.State())]
    {
      inputClientMap := inputClientMap[fd := rd];
      conns := conns[fd := Conn(rd.pid, rd.State())];
    }

    /** Forgets descriptor `fd` and closes its socket. */
    method Forget(fd: int)
      requires fd in inputClientMap
      modifies this`inputClientMap, this`conns, (inputClientMap[fd] as SockReader)`closed
      ensures inputClientMap == old(inputClientMap) - {fd}
      ensures conns == old(conns) - {fd}
      ensures old(inputClientMap[fd]).closed
    {
      inputClientMap[fd].Close();
      inputClientMap := inputClientMap - {fd};
      conns := conns - {fd};
    }

    /** `_handle_close_connection`: forgets the descriptor, removes it from
        its pid's list, closes the socket, and appends one disconnect message
        when that was the pid's last connection. */
    method HandleCloseConnection(fd: int, ret: seq<Outgoing>) returns (ret': seq<Outgoing>)
      requires Valid() && fd in inputClientMap
      modifies this, (inputClientMap[fd] as SockReader)`closed
      ensures Valid()
      ensures old(inputClientMap[fd].pid) in old(pidMap) && fd in old(pidMap[inputClientMap[fd].pid])
      ensures var pid := old(inputClientMap[fd].pid);
        && inputClientMap == old(inputClientMap) - {fd}
        && pidMap == PidRemove(old(pidMap), pid, fd)
        && ret' == ret + (if ClosesLast(old(pidMap), pid, fd) then [Disconnect(pid, fd)] else [])
      ensures old(inputClientMap[fd]).closed
      ensures nextFd == old(nextFd) && serverOpen == old(serverOpen)
      ensures FramesOnly(hdrLen, payloadLenOf, ret) ==> FramesOnly(hdrLen, payloadLenOf, ret')
      ensures Hangup(old(AbsState()), fd, old(inputClientMap[fd].pid), ret) == Outcome(Success(ret'), AbsState())
    {
      var pid := inputClientMap[fd].pid;
      CloseKeeps(Owners(), pidMap, fd);
      ReadersOkRemove(inputClientMap, nextFd, hdrLen, payloadLenOf, fd);
      ConnsMatchRemove(inputClientMap, conns, fd);
      OwnersOfRemove(inputClientMap, fd);
      var last := Unlist(pid, fd);
      ret' := ret + if last then [Disconnect(pid, fd)] else [];
      Forget(fd);
    }

    /** Removes `fd` from the list of `pid`, dropping the entry when it
        empties, which `last` reports. */
    method Unlist(pid: int, fd: int) returns (last: bool)
      requires pid in pidMap ==> fd in pidMap[pid]
      modifies this`pidMap
      ensures pidMap == PidRemove(old(pidMap), pid, fd)
      ensures last == ClosesLast(old(pidMap), pid, fd)
    {
      last := false;
      if pid in pidMap {
        var rest := RemoveFirst(pidMap[pid], fd);
        if rest == [] {
          assert pidMap[pid] == [fd] by { assert |pidMap[pid]| == 1 && pidMap[pid][0] == fd; }
          pidMap := pidMap - {pid};
          last := true;
        } else {
          assert pidMap[pid] != [fd];
          pidMap := pidMap[pid := rest];
        }
      }
    }

    /** `_handle_client`: reads from the client; a complete message is
        appended, a closed or failed connection is closed, and "try again
        later" changes nothing else. */
    method HandleClient(fd: int, ret: seq<Outgoing>) returns (ret': seq<Outgoing>, status: Status)
      requires Valid() && fd in inputClientMap
      modifies this, inputClientMap[fd]
      ensures Valid()
      ensures var rd := old(inputClientMap[fd]);
        var r := ReadMessage(rd.hdrLen, rd.payloadLenOf, old(rd.State()));
        && status == r.status && rd.State() == r.state
      ensures status != CloseConnection ==> inputClientMap == old(inputClientMap)
      ensures status == CloseConnection ==> inputClientMap == old(inputClientMap) - {fd}
      ensures status == CloseConnection ==> old(inputClientMap[fd]).closed
      ensures status != CloseConnection ==> inputClientMap[fd].closed == old(inputClientMap[fd].closed)
      ensures serverOpen == old(serverOpen)
      ensures ConnsOk(hdrLen, payloadLenOf, old(AbsState()).conns)
        && Serve(hdrLen, payloadLenOf, old(AbsState()), fd, ret) == Outcome(Success(ret'), AbsState())
    {
      AbsOk();
      assert Owners()[fd] == inputClientMap[fd].pid;
      var frame;
      status, frame := ReadClient(fd);
      ret' := ret;
      match status {
        case Succeeded =>
          ret' := ret + [Message(frame.value)];
        case CloseConnection =>
          ret' := HandleCloseConnection(fd, ret);
        case TryAgainLater =>
      }
    }

    /** `get_message` of one client's reader; the other readers and the
        maps are left as they are. */
    method ReadClient(fd: int) returns (status: Status, frame: Option<Frame>)
      requires Valid() && fd in inputClientMap
      modifies this`conns, (inputClientMap[fd] as SockReader)`sock, (inputClientMap[fd] as SockReader)`buf,
        (inputClientMap[fd] as SockReader)`header, (inputClientMap[fd] as SockReader)`delivered
      ensures Valid()
      ensures var rd := inputClientMap[fd];
        GetResult(status, frame, rd.State()) == ReadMessage(rd.hdrLen, rd.payloadLenOf, old(rd.State()))
      ensures conns == old(conns)[fd := Conn(inputClientMap[fd].pid, inputClientMap[fd].State())]
    {
      var rd := inputClientMap[fd];
      assert forall g | g in inputClientMap && g != fd :: inputClientMap[g].fd == g && inputClientMap[g] != rd;
      status, frame := rd.GetMessage();
      conns := conns[fd := Conn(rd.pid, rd.State())];
    }

    /** `do_poll`: handles each ready descriptor in turn, as `Poll` says
        of the manager's value.  A failed or timed-out poll gives nothing and
        changes nothing; an event for a descriptor the manager does not know
        raises KeyError, its only exception. */
    method DoPoll(events: Option<seq<PollEvent>>) returns (r: Result<seq<Outgoing>, PyError>)
      requires Valid()
      modifies this, Readers()
      ensures Valid()
      ensures ConnsOk(hdrLen, payloadLenOf, old(AbsState()).conns)
        && Poll(hdrLen, payloadLenOf, old(AbsState()), events) == Outcome(r, AbsState())
      ensures events.None? || events == Some([]) ==> inputClientMap == old(inputClientMap)
      ensures r.Success? ==> FramesOnly(hdrLen, payloadLenOf, r.value)
      ensures r.Failure? ==> r.error == KeyError
      ensures serverOpen == old(serverOpen)
      ensures forall rd | rd in old(Readers()) :: rd.closed == (old(rd.closed) || rd !in Readers())
      ensures forall rd | rd in Readers() :: rd in old(Readers()) || (fresh(rd) && !rd.closed)
    {
      AbsOk();
      if events.None? || events.value == [] {
        return Success([]);
      }
      PollFromFrames(hdrLen, payloadLenOf, AbsState(), events.value, []);
      r := PollEach(events.value);
    }

    /** The `do_poll` loop over a non-empty list of events, as `PollFrom`
        says of the manager's value. */
    method PollEach(evs: seq<PollEvent>) returns (r: Result<seq<Outgoing>, PyError>)
      requires Valid()
      modifies this, Readers()
      ensures Valid() && serverOpen == old(serverOpen)
      ensures ConnsOk(hdrLen, payloadLenOf, old(AbsState()).conns)
        && PollFrom(hdrLen, payloadLenOf, old(AbsState()), evs, []) == Outcome(r, AbsState())
      ensures forall rd | rd in old(Readers()) :: rd.closed == (old(rd.closed) || rd !in Readers())
      ensures forall rd | rd in Readers() :: rd in old(Readers()) || (fresh(rd) && !rd.closed)
    {
      AbsOk();
      ghost var m0 := AbsState();
      var ret: seq<Outgoing> := [];
      var i := 0;
      while i < |evs|
        invariant 0 <= i <= |evs|
        invariant Valid() && serverOpen == old(serverOpen)
        invariant ConnsOk(hdrLen, payloadLenOf, AbsState().conns)
        invariant PollFrom(hdrLen, payloadLenOf, AbsState(), evs[i..], ret) == PollFrom(hdrLen, payloadLenOf, m0, evs, [])
        invariant forall rd | rd in old(Readers()) :: rd.closed == (old(rd.closed) || rd !in Readers())
        invariant forall rd | rd in Readers() :: rd in old(Readers()) || (fresh(rd) && !rd.closed)
      {
        assert evs[i..][0] == evs[i] && evs[i..][1..] == evs[i + 1..];
        ghost var rs := Readers();
        var res := HandleEvent(evs[i], ret);
        forall rd | rd in old(Readers())
          ensures rd.closed == (old(rd.closed) || rd !in Readers())
        {
          if rd !in rs {
            assert rd !in Readers();
          }
        }
        assert forall rd | rd in Readers() :: rd in rs || (fresh(rd) && !rd.closed);
        if res.Failure? {
          return res;
        }
        ret := res.value;
        AbsOk();
        i := i + 1;
      }
      assert evs[i..] == [];
      return Success(ret);
    }

    /** The body of the `do_poll` loop for one event, as `Step` says of the
        manager's value. */
    method HandleEvent(ev: PollEvent, ret: seq<Outgoing>) returns (res: Result<seq<Outgoing>, PyError>)
      requires Valid()
      modifies this, Readers()
      ensures Valid() && serverOpen == old(serverOpen)
      ensures ConnsOk(hdrLen, payloadLenOf, old(AbsState()).conns)
        && Step(hdrLen, payloadLenOf, old(AbsState()), ev, ret) == Outcome(res, AbsState())
      ensures forall rd | rd in old(Readers()) :: rd.closed == (old(rd.closed) || rd !in Readers())
      ensures forall rd | rd in Readers() :: rd in old(Readers()) || (fresh(rd) && !rd.closed)
    {
      AbsOk();
      match ev {
        case NewConnection(pid, script) =>
          var fd := HandleNewConnection(pid, script);
          return Success(ret);
        case ClientEvent(fd, pollIn, hangUp) =>
          res := HandleClientEvent(fd, pollIn, hangUp, ret);
      }
    }

    /** The `do_poll` loop body for a client descriptor: a readable one is
        served, a hung-up one closed, and one the manager does not know
        raises KeyError; a closed connection's socket is closed. */
    method HandleClientEvent(fd: int, pollIn: bool, hangUp: bool, ret: seq<Outgoing>) returns (res: Result<seq<Outgoing>, PyError>)
      requires Valid()
      modifies this, Readers()
      ensures Valid() && serverOpen == old(serverOpen)
      ensures ConnsOk(hdrLen, payloadLenOf, old(AbsState()).conns)
        && Step(hdrLen, payloadLenOf, old(AbsState()), ClientEvent(fd, pollIn, hangUp), ret) == Outcome(res, AbsState())
      ensures forall rd | rd in old(Readers()) :: rd.closed == (old(rd.closed) || rd !in Readers())
      ensures Readers() <= old(Readers())
    {
      AbsOk();
      if pollIn {
        if fd !in inputClientMap {
          return Failure(KeyError);
        }
        var ret' := Readable(fd, ret);
        return Success(ret');
      } else if hangUp {
        if fd !in inputClientMap {
          return Failure(KeyError);
        }
        assert conns[fd].pid == inputClientMap[fd].pid;
        var ret' := HungUp(fd, ret);
        return Success(ret');
      }
      return Success(ret);
    }

    /** A readable client is served; when its connection is closed, its
        socket is closed, and no other socket is touched. */
    method Readable(fd: int, ret: seq<Outgoing>) returns (ret': seq<Outgoing>)
      requires Valid() && fd in inputClientMap
      modifies this, inputClientMap[fd]
      ensures Valid() && serverOpen == old(serverOpen)
      ensures ConnsOk(hdrLen, payloadLenOf, old(AbsState()).conns)
        && Serve(hdrLen, payloadLenOf, old(AbsState()), fd, ret) == Outcome(Success(ret'), AbsState())
      ensures forall rd | rd in old(Readers()) :: rd.closed == (old(rd.closed) || rd !in Readers())
      ensures Readers() <= old(Readers())
    {
      ghost var icm := inputClientMap;
      var st;
      ret', st := HandleClient(fd, ret);
      ServedReaders(icm, inputClientMap, fd);
    }

    /** A hung-up client's connection is closed with its socket, and no other
        socket is touched. */
    method HungUp(fd: int, ret: seq<Outgoing>) returns (ret': seq<Outgoing>)
      requires Valid() && fd in inputClientMap
      modifies this, (inputClientMap[fd] as SockReader)`closed
      ensures Valid() && serverOpen == old(serverOpen)
      ensures Hangup(old(AbsState()), fd, old(inputClientMap[fd].pid), ret) == Outcome(Success(ret'), AbsState())
      ensures forall rd | rd in old(Readers()) :: rd.closed == (old(rd.closed) || rd !in Readers())
      ensures Readers() <= old(Readers())
    {
      ghost var icm := inputClientMap;
      ret' := HandleCloseConnection(fd, ret);
      ServedReaders(icm, inputClientMap, fd);
    }

    /** `detach`: an unknown pid gives no count and no message and changes
        nothing; a connected pid has every connection closed, and the count
        of connections comes back with exactly one disconnect message. */
    method Detach(pid: int) returns (count: Option<nat>, ret: seq<Outgoing>)
      requires Valid()
      modifies this, ReadersOf(pid)
      ensures Valid()
      ensures Detached(old(AbsState()), pid) == (count, Outcome(Success(ret), AbsState()))
      ensures pid !in old(pidMap) ==> unchanged(this)
      ensures pid in old(pidMap) ==>
        var fds := old(pidMap[pid]);
        && count == Some(|fds|)
        && ret == [Disconnect(pid, fds[|fds| - 1])]
        && pid !in pidMap
        && (forall fd | fd in fds :: fd in old(inputClientMap) && old(inputClientMap)[fd].closed)
        && (forall fd :: fd in inputClientMap <==> fd in old(inputClientMap) && fd !in fds)
      ensures forall fd | fd in inputClientMap :: fd in old(inputClientMap) && inputClientMap[fd] == old(inputClientMap[fd])
      ensures forall rd | rd in old(Readers()) :: rd.closed == (old(rd.closed) || rd !in Readers())
      ensures Readers() <= old(Readers())
      ensures serverOpen == old(serverOpen)
    {
      if pid !in pidMap {
        return None, [];
      }
      AbsOk();
      ghost var m0 := AbsState();
      var fds := pidMap[pid];
      forall j | 0 <= j < |fds|
        ensures fds[j] in inputClientMap && inputClientMap[fds[j]] in ReadersOf(pid)
      {
        ListedOwned(Owners(), pidMap, pid, fds[j]);
      }
      ghost var icm := inputClientMap;
      ghost var rs := ReadersOf(pid);
      forall f | f in icm
        ensures icm[f].fd == f && (icm[f].pid == pid <==> f in fds)
      {
        assert Owners()[f] == icm[f].pid;
      }
      ret := CloseAll(pid, fds, rs);
      assert Detached(m0, pid).1 == Outcome(Success(ret), AbsState());
      DetachedClosesAll(m0, pid);
      DroppedReaders(icm, inputClientMap, pid, fds);
      forall rd | rd in rs
        ensures rd.closed
      {
        var g :| g in icm && icm[g].pid == pid && icm[g] == rd;
      }
      assert ret == [Disconnect(pid, fds[|fds| - 1])];
      return Some(|fds|), ret;
    }

    /** The `detach` loop: closes each descriptor on the copy `fds` of the
        list of `pid`, in order. */
    method CloseAll(pid: int, fds: seq<int>, ghost rs: set<SockReader>) returns (ret: seq<Outgoing>)
      requires Valid() && pid in pidMap && pidMap[pid] == fds
      requires forall j | 0 <= j < |fds| :: fds[j] in inputClientMap && inputClientMap[fds[j]] in rs
      modifies this, rs
      ensures Valid()
      ensures DetachFrom(old(AbsState()), pid, fds, []) == Outcome(Success(ret), AbsState())
      ensures forall fd | fd in fds :: fd in old(inputClientMap) && old(inputClientMap)[fd].closed
      ensures forall fd | fd in inputClientMap :: fd in old(inputClientMap) && inputClientMap[fd] == old(inputClientMap[fd])
      ensures serverOpen == old(serverOpen)
    {
      ListedOwned(Owners(), pidMap, pid, fds[0]);
      ghost var r0 := DetachFrom(AbsState(), pid, fds, []);
      ghost var o := inputClientMap;
      ret := [];
      var k := 0;
      ghost var removed: set<int> := {};
      while k < |fds|
        invariant 0 <= k <= |fds| && serverOpen == old(serverOpen)
        invariant Closing(pid, fds, k, ret, r0, o, removed)
      {
        assert inputClientMap[fds[k]] == o[fds[k]] && o[fds[k]] in rs;
        ret, removed := CloseTracked(pid, fds, k, ret, r0, o, removed);
        k := k + 1;
      }
      assert fds[k..] == [];
    }

    /** The state of the `detach` loop after closing `fds[..k]`: the fold
        of `DetachFrom` still owes `fds[k..]`, and `removed` are the
        descriptors already closed and dropped from the original map `o`. */
    ghost predicate Closing(pid: int, fds: seq<int>, k: nat, ret: seq<Outgoing>, r0: Outcome,
                            o: map<int, SockReader>, removed: set<int>)
      reads this, Readers(), o.Values
    {
      && k <= |fds|
      && Valid()
      && (k < |fds| ==> pid in pidMap && pidMap[pid] == fds[k..] && fds[k] in inputClientMap)
      && DetachFrom(AbsState(), pid, fds[k..], ret) == r0
      && inputClientMap == o - removed
      && (forall g | g in removed :: g in o && o[g].closed)
      && (forall j | 0 <= j < k :: fds[j] in removed)
    }

    /** `CloseNext`, keeping the record of the descriptors closed so far:
        `removed` are those already dropped from the original map `o`. */
    method CloseTracked(pid: int, fds: seq<int>, k: nat, ret: seq<Outgoing>, ghost r0: Outcome,
                        ghost o: map<int, SockReader>, ghost removed: set<int>)
      returns (ret': seq<Outgoing>, ghost removed': set<int>)
      requires k < |fds| && Closing(pid, fds, k, ret, r0, o, removed)
      modifies this, (inputClientMap[fds[k]] as SockReader)`closed
      ensures serverOpen == old(serverOpen) && removed' == removed + {fds[k]}
      ensures Closing(pid, fds, k + 1, ret', r0, o, removed')
    {
      ghost var rd := inputClientMap[fds[k]];
      ret' := CloseNext(pid, fds, k, ret, r0);
      forall g | g in removed
        ensures o[g].closed
      {
        if o[g] != rd {
          assert o[g].closed == old(o[g].closed);
        }
      }
      MinusTwice(o, removed, fds[k]);
      removed' := removed + {fds[k]};
      forall j | 0 <= j < k + 1
        ensures fds[j] in removed'
      {
        if j < k {
          assert fds[j] in removed;
        }
      }
    }

    /** One pass of the `detach` loop: closes `fds[k]`, the first descriptor
        left on the list of `pid`, and moves the fold of `DetachFrom` on by
        one step. */
    method CloseNext(pid: int, fds: seq<int>, k: nat, ret: seq<Outgoing>, ghost r0: Outcome) returns (ret': seq<Outgoing>)
      requires Valid() && k < |fds| && pid in pidMap && pidMap[pid] == fds[k..] && fds[k] in inputClientMap
      requires DetachFrom(AbsState(), pid, fds[k..], ret) == r0
      modifies this, (inputClientMap[fds[k]] as SockReader)`closed
      ensures Valid() && serverOpen == old(serverOpen)
      ensures k + 1 < |fds| ==> pid in pidMap && pidMap[pid] == fds[k + 1..] && fds[k + 1] in inputClientMap
      ensures DetachFrom(AbsState(), pid, fds[k + 1..], ret') == r0
      ensures inputClientMap == old(inputClientMap) - {fds[k]}
      ensures old(inputClientMap[fds[k]]).closed
    {
      var fd := fds[k];
      assert fds[k..] == [fd] + fds[k + 1..];
      ListedOwned(Owners(), pidMap, pid, fd);
      ghost var a := AbsState();
      ret' := HandleCloseConnection(fd, ret);
      DetachFromStep(a, pid, fd, fds[k + 1..], ret, Outcome(Success(ret'), AbsState()));
      if k + 1 < |fds| {
        assert RemoveFirst(fds[k..], fd) == fds[k + 1..];
        ListedOwned(Owners(), pidMap, pid, fds[k + 1]);
      }
    }

    /** `ps`: each connected pid and how many connections it has open, which
        is at least one. */
    function Ps(): (r: map<int, nat>)
      requires Valid()
      reads this, Readers()
      ensures forall pid :: pid in r <==> Connections(pid) != {}
      ensures forall pid | pid in r :: r[pid] == |Connections(pid)|
      ensures r == PidCounts(pidMap)
    {
      var r := map pid | pid in pidMap :: |pidMap[pid]|;
      assert forall pid | pid in pidMap :: |pidMap[pid]| == |Connections(pid)| by {
        forall pid | pid in pidMap ensures |pidMap[pid]| == |Connections(pid)| {
          ConnectionsCounted(Owners(), pidMap, pid);
          assert Connections(pid) == set fd | fd in Owners() && Owners()[fd] == pid;
        }
      }
      assert forall pid | pid !in pidMap :: Connections(pid) == {} by {
        forall pid, fd | pid !in pidMap && fd in inputClientMap ensures inputClientMap[fd].pid != pid {
          assert Owners()[fd] in pidMap;
        }
      }
      r
    }

    /** `close`: closes the listening socket and every client socket; the
        maps are left as they are. */
    method Close()
      requires Valid()
      modifies this`serverOpen, Readers()`closed
      ensures !serverOpen
      ensures forall fd | fd in inputClientMap :: inputClientMap[fd].closed
      ensures Valid()
    {
      serverOpen := false;
      var todo := inputClientMap.Keys;
      while todo != {}
        invariant todo <= inputClientMap.Keys && !serverOpen
        invariant forall fd | fd in inputClientMap && fd !in todo :: inputClientMap[fd].closed
        decreases |todo|
      {
        var fd := Pick(todo);
        CloseClient(fd);
        todo := todo - {fd};
      }
    }

    /** Closes one client socket and nothing else. */
    method CloseClient(fd: int)
      requires fd in inputClientMap
      modifies (inputClientMap[fd] as SockReader)`closed
      ensures inputClientMap[fd].closed
    {
      inputClientMap[fd].Close();
    }
  }

  class SocketProducer {
    const commManager: MultiCommunicationManager
    /** The reply handed back to the command channel. */
    var ret: Option<Reply>
    /** The message lists handed to the producer/fetcher queue. */
    var enqueued: seq<seq<Outgoing>>

    constructor(commManager: MultiCommunicationManager)
      ensures this.commManager == commManager && ret.None? && enqueued == []
    {
      this.commManager := commManager;
      ret := None;
      enqueued := [];
    }

    /** `_process_command`: answers `ps` with the pid map, `detach` of a
        connected pid with the number of connections closed (returning the
        disconnect messages), and anything else with a failure reply, as
        `Commanded` says of the manager's value (`CommandedReplies` spells
        the replies out).  A command without a `cmd` entry raises.  Only a
        detach of a connected pid changes the manager, and only that pid's
        readers, which it closes. */
    method ProcessCommand(c: Command) returns (r: Result<seq<Outgoing>, PyError>)
      requires commManager.Valid()
      modifies this`ret, commManager, if c.pid.Some? then commManager.ReadersOf(c.pid.value) else {}
      ensures commManager.Valid()
      ensures var a := Commanded(old(commManager.AbsState()), c);
        && a.out == Outcome(r, commManager.AbsState())
        && ret == (if a.reply.Some? then a.reply else old(ret))
      ensures c.cmd == Some("detach") && c.pid.Some? && c.pid.value in old(commManager.pidMap) ==>
        forall fd | fd in old(commManager.pidMap[c.pid.value]) ::
          fd in old(commManager.inputClientMap) && old(commManager.inputClientMap)[fd].closed
      ensures !(c.cmd == Some("detach") && c.pid.Some? && c.pid.value in old(commManager.pidMap)) ==> unchanged(commManager)
      ensures forall rd | rd in old(commManager.Readers()) :: rd.closed == (old(rd.closed) || rd !in commManager.Readers())
      ensures commManager.Readers() <= old(commManager.Readers())
    {
      if c.cmd.None? {
        return Failure(KeyError);
      }
      var cmd := c.cmd.value;
      if cmd == "ps" {
        ret := Some(PsReply(commManager.Ps()));
      } else if cmd == "detach" {
        if c.pid.Some? {
          var res, retMsg := commManager.Detach(c.pid.value);
          if res.Some? {
            ret := Some(Answer(true, "Success. " + IntToString(res.value) + " connections closed."));
            return Success(retMsg);
          } else {
            ret := Some(Answer(false, "Pid " + IntToString(c.pid.value) + " not connected to OPUS."));
          }
        } else {
          ret := Some(Answer(false, "Missing pid argument."));
        }
      } else {
        ret := Some(Answer(false, cmd + " is not a valid command."));
      }
      return Success([]);
    }

    /** One pass of `run`: `Gather`, then a non-empty list goes to the
        queue. */
    method RunOnce(events: Option<seq<PollEvent>>, pending: Option<Command>) returns (r: Result<seq<Outgoing>, PyError>)
      requires commManager.Valid()
      modifies this`ret, this`enqueued, commManager, commManager.Readers()
      ensures commManager.Valid()
      ensures ConnsOk(commManager.hdrLen, commManager.payloadLenOf, old(commManager.AbsState()).conns)
      ensures var a := RunPass(commManager.hdrLen, commManager.payloadLenOf, old(commManager.AbsState()), events, pending);
        && a.out == Outcome(r, commManager.AbsState())
        && ret == (if a.reply.Some? then a.reply else old(ret))
      ensures r.Success? ==> FramesOnly(commManager.hdrLen, commManager.payloadLenOf, r.value)
      ensures r.Failure? ==> r.error == KeyError
      ensures forall rd | rd in old(commManager.Readers()) :: rd.closed == (old(rd.closed) || rd !in commManager.Readers())
      ensures forall rd | rd in commManager.Readers() :: rd in old(commManager.Readers()) || (fresh(rd) && !rd.closed)
      ensures r.Success? && r.value != [] ==> enqueued == old(enqueued) + [r.value]
      ensures r.Failure? || r.value == [] ==> enqueued == old(enqueued)
    {
      r := Gather(events, pending);
      if r.Success? && r.value != [] {
        enqueued := enqueued + [r.value];
      }
    }

    /** The messages of one pass of `run`: poll, then answer a pending
        command if there is one and add its messages after the poll's, as
        `RunPass` says of the manager's value.  What comes back is whole
        frames besides disconnect messages, and the only exception is
        KeyError. */
    method Gather(events: Option<seq<PollEvent>>, pending: Option<Command>) returns (r: Result<seq<Outgoing>, PyError>)
      requires commManager.Valid()
      modifies this`ret, commManager, commManager.Readers()
      ensures commManager.Valid()
      ensures ConnsOk(commManager.hdrLen, commManager.payloadLenOf, old(commManager.AbsState()).conns)
      ensures var a := RunPass(commManager.hdrLen, commManager.payloadLenOf, old(commManager.AbsState()), events, pending);
        && a.out == Outcome(r, commManager.AbsState())
        && ret == (if a.reply.Some? then a.reply else old(ret))
      ensures r.Success? ==> FramesOnly(commManager.hdrLen, commManager.payloadLenOf, r.value)
      ensures r.Failure? ==> r.error == KeyError
      ensures forall rd | rd in old(commManager.Readers()) :: rd.closed == (old(rd.closed) || rd !in commManager.Readers())
      ensures forall rd | rd in commManager.Readers() :: rd in old(commManager.Readers()) || (fresh(rd) && !rd.closed)
    {
      commManager.AbsOk();
      RunPassKeeps(commManager.hdrLen, commManager.payloadLenOf, commManager.AbsState(), events, pending);
      var polled := commManager.DoPoll(events);
      if polled.Failure? {
        return Failure(polled.error);
      }
      if pending.None? {
        return polled;
      }
      var extra := ProcessCommand(pending.value);
      if extra.Failure? {
        return Failure(extra.error);
      }
      return Success(polled.value + extra.value);
    }
  }
}
