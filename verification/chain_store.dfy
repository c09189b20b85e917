/** The graph store and the in-memory lists as process_aggregate_functions
    updates them in place, proved against the value-level model of the
    splicer. */
module ChainStore {
  import opened Common
  import opened PosixArgs
  import opened Chains

  /** One row of load_cache: a fresh list for local `l`, built by inserting
      each node of the row's path at the front. */
  method LoadRow(l: Local, nodes: Option<seq<Event>>) returns (fc: FdChain)
    ensures fresh(fc) && fc.local == l && fc.chain == LoadedChain(nodes)
  {
    fc := new FdChain(l);
    if nodes.Some? {
      var path := nodes.value;
      var n := 0;
      while n < |path|
        invariant 0 <= n <= |path| && |fc.chain| == n
        invariant forall k | 0 <= k < n :: fc.chain[k] == path[n - 1 - k]
        modifies fc
      {
        InsertAt(fc.chain, 0, path[n]);
        fc.chain := Insert(fc.chain, 0, path[n]);
        n := n + 1;
      }
      forall k | 0 <= k < |path| ensures fc.chain[k] == Reverse(path)[k] {
        ReverseAt(path, k);
      }
    }
  }

  /** The graph store with the caches the splicer keeps beside it. */
  class Db {
    var graph: Graph
    /** The local nodes and the process each belongs to (PROC_OBJ). */
    const locals: seq<Local>
    /** Anchors that hold a LAST_EVENT cache entry. */
    var lastEvent: set<NodeId>
    /** The IO_EVENT_CHAIN cache: per (process, local name), the chain index. */
    var ioChains: map<(NodeId, string), seq<FdChain>>
    /** The logical clock set for each message. */
    var monoTime: int
    /** The id the next created node gets. */
    var nextId: NodeId
    /** The true event list of every anchor. */
    ghost var chains: map<NodeId, seq<Event>>
    /** Every list object the IO_EVENT_CHAIN cache holds. */
    ghost var cached: set<FdChain>

    ghost function AbsOf(): Abs
      reads this
    {
      Abs(graph, chains, lastEvent, nextId)
    }

    ghost predicate Valid()
      reads this`graph, this`chains, this`nextId, this`ioChains, this`cached, cached
    {
      && StoreOk(graph, chains, nextId, locals)
      && CacheShape(locals, ioChains, cached)
      && CacheSync(chains, cached)
    }

    constructor(ls: seq<Local>)
      requires DistinctLocalIds(ls)
      ensures Valid() && locals == ls && ioChains == map[] && lastEvent == {}
      ensures graph == Graph(map[], map[], map[]) && forall l | l in ls :: chains[l.id] == []
    {
      graph := Graph(map[], map[], map[]);
      locals := ls;
      lastEvent := {};
      ioChains := map[];
      cached := {};
      monoTime := 0;
      nextId := 0;
      var ids := set l | l in ls :: l.id;
      chains := map a | a in ids :: [];
    }

    /** event_from_msg: a new event node with the next id and before_time `t`. */
    method NewEvent(t: int) returns (evt: Event)
      requires Valid()
      modifies this`graph, this`nextId
      ensures evt == Event(old(nextId), t) && evt.id < nextId
      ensures graph == AddEvent(old(graph), old(nextId), t) && nextId == old(nextId) + 1
      ensures chains == old(chains) && lastEvent == old(lastEvent) && ioChains == old(ioChains)
      ensures monoTime == old(monoTime)
      ensures Valid() && FreshIn(graph, evt)
    {
      AddEventKeepsChains(graph, chains, nextId, t);
      evt := Event(nextId, t);
      graph := AddEvent(graph, nextId, t);
      nextId := nextId + 1;
    }

    /** The branches of the splice: rewrites the relationships of anchor `a`
        and of its list `c` around the new event `evt`, and drops the
        anchor's LAST_EVENT entry where the newest event changes.  Each
        branch's insertion into the in-memory list is `Spliced`, done by the
        caller. */
    method SpliceBranches(a: NodeId, c: seq<Event>, evt: Event)
      modifies this`graph, this`lastEvent
      ensures graph == SpliceGraph(old(graph), a, c, evt)
      ensures lastEvent == SpliceLastEvent(old(lastEvent), a, c, evt)
    {
      if |c| == 0 {
        assert BranchOf(c, evt) == FirstEvent;
        graph := graph.(ioEvents := graph.ioEvents[a := evt.id]);
        lastEvent := lastEvent - {a};
      } else {
        var i := FindIndex(TimeKeys(c), evt.beforeTime);
        assert i == SpliceIndex(c, evt);
        if i == 0 {
          assert BranchOf(c, evt) == Prepend;
          graph := graph.(prevEvent := graph.prevEvent[c[0].id := evt.id]);
        } else if i == |c| {
          assert BranchOf(c, evt) == Append;
          // drop the anchor's outgoing IO_EVENTS, link evt to the old tail,
          // and point IO_EVENTS at evt
          graph := graph.(ioEvents := graph.ioEvents - {a});
          graph := graph.(prevEvent := graph.prevEvent[evt.id := c[|c| - 1].id]);
          graph := graph.(ioEvents := graph.ioEvents[a := evt.id]);
          lastEvent := lastEvent - {a};
        } else {
          assert BranchOf(c, evt) == Middle;
          // drop c[i]'s outgoing PREV_EVENT, then link c[i] -> evt -> c[i-1]
          graph := graph.(prevEvent := graph.prevEvent - {c[i].id});
          graph := graph.(prevEvent := graph.prevEvent[c[i].id := evt.id]);
          graph := graph.(prevEvent := graph.prevEvent[evt.id := c[i - 1].id]);
        }
      }
    }

    /** Splices `evt` into the list of `fc`, which is its anchor's one list,
        and keeps every list isomorphic to the graph. */
    method Splice(fc: FdChain, evt: Event)
      requires Valid() && fc.local.id in chains && fc.chain == chains[fc.local.id]
      requires FreshIn(graph, evt) && evt.id < nextId
      requires forall o | o in cached && o.local.id == fc.local.id :: o == fc
      modifies this`graph, this`chains, this`lastEvent, fc
      ensures graph == SpliceGraph(old(graph), fc.local.id, old(fc.chain), evt)
      ensures fc.chain == Spliced(old(fc.chain), evt)
      ensures chains == old(chains)[fc.local.id := fc.chain]
      ensures lastEvent == SpliceLastEvent(old(lastEvent), fc.local.id, old(fc.chain), evt)
      ensures Valid()
    {
      var a := fc.local.id;
      ghost var g0, ch0 := graph, chains;
      SpliceKeepsStore(g0, ch0, nextId, locals, a, evt);
      SpliceList(fc, evt);
      assert StoreOk(graph, chains, nextId, locals);
      forall o | o in cached ensures o.local.id in chains && o.chain == chains[o.local.id] {
        if o != fc {
          assert o.local.id != a;
        }
      }
    }

    /** The updates of one splice: the graph's relationships, the LAST_EVENT
        entry, and the list object of the anchor. */
    method SpliceList(fc: FdChain, evt: Event)
      modifies this`graph, this`chains, this`lastEvent, fc
      ensures graph == SpliceGraph(old(graph), fc.local.id, old(fc.chain), evt)
      ensures fc.chain == Spliced(old(fc.chain), evt)
      ensures chains == old(chains)[fc.local.id := fc.chain]
      ensures lastEvent == SpliceLastEvent(old(lastEvent), fc.local.id, old(fc.chain), evt)
    {
      SpliceBranches(fc.local.id, fc.chain, evt);
      fc.chain := Spliced(fc.chain, evt);
      chains := chains[fc.local.id := fc.chain];
    }

    /** load_cache: sets the clock, then builds one fresh list per local of
        the resource, in query order. */
    method LoadCache(name: string, procId: NodeId, t: int) returns (idx: seq<FdChain>)
      modifies this`monoTime
      ensures monoTime == t
      ensures var q := QueryLocals(locals, procId, name);
        && |idx| == |q|
        && forall k | 0 <= k < |idx| ::
             && fresh(idx[k]) && idx[k].local == q[k]
             && idx[k].chain == LoadedChain(NodesOf(graph, q[k].id))
      ensures forall j, k | 0 <= j < k < |idx| :: idx[j] != idx[k]
    {
      monoTime := t;
      var q := QueryLocals(locals, procId, name);
      var g := graph;
      idx := [];
      var r := 0;
      while r < |q|
        invariant 0 <= r <= |q| && |idx| == r
        invariant forall k | 0 <= k < r ::
          && fresh(idx[k]) && idx[k].local == q[k]
          && idx[k].chain == LoadedChain(NodesOf(g, q[k].id))
        invariant forall j, k | 0 <= j < k < r :: idx[j] != idx[k]
        modifies {}
      {
        var fc := LoadRow(q[r], NodesOf(g, q[r].id));
        idx := idx + [fc];
        r := r + 1;
      }
    }
  
    /** The index load_cache builds for a resource with nothing cached: each
        list is its anchor's true list, and no cached list shares an anchor
        with it. */
    method LoadedIndex(procId: NodeId, name: string, t: int) returns (idx: seq<FdChain>)
      requires Valid() && (procId, name) !in ioChains
      modifies this`monoTime
      ensures monoTime == t
      ensures var q := QueryLocals(locals, procId, name);
        && |idx| == |q|
        && forall k | 0 <= k < |idx| :: idx[k].local == q[k] && q[k].id in chains && idx[k].chain == chains[q[k].id]
      ensures forall k, o | 0 <= k < |idx| && o in cached :: o.local.id != idx[k].local.id
      ensures forall k | 0 <= k < |idx| :: fresh(idx[k])
    {
      var q := QueryLocals(locals, procId, name);
      QueryLocalsInStore(locals, procId, name);
      idx := LoadCache(name, procId, t);
      forall k | 0 <= k < |idx| ensures q[k].id in chains && idx[k].chain == chains[q[k].id] {
        StoreLoads(graph, chains, nextId, locals, q[k]);
      }
      forall k, o | 0 <= k < |idx| && o in cached ensures o.local.id != idx[k].local.id {
        SameIdSameLocal(locals, o.local, idx[k].local);
      }
    }

    /** The chain index of one resource: the cached one, or else the one
        load_cache builds, which it does not put into the cache.  Either way
        it lists the resource's locals in query order, each with its true
        list, and each list is the only one of its anchor the splice can
        reach. */
    method ChainIndex(procId: NodeId, name: string, t: int) returns (idx: seq<FdChain>)
      requires Valid() && monoTime == t
      modifies this`monoTime
      ensures monoTime == t
      ensures var q := QueryLocals(locals, procId, name);
        && |idx| == |q|
        && forall k | 0 <= k < |idx| :: idx[k].local == q[k] && q[k].id in chains && idx[k].chain == chains[q[k].id]
      ensures forall k, o | 0 <= k < |idx| && o in cached && o.local.id == idx[k].local.id :: o == idx[k]
      ensures forall k | 0 <= k < |idx| :: idx[k] in cached || fresh(idx[k])
    {
      if (procId, name) in ioChains {
        QueryLocalsInStore(locals, procId, name);
        idx := ioChains[(procId, name)];
      } else {
        idx := LoadedIndex(procId, name, t);
      }
    }

    /** The list object an event at time `t` of the resource goes into,
        found through the chain index: the entry just before the first whose
        local was opened after `t`. */
    method AnchorList(procId: NodeId, name: string, t: int) returns (fc: Option<FdChain>)
      requires Valid() && monoTime == t
      modifies this`monoTime
      ensures monoTime == t
      ensures fc.None? <==> Target(locals, procId, name, t).None?
      ensures fc.Some? ==>
        && Target(locals, procId, name, t) == Some(fc.value.local)
        && fc.value.local.id in chains && fc.value.chain == chains[fc.value.local.id]
        && (fc.value in cached || fresh(fc.value))
        && forall o | o in cached && o.local.id == fc.value.local.id :: o == fc.value
    {
      var idx := ChainIndex(procId, name, t);
      var keys := seq(|idx|, k requires 0 <= k < |idx| => idx[k].local.monoTime);
      assert keys == MonoKeys(QueryLocals(locals, procId, name));
      var j := FindIndex(keys, t);
      if j == 0 {
        return None;
      }
      fc := Some(idx[j - 1]);
    }

    /** Creates the event node for time `t` and splices it into the list of
        `fc`, the one list of its anchor. */
    method SpliceNewEvent(fc: FdChain, t: int) returns (o: Outcome)
      requires Valid() && fc.local.id in chains && fc.chain == chains[fc.local.id]
      requires forall o | o in cached && o.local.id == fc.local.id :: o == fc
      modifies this`graph, this`chains, this`nextId, this`lastEvent, fc
      ensures Valid() && ioChains == old(ioChains) && monoTime == old(monoTime)
      ensures var p := Place(old(AbsOf()), Some(fc.local), t);
        o == p.outcome && AbsOf() == p.state
    {
      ghost var s0 := AbsOf();
      var l := fc.local;
      var c := fc.chain;
      var evt := NewEvent(t);
      ghost var g1 := graph;
      o := Placed(l.id, SpliceIndex(c, evt));
      Splice(fc, evt);
      PlaceSome(s0, l, t);
      assert AbsOf() == Abs(SpliceGraph(g1, l.id, c, evt), s0.chains[l.id := Spliced(c, evt)],
                            SpliceLastEvent(s0.lastEvent, l.id, c, evt), s0.nextId + 1);
    }

    /** An event without a list to go into: its node is still created, but
        it is spliced nowhere. */
    method Misplace(t: int) returns (o: Outcome)
      requires Valid()
      modifies this`graph, this`nextId
      ensures Valid() && ioChains == old(ioChains) && monoTime == old(monoTime)
      ensures var p := Place(old(AbsOf()), None, t);
        o == p.outcome && AbsOf() == p.state
    {
      ghost var s0 := AbsOf();
      var evt := NewEvent(t);
      PlaceNone(s0, t);
      assert AbsOf() == s0.(graph := AddEvent(s0.graph, s0.nextId, t), nextId := s0.nextId + 1);
      o := Misplaced;
    }

    /** The part of one iteration after the descriptor is known: finds the
        list the event belongs to, creates the event node and splices it in;
        without such a list the event is misplaced. */
    method PlaceEvent(procId: NodeId, name: string, t: int) returns (o: Outcome)
      requires Valid() && monoTime == t
      modifies this`graph, this`chains, this`nextId, this`lastEvent, this`monoTime, cached
      ensures Valid() && monoTime == t && ioChains == old(ioChains)
      ensures var p := Place(old(AbsOf()), Target(locals, procId, name, t), t);
        o == p.outcome && AbsOf() == p.state
    {
      var fc := AnchorList(procId, name, t);
      if fc.None? {
        o := Misplace(t);
      } else {
        o := SpliceNewEvent(fc.value, t);
      }
    }

    /** One iteration of process_aggregate_functions. */
    method ProcessMessage(funcMap: map<string, ActionSpec>, procId: NodeId, msg: FuncMsg)
      returns (r: Result<Outcome, PyError>)
      requires Valid()
      modifies this`graph, this`chains, this`nextId, this`lastEvent, this`monoTime, cached
      ensures Valid()
      ensures var step := Step(old(AbsOf()), locals, funcMap, procId, msg);
        r == step.result && AbsOf() == step.state
      ensures GetFdFromMsg(funcMap, msg).Success? ==> monoTime == msg.beginTime
    {
      var des := GetFdFromMsg(funcMap, msg);
      if des.Failure? {
        return Failure(des.error);
      }
      monoTime := msg.beginTime;
      if des.value.None? {
        // nothing is cached under a descriptor of None, and load_cache cannot
        // build its query text from it
        return Failure(TypeError);
      }
      ghost var s0 := old(AbsOf());
      var o := PlaceEvent(procId, des.value.value, msg.beginTime);
      StepPlaces(s0, locals, funcMap, procId, msg, des.value.value);
      r := Success(o);
    }

    /** process_aggregate_functions: the messages in order, stopping at the
        first that raises. */
    method ProcessAggregateFunctions(funcMap: map<string, ActionSpec>, procId: NodeId, msgs: seq<FuncMsg>)
      returns (outs: seq<Outcome>, err: Option<PyError>)
      requires Valid()
      modifies this`graph, this`chains, this`nextId, this`lastEvent, this`monoTime, cached
      ensures Valid()
      ensures var run := Run(old(AbsOf()), locals, funcMap, procId, msgs);
        outs == run.outs && err == run.err && AbsOf() == run.state
    {
      ghost var s0 := AbsOf();
      outs := [];
      err := None;
      var i := 0;
      RunFromStart(s0, locals, funcMap, procId, msgs);
      while i < |msgs|
        invariant 0 <= i <= |msgs| && Valid() && ioChains == old(ioChains)
        invariant RunFrom(s0, outs, AbsOf(), locals, funcMap, procId, msgs, i)
      {
        ghost var before := AbsOf();
        var r := ProcessMessage(funcMap, procId, msgs[i]);
        RunAdvance(s0, outs, before, AbsOf(), locals, funcMap, procId, msgs, i, r);
        if r.Failure? {
          err := Some(r.error);
          return;
        }
        outs := outs + [r.value];
        i := i + 1;
      }
      RunFromEnd(s0, outs, AbsOf(), locals, funcMap, procId, msgs);
    }
  }
}
