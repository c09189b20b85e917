/** The causal event-chain splicer of the POSIX PVM layer.

    Each local (an open file descriptor's version node) anchors a chain of I/O
    events.  The chain is kept twice: as an in-memory list, oldest first, and as
    relationships in the graph store, where PREV_EVENT points from a newer event
    to the one before it and IO_EVENTS points from the anchor to the newest
    event.  This module models the graph, the splice that inserts one event, the
    loader that rebuilds the lists from the graph, and the message loop that
    drives them, and proves that the list and the graph stay isomorphic. */
module Chains {
  import opened Common
  import opened PosixArgs

  type NodeId = int

  /** An event node with its `before_time` ordering key. */
  datatype Event = Event(id: NodeId, beforeTime: int)

  /** A local (descriptor) node: owning process, name (the descriptor) and mono_time. */
  datatype Local = Local(id: NodeId, procId: NodeId, name: string, monoTime: int)

  /** The part of the graph store the splicer touches.  Relationships are keyed
      by their source node; that is exact while every node has at most one
      outgoing relationship of each type, which `Mirrors` guarantees. */
  datatype Graph = Graph(
    prevEvent: map<NodeId, NodeId>,   // PREV_EVENT: newer event -> older event
    ioEvents: map<NodeId, NodeId>,    // IO_EVENTS: anchor -> newest event
    beforeTimes: map<NodeId, int>)    // before_time property of every event node

  // ---------------------------------------------------------------------------
  // Ordered search (IndexList.find)
  // ---------------------------------------------------------------------------

  predicate Sorted(keys: seq<int>) {
    forall j, k | 0 <= j < k < |keys| :: keys[j] <= keys[k]
  }

  /** The index at which an element with key `k` is inserted: the first
      position whose key exceeds `k`, so equal keys go after existing ones. */
  function FindIndex(keys: seq<int>, k: int): (i: nat)
    ensures i <= |keys|
    ensures forall j | 0 <= j < i :: keys[j] <= k
    ensures i < |keys| ==> keys[i] > k
    ensures Sorted(keys) ==> forall j | i <= j < |keys| :: keys[j] > k
  {
    if keys == [] || keys[0] > k then 0 else 1 + FindIndex(keys[1..], k)
  }

  function TimeKeys(c: seq<Event>): (ks: seq<int>)
    ensures |ks| == |c| && forall k | 0 <= k < |c| :: ks[k] == c[k].beforeTime
  {
    seq(|c|, k requires 0 <= k < |c| => c[k].beforeTime)
  }

  // ---------------------------------------------------------------------------
  // The list/graph isomorphism
  // ---------------------------------------------------------------------------

  function Ids(c: seq<Event>): set<NodeId> {
    set e | e in c :: e.id
  }

  predicate DistinctIds(c: seq<Event>) {
    forall j, k | 0 <= j < k < |c| :: c[j].id != c[k].id
  }

  /** The events have distinct ids, and each event node carries its before_time. */
  ghost predicate NodesOk(bt: map<NodeId, int>, c: seq<Event>) {
    && DistinctIds(c)
    && forall k | 0 <= k < |c| :: c[k].id in bt && bt[c[k].id] == c[k].beforeTime
  }

  /** Every event but the oldest has exactly its predecessor as PREV_EVENT. */
  ghost predicate Linked(p: map<NodeId, NodeId>, c: seq<Event>) {
    forall k | 0 < k < |c| :: c[k].id in p && p[c[k].id] == c[k - 1].id
  }

  /** The oldest event has no PREV_EVENT. */
  ghost predicate Headless(p: map<NodeId, NodeId>, c: seq<Event>) {
    c != [] ==> c[0].id !in p
  }

  /** No node outside the chain has a PREV_EVENT into it. */
  ghost predicate Closed(p: map<NodeId, NodeId>, c: seq<Event>) {
    forall x | x in p && p[x] in Ids(c) :: x in Ids(c)
  }

  /** The anchor's IO_EVENTS points at the newest event, and is absent for an
      empty chain. */
  ghost predicate Anchored(io: map<NodeId, NodeId>, a: NodeId, c: seq<Event>) {
    && (c == [] ==> a !in io)
    && (c != [] ==> a in io && io[a] == c[|c| - 1].id)
  }

  /** The graph holds the chain `c` of anchor `a` and nothing contradicting it. */
  ghost predicate Mirrors(g: Graph, a: NodeId, c: seq<Event>) {
    && NodesOk(g.beforeTimes, c)
    && Linked(g.prevEvent, c)
    && Headless(g.prevEvent, c)
    && Closed(g.prevEvent, c)
    && Anchored(g.ioEvents, a, c)
  }

  /** Every relationship ends at an event node that carries a before_time. */
  ghost predicate GraphOk(g: Graph) {
    && (forall x | x in g.prevEvent :: x in g.beforeTimes && g.prevEvent[x] in g.beforeTimes)
    && (forall a | a in g.ioEvents :: g.ioEvents[a] in g.beforeTimes)
  }

  /** `evt` is a node just created: it has its before_time and no relationship. */
  ghost predicate FreshIn(g: Graph, evt: Event) {
    && evt.id in g.beforeTimes && g.beforeTimes[evt.id] == evt.beforeTime
    && evt.id !in g.prevEvent
    && (forall x | x in g.prevEvent :: g.prevEvent[x] != evt.id)
    && (forall a | a in g.ioEvents :: g.ioEvents[a] != evt.id)
  }

  // ---------------------------------------------------------------------------
  // The splice, as a function of the old list and graph
  // ---------------------------------------------------------------------------

  datatype Branch = FirstEvent | Prepend | Append | Middle

  /** Where `evt` goes: index 0 of an empty chain, else the sorted insertion index. */
  function SpliceIndex(c: seq<Event>, evt: Event): (i: nat)
    ensures i <= |c|
  {
    if c == [] then 0 else FindIndex(TimeKeys(c), evt.beforeTime)
  }

  function BranchOf(c: seq<Event>, evt: Event): Branch {
    var i := SpliceIndex(c, evt);
    if c == [] then FirstEvent
    else if i == 0 then Prepend
    else if i == |c| then Append
    else Middle
  }

  /** The chain list after the splice. */
  function Spliced(c: seq<Event>, evt: Event): (r: seq<Event>)
    ensures |r| == |c| + 1
  {
    Insert(c, SpliceIndex(c, evt), evt)
  }

  /** The graph after the splice of `evt` into chain `c` of anchor `a`. */
  function SpliceGraph(g: Graph, a: NodeId, c: seq<Event>, evt: Event): (r: Graph)
    ensures r.beforeTimes == g.beforeTimes
    ensures Invalidates(c, evt) ==> a in r.ioEvents && r.ioEvents[a] == evt.id
    ensures !Invalidates(c, evt) ==> r.ioEvents == g.ioEvents
    ensures forall x | x in g.prevEvent :: x in r.prevEvent
  {
    var i := SpliceIndex(c, evt);
    match BranchOf(c, evt)
    case FirstEvent =>
      g.(ioEvents := g.ioEvents[a := evt.id])
    case Prepend =>
      g.(prevEvent := g.prevEvent[c[0].id := evt.id])
    case Append =>
      g.(prevEvent := g.prevEvent[evt.id := c[|c| - 1].id],
         ioEvents := (g.ioEvents - {a})[a := evt.id])
    case Middle =>
      g.(prevEvent := (g.prevEvent - {c[i].id})[c[i].id := evt.id][evt.id := c[i - 1].id])
  }

  /** Whether the splice drops the anchor's LAST_EVENT cache entry. */
  function Invalidates(c: seq<Event>, evt: Event): (r: bool)
    ensures r <==> c == [] || SpliceIndex(c, evt) == |c|
  {
    BranchOf(c, evt) == FirstEvent || BranchOf(c, evt) == Append
  }

  /** The LAST_EVENT cache entries left after the splice. */
  function SpliceLastEvent(cached: set<NodeId>, a: NodeId, c: seq<Event>, evt: Event): (r: set<NodeId>)
    ensures r <= cached && cached - r <= {a}
    ensures a in r <==> a in cached && !Invalidates(c, evt)
  {
    if Invalidates(c, evt) then cached - {a} else cached
  }

  // ---------------------------------------------------------------------------
  // Properties of the splice
  // ---------------------------------------------------------------------------

  lemma IdsInsert(c: seq<Event>, i: nat, evt: Event)
    requires i <= |c|
    ensures Ids(Insert(c, i, evt)) == Ids(c) + {evt.id}
  {
    var r := Insert(c, i, evt);
    assert c == c[..i] + c[i..];
    forall x | x in Ids(r) ensures x in Ids(c) + {evt.id} {
      var e :| e in r && e.id == x;
    }
    forall x | x in Ids(c) + {evt.id} ensures x in Ids(r) {
      if x != evt.id {
        var e :| e in c && e.id == x;
        assert e in r;
      } else {
        assert evt in r;
      }
    }
  }

  lemma InIdsAt(c: seq<Event>, x: NodeId) returns (k: nat)
    requires x in Ids(c)
    ensures k < |c| && c[k].id == x
  {
    var e :| e in c && e.id == x;
    k :| k < |c| && c[k] == e;
  }

  /** A fresh node is in no mirrored chain. */
  lemma FreshNotInChain(g: Graph, a: NodeId, c: seq<Event>, evt: Event)
    requires Mirrors(g, a, c) && FreshIn(g, evt)
    ensures evt.id !in Ids(c)
  {
    forall k | 0 <= k < |c| ensures c[k].id != evt.id {
      if k > 0 {
        assert c[k].id in g.prevEvent;
      } else if |c| > 1 {
        assert g.prevEvent[c[1].id] == c[0].id;
      } else {
        assert g.ioEvents[a] == c[0].id;
      }
    }
    forall e | e in c ensures e.id != evt.id {
      var k :| 0 <= k < |c| && c[k] == e;
    }
  }

  /** Inserting a fresh event keeps the ids distinct and the before_times right. */
  lemma InsertKeepsNodes(bt: map<NodeId, int>, c: seq<Event>, i: nat, evt: Event)
    requires i <= |c| && NodesOk(bt, c) && evt.id !in Ids(c)
    requires evt.id in bt && bt[evt.id] == evt.beforeTime
    ensures NodesOk(bt, Insert(c, i, evt))
  {
    var r := Insert(c, i, evt);
    InsertAt(c, i, evt);
    forall j, k | 0 <= j < k < |r| ensures r[j].id != r[k].id {
      if j == i {
        assert c[k - 1] in c;
      } else if k == i {
        assert c[j] in c;
      }
    }
  }

  /** A PREV_EVENT map that changes only at keys of the chain and of the new
      event, and had no edge into the new event, leaves no outside edge into
      the extended chain. */
  lemma ClosedAfterInsert(p: map<NodeId, NodeId>, p': map<NodeId, NodeId>, c: seq<Event>, i: nat, evt: Event)
    requires i <= |c| && Closed(p, c)
    requires forall x | x in p :: p[x] != evt.id
    requires forall x | x in p' && x !in Ids(c) && x != evt.id :: x in p && p'[x] == p[x]
    ensures Closed(p', Insert(c, i, evt))
  {
    IdsInsert(c, i, evt);
  }

  lemma LinkedPrepend(p: map<NodeId, NodeId>, c: seq<Event>, evt: Event)
    requires c != [] && DistinctIds(c) && Linked(p, c)
    ensures Linked(p[c[0].id := evt.id], Insert(c, 0, evt))
  {
    InsertAt(c, 0, evt);
  }

  lemma LinkedAppend(p: map<NodeId, NodeId>, c: seq<Event>, evt: Event)
    requires c != [] && Linked(p, c) && evt.id !in Ids(c)
    ensures Linked(p[evt.id := c[|c| - 1].id], Insert(c, |c|, evt))
  {
    InsertAt(c, |c|, evt);
    forall k | 0 <= k < |c| ensures c[k].id != evt.id {
      assert c[k] in c;
    }
  }

  /** The PREV_EVENT edges along the list after a mid-chain insertion. */
  lemma LinkedMiddle(p: map<NodeId, NodeId>, c: seq<Event>, i: nat, evt: Event)
    requires 0 < i < |c| && DistinctIds(c) && evt.id !in Ids(c) && Linked(p, c)
    ensures Linked((p - {c[i].id})[c[i].id := evt.id][evt.id := c[i - 1].id], Insert(c, i, evt))
  {
    var p' := (p - {c[i].id})[c[i].id := evt.id][evt.id := c[i - 1].id];
    var r := Insert(c, i, evt);
    InsertAt(c, i, evt);
    forall k | 0 < k < |r| ensures r[k].id in p' && p'[r[k].id] == r[k - 1].id {
      if k < i {
        assert c[k] in c;
      } else if k > i + 1 {
        assert c[k - 1] in c;
      }
    }
  }

  lemma {:induction false} MirrorFirstEvent(g: Graph, a: NodeId, evt: Event)
    requires Mirrors(g, a, []) && FreshIn(g, evt)
    ensures Mirrors(g.(ioEvents := g.ioEvents[a := evt.id]), a, Insert([], 0, evt))
  {
    assert Insert([], 0, evt) == [evt];
    assert Ids([evt]) == {evt.id};
  }

  lemma {:induction false} MirrorPrepend(g: Graph, a: NodeId, c: seq<Event>, evt: Event)
    requires c != [] && Mirrors(g, a, c) && FreshIn(g, evt)
    ensures Mirrors(g.(prevEvent := g.prevEvent[c[0].id := evt.id]), a, Insert(c, 0, evt))
  {
    var p' := g.prevEvent[c[0].id := evt.id];
    FreshNotInChain(g, a, c, evt);
    InsertKeepsNodes(g.beforeTimes, c, 0, evt);
    LinkedPrepend(g.prevEvent, c, evt);
    assert c[0] in c;
    ClosedAfterInsert(g.prevEvent, p', c, 0, evt);
    InsertAt(c, 0, evt);
  }

  lemma {:induction false} MirrorAppend(g: Graph, a: NodeId, c: seq<Event>, evt: Event)
    requires c != [] && Mirrors(g, a, c) && FreshIn(g, evt)
    ensures Mirrors(g.(prevEvent := g.prevEvent[evt.id := c[|c| - 1].id],
                       ioEvents := (g.ioEvents - {a})[a := evt.id]), a, Insert(c, |c|, evt))
  {
    var p' := g.prevEvent[evt.id := c[|c| - 1].id];
    FreshNotInChain(g, a, c, evt);
    InsertKeepsNodes(g.beforeTimes, c, |c|, evt);
    LinkedAppend(g.prevEvent, c, evt);
    assert c[0] in c;
    ClosedAfterInsert(g.prevEvent, p', c, |c|, evt);
    InsertAt(c, |c|, evt);
  }

  lemma {:induction false} MirrorMiddle(g: Graph, a: NodeId, c: seq<Event>, i: nat, evt: Event)
    requires 0 < i < |c| && Mirrors(g, a, c) && FreshIn(g, evt)
    ensures Mirrors(g.(prevEvent := (g.prevEvent - {c[i].id})[c[i].id := evt.id][evt.id := c[i - 1].id]),
                    a, Insert(c, i, evt))
  {
    var p' := (g.prevEvent - {c[i].id})[c[i].id := evt.id][evt.id := c[i - 1].id];
    FreshNotInChain(g, a, c, evt);
    InsertKeepsNodes(g.beforeTimes, c, i, evt);
    LinkedMiddle(g.prevEvent, c, i, evt);
    assert c[0] in c && c[i] in c;
    ClosedAfterInsert(g.prevEvent, p', c, i, evt);
    InsertAt(c, i, evt);
  }

  /** `x` goes in at index `i`, everything before `i` is no greater than it
      and everything from `i` on is greater: the result stays sorted. */
  lemma InsertKeepsSorted(ks: seq<int>, i: nat, x: int)
    requires i <= |ks| && Sorted(ks)
    requires forall j | 0 <= j < i :: ks[j] <= x
    requires forall j | i <= j < |ks| :: ks[j] > x
    ensures Sorted(Insert(ks, i, x))
  {
    InsertAt(ks, i, x);
  }

  lemma TimeKeysInsert(c: seq<Event>, i: nat, evt: Event)
    requires i <= |c|
    ensures TimeKeys(Insert(c, i, evt)) == Insert(TimeKeys(c), i, evt.beforeTime)
  {
    InsertAt(c, i, evt);
    InsertAt(TimeKeys(c), i, evt.beforeTime);
  }

  /** The splice puts `evt` exactly at the index the search returned, keeps the
      relative order of the other events, and keeps the list sorted by
      before_time when it was sorted. */
  lemma {:induction false} SpliceKeepsOrder(c: seq<Event>, evt: Event)
    requires Sorted(TimeKeys(c))
    ensures var r := Spliced(c, evt); var i := SpliceIndex(c, evt);
      && r[i] == evt && r[..i] == c[..i] && r[i + 1..] == c[i..]
      && Sorted(TimeKeys(r))
  {
    var i := SpliceIndex(c, evt);
    TimeKeysInsert(c, i, evt);
    InsertKeepsSorted(TimeKeys(c), i, evt.beforeTime);
  }

  /** Every branch of the splice keeps the list and the graph isomorphic. */
  lemma {:induction false} SplicePreservesMirror(g: Graph, a: NodeId, c: seq<Event>, evt: Event)
    requires Mirrors(g, a, c) && FreshIn(g, evt)
    ensures Mirrors(SpliceGraph(g, a, c, evt), a, Spliced(c, evt))
  {
    var i := SpliceIndex(c, evt);
    match BranchOf(c, evt)
    case FirstEvent =>
      MirrorFirstEvent(g, a, evt);
    case Prepend =>
      MirrorPrepend(g, a, c, evt);
    case Append =>
      MirrorAppend(g, a, c, evt);
    case Middle =>
      MirrorMiddle(g, a, c, i, evt);
  }

  /** The splice redirects PREV_EVENT only at keys of the chain and of `evt`,
      IO_EVENTS only at the anchor, and no before_time. */
  lemma SpliceTouchesOnlyChain(g: Graph, a: NodeId, c: seq<Event>, evt: Event)
    ensures var g' := SpliceGraph(g, a, c, evt);
      && g'.beforeTimes == g.beforeTimes
      && (forall b | b in g.ioEvents && b != a :: b in g'.ioEvents && g'.ioEvents[b] == g.ioEvents[b])
      && (forall b | b in g'.ioEvents && b != a :: b in g.ioEvents)
      && (forall x | x in g.prevEvent && x !in Ids(c) && x != evt.id ::
            x in g'.prevEvent && g'.prevEvent[x] == g.prevEvent[x])
      && (forall x | x in g'.prevEvent && x !in Ids(c) && x != evt.id :: x in g.prevEvent)
  {
    if c != [] {
      assert c[0] in c && c[|c| - 1] in c;
      var i := SpliceIndex(c, evt);
      if 0 < i < |c| { assert c[i] in c; }
    }
  }

  /** A graph change that touches PREV_EVENT only at keys in `s`, keeps
      `s`-keys pointing into `s`, and keeps the anchor `b` and the
      before_times, leaves a chain disjoint from `s` mirrored. */
  lemma {:induction false} MirrorsFrame(g: Graph, g': Graph, b: NodeId, d: seq<Event>, s: set<NodeId>)
    requires Mirrors(g, b, d) && Ids(d) !! s
    requires forall x | x !in s :: (x in g.prevEvent <==> x in g'.prevEvent)
    requires forall x | x !in s && x in g.prevEvent :: g'.prevEvent[x] == g.prevEvent[x]
    requires forall x | x in s && x in g'.prevEvent :: g'.prevEvent[x] in s
    requires (b in g'.ioEvents <==> b in g.ioEvents) && (b in g.ioEvents ==> g'.ioEvents[b] == g.ioEvents[b])
    requires g'.beforeTimes == g.beforeTimes
    ensures Mirrors(g', b, d)
  {
    forall k | 0 <= k < |d| ensures d[k].id !in s {
      assert d[k] in d;
    }
    forall x | x in g'.prevEvent && g'.prevEvent[x] in Ids(d) ensures x in Ids(d) {
      if x !in s {
        assert g.prevEvent[x] in Ids(d);
      }
    }
  }

  /** The PREV_EVENT edges leaving a mirrored chain's events stay inside it. */
  lemma ChainEdgesInside(p: map<NodeId, NodeId>, r: seq<Event>)
    requires Linked(p, r) && Headless(p, r)
    ensures forall x | x in p && x in Ids(r) :: p[x] in Ids(r)
  {
    forall x | x in p && x in Ids(r) ensures p[x] in Ids(r) {
      var k := InIdsAt(r, x);
      assert k > 0;
      assert r[k - 1] in r;
    }
  }

  /** A splice into one chain leaves every other chain whose events and anchor
      are disjoint from it isomorphic to the graph too. */
  lemma {:induction false} SpliceFrame(g: Graph, a: NodeId, c: seq<Event>, evt: Event, b: NodeId, d: seq<Event>)
    requires Mirrors(g, a, c) && Mirrors(g, b, d) && FreshIn(g, evt)
    requires a != b && Ids(c) !! Ids(d)
    ensures Mirrors(SpliceGraph(g, a, c, evt), b, d)
  {
    var g' := SpliceGraph(g, a, c, evt);
    var r := Spliced(c, evt);
    SplicePreservesMirror(g, a, c, evt);
    ChainEdgesInside(g'.prevEvent, r);
    FreshNotInChain(g, b, d, evt);
    IdsInsert(c, SpliceIndex(c, evt), evt);
    SpliceTouchesOnlyChain(g, a, c, evt);
    MirrorsFrame(g, g', b, d, Ids(c) + {evt.id});
  }

  /** The LAST_EVENT entry of the anchor is dropped exactly when the newest
      event of the chain changes. */
  lemma {:induction false} InvalidationTracksNewest(c: seq<Event>, evt: Event)
    requires evt !in c
    ensures var r := Spliced(c, evt);
      Invalidates(c, evt) <==> (c == [] || r[|r| - 1] != c[|c| - 1])
  {
    var r := Spliced(c, evt);
    var i := SpliceIndex(c, evt);
    if c != [] {
      assert c[|c| - 1] in c;
      if i == |c| {
        assert r[|r| - 1] == evt;
      } else {
        assert r[|r| - 1] == r[i + 1..][|c| - 1 - i];
      }
    }
  }

  /** Splicing a sequence of events into an empty chain, in arrival order. */
  function SpliceAll(arrivals: seq<Event>): (c: seq<Event>)
  {
    if arrivals == [] then [] else Spliced(SpliceAll(arrivals[..|arrivals| - 1]), arrivals[|arrivals| - 1])
  }

  /** Whatever the arrival order, the chain read oldest-first is sorted by
      before_time. */
  lemma {:induction false} SpliceAllSorted(arrivals: seq<Event>)
    ensures Sorted(TimeKeys(SpliceAll(arrivals)))
  {
    if arrivals != [] {
      var front := arrivals[..|arrivals| - 1];
      SpliceAllSorted(front);
      SpliceKeepsOrder(SpliceAll(front), arrivals[|arrivals| - 1]);
    }
  }

  /** The chain holds exactly the events that arrived, each once. */
  lemma {:induction false} SpliceAllPermutes(arrivals: seq<Event>)
    ensures multiset(SpliceAll(arrivals)) == multiset(arrivals)
  {
    if arrivals != [] {
      var front := arrivals[..|arrivals| - 1];
      var last := arrivals[|arrivals| - 1];
      SpliceAllPermutes(front);
      MultisetOfFrontAndLast(arrivals);
      var c := SpliceAll(front);
      assert multiset(Spliced(c, last)) == multiset(c) + multiset{last};
    }
  }

  // ---------------------------------------------------------------------------
  // The loader (load_cache): the query rows and the lists rebuilt from them
  // ---------------------------------------------------------------------------

  predicate Matches(l: Local, procId: NodeId, name: string) {
    l.procId == procId && l.name == name
  }

  /** The locals of process `procId` named `name`, in store order. */
  function Candidates(locals: seq<Local>, procId: NodeId, name: string): (r: seq<Local>)
    ensures forall l | l in r :: l in locals && Matches(l, procId, name)
    ensures forall l | l in locals && Matches(l, procId, name) :: l in r
  {
    if locals == [] then []
    else if Matches(locals[0], procId, name) then [locals[0]] + Candidates(locals[1..], procId, name)
    else Candidates(locals[1..], procId, name)
  }

  function MonoKeys(ls: seq<Local>): (ks: seq<int>)
    ensures |ks| == |ls| && forall k | 0 <= k < |ls| :: ks[k] == ls[k].monoTime
  {
    seq(|ls|, k requires 0 <= k < |ls| => ls[k].monoTime)
  }

  /** Ascending by mono_time. */
  predicate SortedByMono(ls: seq<Local>) {
    forall j, k | 0 <= j < k < |ls| :: ls[j].monoTime <= ls[k].monoTime
  }

  /** Places `l` before the first local of `s` with a later mono_time. */
  function InsertByMono(l: Local, s: seq<Local>): (r: seq<Local>)
    ensures multiset(r) == multiset(s) + multiset{l}
    ensures forall x | x in r :: x == l || x in s
  {
    if s == [] || l.monoTime <= s[0].monoTime then [l] + s
    else
      assert s == [s[0]] + s[1..];
      [s[0]] + InsertByMono(l, s[1..])
  }

  /** A local no later than every element of a sorted list keeps it sorted
      when put in front. */
  lemma ConsSortedByMono(x: Local, rest: seq<Local>)
    requires SortedByMono(rest) && forall y | y in rest :: x.monoTime <= y.monoTime
    ensures SortedByMono([x] + rest)
  {
    var r := [x] + rest;
    forall j, k | 0 <= j < k < |r| ensures r[j].monoTime <= r[k].monoTime {
      assert r[k] == rest[k - 1];
      if j == 0 {
        assert rest[k - 1] in rest;
      } else {
        assert r[j] == rest[j - 1];
      }
    }
  }

  lemma {:induction false} InsertByMonoSorted(l: Local, s: seq<Local>)
    requires SortedByMono(s)
    ensures SortedByMono(InsertByMono(l, s))
  {
    if s == [] || l.monoTime <= s[0].monoTime {
      if s != [] {
        forall y | y in s ensures l.monoTime <= y.monoTime {
          var m :| 0 <= m < |s| && s[m] == y;
        }
      }
      ConsSortedByMono(l, s);
    } else {
      var rest := InsertByMono(l, s[1..]);
      InsertByMonoSorted(l, s[1..]);
      forall x | x in rest ensures s[0].monoTime <= x.monoTime {
        if x != l {
          var m :| 0 <= m < |s[1..]| && s[1..][m] == x;
          assert s[m + 1] == x;
        }
      }
      ConsSortedByMono(s[0], rest);
    }
  }

  /** The rows' ORDER BY mono_time, as a stable insertion sort. */
  function SortByMono(s: seq<Local>): (r: seq<Local>)
    ensures multiset(r) == multiset(s) && SortedByMono(r)
  {
    if s == [] then [] else
      assert s == [s[0]] + s[1..];
      InsertByMonoSorted(s[0], SortByMono(s[1..]));
      InsertByMono(s[0], SortByMono(s[1..]))
  }

  /** The locals the query returns for one resource, ascending by mono_time. */
  function QueryLocals(locals: seq<Local>, procId: NodeId, name: string): (r: seq<Local>)
    ensures SortedByMono(r)
    ensures forall l | l in r :: l in locals && Matches(l, procId, name)
  {
    var c := Candidates(locals, procId, name);
    var q := SortByMono(c);
    assert forall l | l in q :: l in c by {
      forall l | l in q ensures l in c { assert l in multiset(q); }
    }
    q
  }

  lemma QueryLocalsAre(locals: seq<Local>, procId: NodeId, name: string)
    ensures var q := QueryLocals(locals, procId, name);
      && Sorted(MonoKeys(q))
      && forall l :: l in q <==> l in locals && Matches(l, procId, name)
  {
    var c := Candidates(locals, procId, name);
    var q := QueryLocals(locals, procId, name);
    assert SortedByMono(q);
    forall l ensures l in q <==> l in c {
      assert l in q <==> l in multiset(q);
    }
  }

  /** The anchor an event at time `t` belongs to: the local just before the
      first whose mono_time exceeds `t`; none when the event precedes them all. */
  function Target(locals: seq<Local>, procId: NodeId, name: string, t: int): (r: Option<Local>)
    ensures r.Some? ==> r.value in locals
  {
    var q := QueryLocals(locals, procId, name);
    QueryLocalsInStore(locals, procId, name);
    var j := FindIndex(MonoKeys(q), t);
    if j == 0 then None else Some(q[j - 1])
  }

  /** The chosen anchor is a local of the resource opened no later than the
      event, and no other such local was opened later than it; there is none
      exactly when every local of the resource was opened after the event. */
  lemma {:induction false} TargetIsNearestBelow(locals: seq<Local>, procId: NodeId, name: string, t: int)
    ensures Target(locals, procId, name, t).None? <==>
      forall l | l in locals && Matches(l, procId, name) :: l.monoTime > t
    ensures Target(locals, procId, name, t).Some? ==>
      var l := Target(locals, procId, name, t).value;
      && l in locals && Matches(l, procId, name) && l.monoTime <= t
      && forall l' | l' in locals && Matches(l', procId, name) && l'.monoTime <= t :: l'.monoTime <= l.monoTime
  {
    var q := QueryLocals(locals, procId, name);
    var ks := MonoKeys(q);
    var j := FindIndex(ks, t);
    QueryLocalsAre(locals, procId, name);
    if j > 0 {
      assert q[j - 1] in q;
    }
    forall l' | l' in locals && Matches(l', procId, name) && l'.monoTime <= t
      ensures j > 0 && l'.monoTime <= q[j - 1].monoTime
    {
      assert l' in q;
      var k :| 0 <= k < |q| && q[k] == l';
      assert ks[k] <= t;
      assert k < j;
      if k < j - 1 {
        assert ks[k] <= ks[j - 1];
      }
    }
  }

  /** The PREV_EVENT path from `x` down to the oldest event, newest first, as
      the query's `NODES(p)`.  Each step drops the edge it followed, so the
      walk ends even on a graph with a cycle. */
  function PathFrom(prev: map<NodeId, NodeId>, bt: map<NodeId, int>, x: NodeId): (p: seq<Event>)
    ensures |p| >= 1 && p[0].id == x
    decreases |prev|
  {
    var e := Event(x, if x in bt then bt[x] else 0);
    if x in prev then
      assert (prev - {x}).Keys == prev.Keys - {x};
      [e] + PathFrom(prev - {x}, bt, prev[x])
    else [e]
  }

  /** The row of local `a`: the path from its IO_EVENTS target, or None when
      it has no IO_EVENTS relationship. */
  function NodesOf(g: Graph, a: NodeId): Option<seq<Event>> {
    if a in g.ioEvents then Some(PathFrom(g.prevEvent, g.beforeTimes, g.ioEvents[a])) else None
  }

  /** The list load_cache builds from one row: each node inserted at the
      front, so the path read newest first becomes the list oldest first. */
  function LoadedChain(nodes: Option<seq<Event>>): seq<Event> {
    match nodes
    case None => []
    case Some(p) => Reverse(p)
  }

  /** A row without nodes gives an empty list; otherwise the list is as long
      as the row, and read from its newest end it is the row. */
  lemma LoadedChainReverses(nodes: Option<seq<Event>>)
    ensures nodes.None? ==> LoadedChain(nodes) == []
    ensures nodes.Some? ==> |LoadedChain(nodes)| == |nodes.value| && Reverse(LoadedChain(nodes)) == nodes.value
  {
    if nodes.Some? {
      ReverseInvolutive(nodes.value);
    }
  }

  lemma {:induction false} PathReversesPrefix(prev: map<NodeId, NodeId>, bt: map<NodeId, int>, c: seq<Event>, k: nat)
    requires k < |c| && DistinctIds(c)
    requires forall j | 0 < j <= k :: c[j].id in prev && prev[c[j].id] == c[j - 1].id
    requires c[0].id !in prev
    requires forall j | 0 <= j <= k :: c[j].id in bt && bt[c[j].id] == c[j].beforeTime
    ensures PathFrom(prev, bt, c[k].id) == Reverse(c[..k + 1])
  {
    if k == 0 {
      assert c[..1] == [] + [c[0]];
      ReverseSnoc([], c[0]);
    } else {
      var prev' := prev - {c[k].id};
      forall j | 0 < j <= k - 1 ensures c[j].id in prev' && prev'[c[j].id] == c[j - 1].id {
        assert c[j].id != c[k].id;
      }
      assert c[0].id !in prev';
      PathReversesPrefix(prev', bt, c, k - 1);
      assert c[..k + 1] == c[..k] + [c[k]];
      ReverseSnoc(c[..k], c[k]);
    }
  }

  /** load_cache gives back exactly the list the graph mirrors. */
  lemma {:induction false} LoadRoundTrip(g: Graph, a: NodeId, c: seq<Event>)
    requires Mirrors(g, a, c)
    ensures LoadedChain(NodesOf(g, a)) == c
  {
    if c != [] {
      PathReversesPrefix(g.prevEvent, g.beforeTimes, c, |c| - 1);
      assert c[..|c|] == c;
      ReverseInvolutive(c);
    }
  }

  // ---------------------------------------------------------------------------
  // Every chain of the store at once
  // ---------------------------------------------------------------------------

  /** Every chain mirrors the graph and is sorted, and no two chains share an
      event. */
  ghost predicate ChainsOk(g: Graph, chains: map<NodeId, seq<Event>>) {
    && (forall a | a in chains :: Mirrors(g, a, chains[a]) && Sorted(TimeKeys(chains[a])))
    && (forall a, b | a in chains && b in chains && a != b :: Ids(chains[a]) !! Ids(chains[b]))
  }

  /** Every event node the graph mentions has an id below `n`. */
  ghost predicate Below(g: Graph, n: NodeId) {
    && (forall x | x in g.prevEvent :: x < n && g.prevEvent[x] < n)
    && (forall a | a in g.ioEvents :: g.ioEvents[a] < n)
    && (forall x | x in g.beforeTimes :: x < n)
  }

  /** The graph after event_from_msg creates event node `n` with before_time `t`. */
  function AddEvent(g: Graph, n: NodeId, t: int): (r: Graph)
    ensures r.prevEvent == g.prevEvent && r.ioEvents == g.ioEvents
    ensures n in r.beforeTimes && r.beforeTimes[n] == t
    ensures forall x | x in g.beforeTimes && x != n :: x in r.beforeTimes && r.beforeTimes[x] == g.beforeTimes[x]
  {
    g.(beforeTimes := g.beforeTimes[n := t])
  }

  /** A node created with the next unused id is fresh and disturbs no chain. */
  lemma {:induction false} AddEventKeepsChains(g: Graph, chains: map<NodeId, seq<Event>>, n: NodeId, t: int)
    requires ChainsOk(g, chains) && Below(g, n)
    ensures ChainsOk(AddEvent(g, n, t), chains)
    ensures Below(AddEvent(g, n, t), n + 1) && FreshIn(AddEvent(g, n, t), Event(n, t))
  {
    var g' := AddEvent(g, n, t);
    forall a | a in chains ensures Mirrors(g', a, chains[a]) {
      var c := chains[a];
      forall k | 0 <= k < |c| ensures c[k].id in g'.beforeTimes && g'.beforeTimes[c[k].id] == c[k].beforeTime {
        assert c[k].id in g.beforeTimes;
      }
    }
  }

  /** Splicing a fresh event into one chain keeps every chain mirrored and
      sorted and the chains pairwise disjoint. */
  lemma {:induction false} SpliceKeepsChains(g: Graph, chains: map<NodeId, seq<Event>>, a: NodeId, evt: Event)
    requires ChainsOk(g, chains) && a in chains && FreshIn(g, evt)
    ensures ChainsOk(SpliceGraph(g, a, chains[a], evt), chains[a := Spliced(chains[a], evt)])
  {
    var c := chains[a];
    var g' := SpliceGraph(g, a, c, evt);
    var chains' := chains[a := Spliced(c, evt)];
    SplicePreservesMirror(g, a, c, evt);
    SpliceKeepsOrder(c, evt);
    IdsInsert(c, SpliceIndex(c, evt), evt);
    forall b | b in chains' ensures Mirrors(g', b, chains'[b]) && Sorted(TimeKeys(chains'[b])) {
      if b != a {
        SpliceFrame(g, a, c, evt, b, chains[b]);
      }
    }
    forall b, d | b in chains' && d in chains' && b != d ensures Ids(chains'[b]) !! Ids(chains'[d]) {
      if b == a {
        FreshNotInChain(g, d, chains[d], evt);
      } else if d == a {
        FreshNotInChain(g, b, chains[b], evt);
      }
    }
  }

  /** The splice only adds relationships between the new event and events
      of the chain, so every id stays below the next. */
  lemma SpliceKeepsBelow(g: Graph, a: NodeId, c: seq<Event>, evt: Event, n: NodeId)
    requires Below(g, n) && evt.id < n
    requires forall k | 0 <= k < |c| :: c[k].id in g.beforeTimes
    ensures Below(SpliceGraph(g, a, c, evt), n)
  {
    var g' := SpliceGraph(g, a, c, evt);
    var i := SpliceIndex(c, evt);
    var p := g.prevEvent;
    match BranchOf(c, evt)
    case FirstEvent =>
      assert g'.prevEvent == p && g'.ioEvents == g.ioEvents[a := evt.id];
    case Prepend =>
      assert c[0].id < n;
      assert g'.prevEvent == p[c[0].id := evt.id] && g'.ioEvents == g.ioEvents;
    case Append =>
      assert c[|c| - 1].id < n;
      assert g'.prevEvent == p[evt.id := c[|c| - 1].id] && g'.ioEvents == (g.ioEvents - {a})[a := evt.id];
    case Middle =>
      assert c[i].id < n && c[i - 1].id < n;
      assert g'.prevEvent == (p - {c[i].id})[c[i].id := evt.id][evt.id := c[i - 1].id];
      assert g'.ioEvents == g.ioEvents;
  }

  // ---------------------------------------------------------------------------
  // The message loop (process_aggregate_functions), as a function of the state
  // ---------------------------------------------------------------------------

  /** What became of one message's event. */
  datatype Outcome = Misplaced | Placed(anchor: NodeId, index: nat)

  /** The state the splicer reads and writes: the graph, the true chain of
      every anchor, the anchors holding a LAST_EVENT cache entry, and the next
      unused node id. */
  datatype Abs = Abs(graph: Graph, chains: map<NodeId, seq<Event>>, lastEvent: set<NodeId>, nextId: NodeId)

  /** What placing one event gives: its outcome and the new state. */
  datatype Placement = Placement(outcome: Outcome, state: Abs)

  /** What one message gives: an outcome or the exception it raised, and the
      new state. */
  datatype StepResult = StepResult(result: Result<Outcome, PyError>, state: Abs)

  /** What a batch gives: the outcomes in order, the exception that ended it
      early if any, and the final state. */
  datatype RunResult = RunResult(outs: seq<Outcome>, err: Option<PyError>, state: Abs)

  /** Where one event goes: it gets the next node id; without a target
      anchor it is misplaced, otherwise it is spliced into the anchor's list. */
  function Place(s: Abs, target: Option<Local>, t: int): (res: Placement)
    requires target.Some? ==> target.value.id in s.chains
    ensures res.state.chains.Keys == s.chains.Keys
  {
    var evt := Event(s.nextId, t);
    var g1 := AddEvent(s.graph, s.nextId, t);
    match target
    case None => Placement(Misplaced, s.(graph := g1, nextId := s.nextId + 1))
    case Some(l) =>
      var c := s.chains[l.id];
      Placement(Placed(l.id, SpliceIndex(c, evt)),
                Abs(SpliceGraph(g1, l.id, c, evt), s.chains[l.id := Spliced(c, evt)],
                    SpliceLastEvent(s.lastEvent, l.id, c, evt), s.nextId + 1))
  }

  /** What `Place` does without a target anchor. */
  lemma PlaceNone(s: Abs, t: int)
    ensures Place(s, None, t) ==
      Placement(Misplaced, s.(graph := AddEvent(s.graph, s.nextId, t), nextId := s.nextId + 1))
  {
  }

  /** What `Place` does with a target anchor. */
  lemma PlaceSome(s: Abs, l: Local, t: int)
    requires l.id in s.chains
    ensures var evt := Event(s.nextId, t); var c := s.chains[l.id];
      && Place(s, Some(l), t).outcome == Placed(l.id, SpliceIndex(c, evt))
      && Place(s, Some(l), t).state ==
           Abs(SpliceGraph(AddEvent(s.graph, s.nextId, t), l.id, c, evt), s.chains[l.id := Spliced(c, evt)],
               SpliceLastEvent(s.lastEvent, l.id, c, evt), s.nextId + 1)
  {
  }

  /** One message: find its descriptor (KeyError when the action table has
      none; a descriptor of None fails in the loader's query text with a
      TypeError), then place its event by the anchor it belongs to. */
  function Step(s: Abs, locals: seq<Local>, funcMap: map<string, ActionSpec>, procId: NodeId, msg: FuncMsg)
    : (res: StepResult)
    requires forall l | l in locals :: l.id in s.chains
    ensures res.state.chains.Keys == s.chains.Keys
  {
    var des := GetFdFromMsg(funcMap, msg);
    if des.Failure? then StepResult(Failure(des.error), s)
    else if des.value.None? then StepResult(Failure(TypeError), s)
    else
      var target := Target(locals, procId, des.value.value, msg.beginTime);
      var placed := Place(s, target, msg.beginTime);
      StepResult(Success(placed.outcome), placed.state)
  }

  /** The loop over a batch: messages in order, stopping at the first that
      raises. */
  function Run(s: Abs, locals: seq<Local>, funcMap: map<string, ActionSpec>, procId: NodeId, msgs: seq<FuncMsg>)
    : (res: RunResult)
    requires forall l | l in locals :: l.id in s.chains
    ensures res.state.chains.Keys == s.chains.Keys
    decreases |msgs|
  {
    if msgs == [] then RunResult([], None, s)
    else
      var step := Step(s, locals, funcMap, procId, msgs[0]);
      if step.result.Failure? then RunResult([], Some(step.result.error), step.state)
      else
        var rest := Run(step.state, locals, funcMap, procId, msgs[1..]);
        RunResult([step.result.value] + rest.outs, rest.err, rest.state)
  }

  ghost predicate AbsOk(s: Abs) {
    ChainsOk(s.graph, s.chains) && Below(s.graph, s.nextId)
  }

  /** Every message keeps every list isomorphic to the graph, sorted and
      disjoint from the others; a misplaced event changes no relationship and
      no list. */
  lemma {:induction false} StepKeepsChains(s: Abs, locals: seq<Local>, funcMap: map<string, ActionSpec>, procId: NodeId, msg: FuncMsg)
    requires AbsOk(s) && forall l | l in locals :: l.id in s.chains
    ensures AbsOk(Step(s, locals, funcMap, procId, msg).state)
    ensures Step(s, locals, funcMap, procId, msg).result == Success(Misplaced) ==>
      var s' := Step(s, locals, funcMap, procId, msg).state;
      && s'.chains == s.chains && s'.lastEvent == s.lastEvent
      && s'.graph.prevEvent == s.graph.prevEvent && s'.graph.ioEvents == s.graph.ioEvents
  {
    var des := GetFdFromMsg(funcMap, msg);
    if des.Success? && des.value.Some? {
      var t := msg.beginTime;
      var g1 := AddEvent(s.graph, s.nextId, t);
      AddEventKeepsChains(s.graph, s.chains, s.nextId, t);
      var target := Target(locals, procId, des.value.value, t);
      if target.Some? {
        TargetIsNearestBelow(locals, procId, des.value.value, t);
        var a := target.value.id;
        var evt := Event(s.nextId, t);
        SpliceKeepsChains(g1, s.chains, a, evt);
        SpliceKeepsBelow(g1, a, s.chains[a], evt, s.nextId + 1);
      }
    }
  }

  /** The whole batch keeps the invariant too. */
  lemma {:induction false} RunKeepsChains(s: Abs, locals: seq<Local>, funcMap: map<string, ActionSpec>, procId: NodeId, msgs: seq<FuncMsg>)
    requires AbsOk(s) && forall l | l in locals :: l.id in s.chains
    ensures AbsOk(Run(s, locals, funcMap, procId, msgs).state)
    decreases |msgs|
  {
    if msgs != [] {
      StepKeepsChains(s, locals, funcMap, procId, msgs[0]);
      var step := Step(s, locals, funcMap, procId, msgs[0]);
      if step.result.Success? {
        RunKeepsChains(step.state, locals, funcMap, procId, msgs[1..]);
      }
    }
  }

  // ---------------------------------------------------------------------------
  // The in-memory lists and the store, updated in place
  // ---------------------------------------------------------------------------

  /** One anchor with its list of events, oldest first. */
  class FdChain {
    const local: Local
    var chain: seq<Event>

    constructor(l: Local)
      ensures local == l && chain == []
    {
      local := l;
      chain := [];
    }
  }

  predicate DistinctLocalIds(ls: seq<Local>) {
    forall j, k | 0 <= j < k < |ls| :: ls[j].id != ls[k].id
  }

  /** The store without its caches: every chain mirrored and sorted, every
      id below the next, and one chain per local. */
  ghost predicate StoreOk(g: Graph, chains: map<NodeId, seq<Event>>, n: NodeId, locals: seq<Local>) {
    && ChainsOk(g, chains) && Below(g, n)
    && DistinctLocalIds(locals)
    && (forall l | l in locals :: l.id in chains)
  }

  /** Every local's list is what load_cache rebuilds from the graph. */
  lemma StoreLoads(g: Graph, chains: map<NodeId, seq<Event>>, n: NodeId, locals: seq<Local>, l: Local)
    requires StoreOk(g, chains, n, locals) && l in locals
    ensures l.id in chains && LoadedChain(NodesOf(g, l.id)) == chains[l.id]
  {
    LoadRoundTrip(g, l.id, chains[l.id]);
  }

  /** The splice of a fresh event keeps the store consistent. */
  lemma SpliceKeepsStore(g: Graph, chains: map<NodeId, seq<Event>>, n: NodeId, locals: seq<Local>,
                         a: NodeId, evt: Event)
    requires StoreOk(g, chains, n, locals) && a in chains && FreshIn(g, evt) && evt.id < n
    ensures StoreOk(SpliceGraph(g, a, chains[a], evt), chains[a := Spliced(chains[a], evt)], n, locals)
  {
    SpliceKeepsChains(g, chains, a, evt);
    assert NodesOk(g.beforeTimes, chains[a]);
    SpliceKeepsBelow(g, a, chains[a], evt, n);
  }

  /** Each cached index lists its resource's locals in query order and
      every list object in it, each cached list object belongs to a local of
      a cached resource, and one anchor has one list object. */
  ghost predicate CacheShape(locals: seq<Local>, ioChains: map<(NodeId, string), seq<FdChain>>, cached: set<FdChain>) {
    && (forall key | key in ioChains ::
          var q := QueryLocals(locals, key.0, key.1);
          && |ioChains[key]| == |q|
          && forall j | 0 <= j < |q| :: ioChains[key][j].local == q[j] && ioChains[key][j] in cached)
    && (forall o | o in cached :: o.local in locals && (o.local.procId, o.local.name) in ioChains)
    && (forall o, o' | o in cached && o' in cached && o.local.id == o'.local.id :: o == o')
  }

  /** Each cached list object holds its anchor's true list. */
  ghost predicate CacheSync(chains: map<NodeId, seq<Event>>, cached: set<FdChain>)
    reads cached
  {
    forall o | o in cached :: o.local.id in chains && o.chain == chains[o.local.id]
  }

  /** A message whose descriptor is known places its event at the local the
      descriptor names at the message's time. */
  lemma StepPlaces(s: Abs, locals: seq<Local>, funcMap: map<string, ActionSpec>, procId: NodeId,
                   msg: FuncMsg, name: string)
    requires forall l | l in locals :: l.id in s.chains
    requires GetFdFromMsg(funcMap, msg) == Success(Some(name))
    ensures var p := Place(s, Target(locals, procId, name, msg.beginTime), msg.beginTime);
      Step(s, locals, funcMap, procId, msg) == StepResult(Success(p.outcome), p.state)
  {
  }

  /** After the first `i` messages of a batch, the outcomes so far followed by
      the run of the rest from the current state make up the run of the whole. */
  ghost predicate RunFrom(s0: Abs, outs: seq<Outcome>, s: Abs, locals: seq<Local>,
                          funcMap: map<string, ActionSpec>, procId: NodeId, msgs: seq<FuncMsg>, i: nat)
  {
    && i <= |msgs|
    && (forall l | l in locals :: l.id in s0.chains)
    && (forall l | l in locals :: l.id in s.chains)
    && var tail := Run(s, locals, funcMap, procId, msgs[i..]);
       Run(s0, locals, funcMap, procId, msgs) == RunResult(outs + tail.outs, tail.err, tail.state)
  }

  lemma RunFromStart(s0: Abs, locals: seq<Local>, funcMap: map<string, ActionSpec>, procId: NodeId, msgs: seq<FuncMsg>)
    requires forall l | l in locals :: l.id in s0.chains
    ensures RunFrom(s0, [], s0, locals, funcMap, procId, msgs, 0)
  {
    assert msgs[0..] == msgs;
    assert [] + Run(s0, locals, funcMap, procId, msgs).outs == Run(s0, locals, funcMap, procId, msgs).outs;
  }

  lemma RunFromEnd(s0: Abs, outs: seq<Outcome>, s: Abs, locals: seq<Local>,
                   funcMap: map<string, ActionSpec>, procId: NodeId, msgs: seq<FuncMsg>)
    requires RunFrom(s0, outs, s, locals, funcMap, procId, msgs, |msgs|)
    ensures Run(s0, locals, funcMap, procId, msgs) == RunResult(outs, None, s)
  {
    assert msgs[|msgs|..] == [];
    assert outs + [] == outs;
  }

  /** One message further: a message that raises ends the run with what was
      produced so far; one that succeeds adds its outcome. */
  lemma RunAdvance(s0: Abs, outs: seq<Outcome>, before: Abs, after: Abs, locals: seq<Local>,
                   funcMap: map<string, ActionSpec>, procId: NodeId, msgs: seq<FuncMsg>, i: nat,
                   r: Result<Outcome, PyError>)
    requires i < |msgs| && RunFrom(s0, outs, before, locals, funcMap, procId, msgs, i)
    requires Step(before, locals, funcMap, procId, msgs[i]) == StepResult(r, after)
    ensures r.Failure? ==> Run(s0, locals, funcMap, procId, msgs) == RunResult(outs, Some(r.error), after)
    ensures r.Success? ==> RunFrom(s0, outs + [r.value], after, locals, funcMap, procId, msgs, i + 1)
  {
    var tail := Run(before, locals, funcMap, procId, msgs[i..]);
    assert msgs[i..][0] == msgs[i] && msgs[i..][1..] == msgs[i + 1..];
    if r.Failure? {
      assert tail == RunResult([], Some(r.error), after);
      assert outs + [] == outs;
    } else {
      var rest := Run(after, locals, funcMap, procId, msgs[i + 1..]);
      assert tail == RunResult([r.value] + rest.outs, rest.err, rest.state);
      assert outs + ([r.value] + rest.outs) == (outs + [r.value]) + rest.outs;
    }
  }

  /** The locals the query returns for a resource are locals of the store
      belonging to it. */
  lemma QueryLocalsInStore(locals: seq<Local>, procId: NodeId, name: string)
    ensures var q := QueryLocals(locals, procId, name);
      forall k | 0 <= k < |q| :: q[k] in locals && Matches(q[k], procId, name)
  {
    var q := QueryLocals(locals, procId, name);
    QueryLocalsAre(locals, procId, name);
    forall k | 0 <= k < |q| ensures q[k] in locals && Matches(q[k], procId, name) {
      assert q[k] in q;
    }
  }

  /** Two locals of the store with the same id are the same local. */
  lemma SameIdSameLocal(locals: seq<Local>, l1: Local, l2: Local)
    requires DistinctLocalIds(locals) && l1 in locals && l2 in locals
    ensures l1.id == l2.id ==> l1 == l2
  {
    var j :| 0 <= j < |locals| && locals[j] == l1;
    var k :| 0 <= k < |locals| && locals[k] == l2;
  }
}
