/**
 * The state every node of the graph carries (actchain/chains/base.py): its
 * queue, its ordered parent and child lists (the `Connection`), its status and
 * its last emitted / triggered / handled events, plus the state particular to
 * each kind of node. Nodes live in an arena (a sequence indexed by position);
 * an edge is the index of the node at its other end.
 */
module Nodes {
  import opened Events

  /** The status machine of a chainable. */
  datatype Status = Running | Stopping | Error

  /** A task started by a concurrent or exclusive chain: the event its handler works on, and whether it has finished. */
  datatype Task = Task(event: Event, done: bool)

  /** Junction and accompany modes; any other string is accepted at construction and fails when used. */
  datatype JunctionMode = All | Any | OtherJunctionMode(junctionModeName: string)
  datatype AccompanyMode = Flat | Nested | OtherAccompanyMode(accompanyModeName: string)

  /**
   * What kind of node this is, with the state only that kind has.
   *   FunctionKind                 sequential FunctionChain
   *   ConcurrentKind(inFlight)     ConcurrentFunctionChain; the handler tasks it has
   *                                started and that have not completed yet
   *   ExclusiveKind(slot)          ExclusiveFunctionChain and its `_task` slot
   *   JunctionKind                 mode, `_last_events`, whether a transform_fn was given
   *   AccompanyKind                the secondary node, mode, whether a transform_fn was given
   *   PassThroughKind(callback)    whether an on_handle_cb was given
   *   SamplingKind                 interval and `_last_emit_ts`
   *   LoopKind(done)               LoopChain and its `_done` flag
   *   FlowKind                     the layers, the anchor and the freeze flag of a Flow
   */
  datatype Kind =
    | FunctionKind
    | ConcurrentKind(inFlight: seq<Event>)
    | ExclusiveKind(slot: Option<Task>)
    | JunctionKind(junctionMode: JunctionMode, lastEvents: map<string, Event>, junctionTransform: bool)
    | AccompanyKind(secondary: nat, accompanyMode: AccompanyMode, accompanyTransform: bool)
    | PassThroughKind(callback: bool)
    | SamplingKind(interval: int, lastEmitTs: Option<int>)
    | LoopKind(done: bool)
    | FlowKind(layers: seq<seq<nat>>, anchor: Option<nat>, frozen: bool)

  datatype Node = Node(
    name: string,
    queue: seq<Event>,
    parents: seq<nat>,
    children: seq<nat>,
    status: Status,
    lastEmit: Option<Event>,
    lastTrigger: Option<Event>,
    lastHandle: Option<Event>,
    kind: Kind)

  /** What a node's `_on_handle` leaves behind: its new state, and what it returned or that it raised. */
  datatype Handled = Handled(node: Node, result: Result<Option<Payload>>)

  /** Nodes that run the dequeue-handle-emit loop of `Chain`. */
  predicate IsChain(k: Kind) { !k.LoopKind? && !k.FlowKind? }

  /** Every node that is not a Flow. */
  predicate IsLeaf(k: Kind) { !k.FlowKind? }

  /** The kinds a Flow accepts as its anchor. */
  predicate IsAnchorKind(k: Kind) { k.JunctionKind? || k.PassThroughKind? }

  /** The kind-specific state a freshly constructed node starts with. */
  predicate InitialKind(k: Kind) {
    match k
    case FunctionKind => true
    case ConcurrentKind(inFlight) => inFlight == []
    case ExclusiveKind(slot) => slot == None
    case JunctionKind(_, lastEvents, _) => lastEvents == map[]
    case AccompanyKind(_, _, _) => true
    case PassThroughKind(_) => true
    case SamplingKind(_, lastEmitTs) => lastEmitTs == None
    case LoopKind(done) => !done
    case FlowKind(layers, _, frozen) => layers == [] && !frozen
  }

  /** A node as its constructor leaves it: status STOPPING, empty queue, no edges, no last events. */
  function Fresh(name: string, kind: Kind): Node {
    Node(name, [], [], [], Stopping, None, None, None, kind)
  }

  /** `Chainable.trigger` on an Event: record it as the last triggered event and enqueue it. */
  function TriggerNode(n: Node, e: Event): Node {
    n.(queue := n.queue + [e], lastTrigger := Some(e))
  }

  /** `Chainable.chain` between two non-Flow nodes: p gains child c, then c gains parent p. */
  function Connect(s: seq<Node>, p: nat, c: nat): (r: seq<Node>)
    requires p < |s| && c < |s|
  {
    var s1 := s[p := s[p].(children := s[p].children + [c])];
    s1[c := s1[c].(parents := s1[c].parents + [p])]
  }

  /**
   * `k` and `k2` are the same kind of node with the same fixed configuration;
   * only their running state may differ, and a Junction's stored events stay
   * filed under their producers' names.
   */
  predicate SameKind(k: Kind, k2: Kind) {
    match k
    case FunctionKind => k2.FunctionKind?
    case ConcurrentKind(_) => k2.ConcurrentKind?
    case ExclusiveKind(_) => k2.ExclusiveKind?
    case JunctionKind(mode, lastEvents, transform) =>
      && k2.JunctionKind? && k2.junctionMode == mode && k2.junctionTransform == transform
      && (Keyed(lastEvents) ==> Keyed(k2.lastEvents))
    case AccompanyKind(_, _, _) => k2 == k
    case PassThroughKind(_) => k2 == k
    case SamplingKind(interval, _) => k2.SamplingKind? && k2.interval == interval
    case LoopKind(_) => k2.LoopKind?
    case FlowKind(_, _, _) => k2 == k
  }

  /** `xs` has no repeated element. */
  predicate NoDup<T(==)>(xs: seq<T>) {
    forall a, b | 0 <= a < b < |xs| :: xs[a] != xs[b]
  }

  /** Every index in `ts` points into an arena of `n` nodes. */
  predicate Within(ts: seq<nat>, n: nat) {
    forall k | 0 <= k < |ts| :: ts[k] < n
  }

  /** Every edge of `n` points into an arena of `size` nodes. */
  predicate EdgesWithin(n: Node, size: nat) {
    (forall p | p in n.parents :: p < size) && (forall c | c in n.children :: c < size)
  }

  /**
   * The references a kind holds are valid, and a Junction files its stored
   * events under their producers' names; an accompany's secondary exists; a
   * Flow's layers hold existing non-Flow nodes, its anchor is a Junction or
   * PassThrough node, and once frozen its last layer is exactly its anchor.
   */
  predicate KindOk(s: seq<Node>, k: Kind) {
    match k
    case JunctionKind(_, lastEvents, _) => Keyed(lastEvents)
    case AccompanyKind(secondary, _, _) => secondary < |s|
    case FlowKind(layers, anchor, frozen) =>
      && (forall l, m | l in layers && m in l :: m < |s| && IsLeaf(s[m].kind))
      && (anchor.Some? ==> anchor.value < |s| && IsAnchorKind(s[anchor.value].kind))
      && (frozen ==> |layers| > 0 && anchor.Some? && layers[|layers| - 1] == [anchor.value])
    case _ => true
  }

  /** Every event a Junction stores is filed under its producer's name. */
  predicate Keyed(stored: map<string, Event>) {
    forall k | k in stored :: stored[k].name == k
  }

  predicate NodeOk(s: seq<Node>, n: Node) {
    EdgesWithin(n, |s|) && KindOk(s, n.kind)
  }

  /** The arena invariant. */
  predicate WellFormed(s: seq<Node>) {
    forall i {:trigger NodeOk(s, s[i])} | 0 <= i < |s| :: NodeOk(s, s[i])
  }

  /** `s2` differs from `s` only in running state: same nodes, names, edges and kinds. */
  predicate Frame(s: seq<Node>, s2: seq<Node>) {
    && |s2| == |s|
    && forall j | 0 <= j < |s| ::
         && s2[j].name == s[j].name
         && s2[j].parents == s[j].parents
         && s2[j].children == s[j].children
         && SameKind(s[j].kind, s2[j].kind)
  }

  /** `s2` has the nodes of `s` with the same names and kinds; edges may differ. */
  predicate Alike(s: seq<Node>, s2: seq<Node>) {
    && |s2| == |s|
    && forall j | 0 <= j < |s| :: s2[j].name == s[j].name && SameKind(s[j].kind, s2[j].kind)
  }

  /** A Flow's layers hold existing non-Flow nodes. */
  lemma LayerWithin(s: seq<Node>, f: nat, l: nat)
    requires WellFormed(s) && f < |s| && s[f].kind.FlowKind? && l < |s[f].kind.layers|
    ensures var ms := s[f].kind.layers[l];
      Within(ms, |s|) && forall k | 0 <= k < |ms| :: IsLeaf(s[ms[k]].kind)
  {
    assert NodeOk(s, s[f]);
    var ms := s[f].kind.layers[l];
    assert ms in s[f].kind.layers;
    forall k | 0 <= k < |ms| ensures ms[k] < |s| && IsLeaf(s[ms[k]].kind) {
      assert ms[k] in ms;
    }
  }

  /** A Flow's anchor, once it has one, is an existing Junction or PassThrough node. */
  lemma AnchorWithin(s: seq<Node>, f: nat)
    requires WellFormed(s) && f < |s| && s[f].kind.FlowKind?
    ensures var a := s[f].kind.anchor;
      && (s[f].kind.frozen ==> a.Some?)
      && (a.Some? ==> a.value < |s| && IsAnchorKind(s[a.value].kind))
  {
    assert NodeOk(s, s[f]);
  }

  /**
   * Replacing a Flow's layers, anchor or freeze flag by ones whose references are
   * valid keeps the arena well formed: no other node's validity depends on them.
   */
  lemma SetFlowWellFormed(s: seq<Node>, f: nat, k: Kind)
    requires WellFormed(s) && f < |s| && s[f].kind.FlowKind? && k.FlowKind? && KindOk(s, k)
    ensures WellFormed(s[f := s[f].(kind := k)])
  {
    var s2 := s[f := s[f].(kind := k)];
    forall j | 0 <= j < |s2| ensures NodeOk(s2, s2[j]) {
      assert NodeOk(s, s[j]);
      if j != f {
        match s[j].kind
        case FlowKind(layers, anchor, frozen) =>
          forall l, m | l in layers && m in l ensures m < |s2| && IsLeaf(s2[m].kind) {
          }
          if anchor.Some? {
            assert IsAnchorKind(s2[anchor.value].kind);
          }
        case _ =>
      } else {
        forall l, m | l in k.layers && m in l ensures m < |s2| && IsLeaf(s2[m].kind) {
        }
        if k.anchor.Some? {
          assert IsAnchorKind(s2[k.anchor.value].kind);
        }
      }
    }
  }

  /** Marking a Flow frozen keeps the arena well formed once its last layer is exactly its anchor. */
  lemma FrozenWellFormed(s: seq<Node>, f: nat)
    requires WellFormed(s) && f < |s| && s[f].kind.FlowKind?
    requires var k := s[f].kind; k.layers != [] && k.anchor.Some? && k.layers[|k.layers| - 1] == [k.anchor.value]
    ensures WellFormed(s[f := s[f].(kind := s[f].kind.(frozen := true))])
  {
    assert NodeOk(s, s[f]);
    SetFlowWellFormed(s, f, s[f].kind.(frozen := true));
  }

  lemma SameKindTrans(a: Kind, b: Kind, c: Kind)
    requires SameKind(a, b) && SameKind(b, c)
    ensures SameKind(a, c)
  {
  }

  lemma FrameRefl(s: seq<Node>)
    ensures Frame(s, s)
  {
    forall j | 0 <= j < |s| ensures SameKind(s[j].kind, s[j].kind) {
    }
  }

  /** Changing one node's running state, but not its name, edges or kind, keeps the frame. */
  lemma FrameUpdate(s: seq<Node>, i: nat, n: Node)
    requires i < |s|
    requires n.name == s[i].name && n.parents == s[i].parents && n.children == s[i].children
    requires SameKind(s[i].kind, n.kind)
    ensures Frame(s, s[i := n])
  {
    FrameRefl(s);
  }

  lemma FrameTrans(s: seq<Node>, s2: seq<Node>, s3: seq<Node>)
    requires Frame(s, s2) && Frame(s2, s3)
    ensures Frame(s, s3)
  {
    forall j | 0 <= j < |s| ensures SameKind(s[j].kind, s3[j].kind) {
      SameKindTrans(s[j].kind, s2[j].kind, s3[j].kind);
    }
  }

  lemma AlikeTrans(s: seq<Node>, s2: seq<Node>, s3: seq<Node>)
    requires Alike(s, s2) && Alike(s2, s3)
    ensures Alike(s, s3)
  {
    forall j | 0 <= j < |s| ensures SameKind(s[j].kind, s3[j].kind) {
      SameKindTrans(s[j].kind, s2[j].kind, s3[j].kind);
    }
  }

  /** The references a kind holds stay valid when the nodes keep their kinds. */
  lemma AlikeKindOk(s: seq<Node>, s2: seq<Node>, k: Kind)
    requires Alike(s, s2) && KindOk(s, k)
    ensures KindOk(s2, k)
  {
    match k
    case FlowKind(layers, anchor, frozen) =>
      forall l, m | l in layers && m in l ensures m < |s2| && IsLeaf(s2[m].kind) {
        assert SameKind(s[m].kind, s2[m].kind);
      }
      if anchor.Some? {
        assert SameKind(s[anchor.value].kind, s2[anchor.value].kind);
      }
    case _ =>
  }

  /** Well-formedness survives any change that keeps every node's kind and keeps edges in range. */
  lemma AlikeWellFormed(s: seq<Node>, s2: seq<Node>)
    requires WellFormed(s) && Alike(s, s2)
    requires forall j | 0 <= j < |s2| :: EdgesWithin(s2[j], |s2|)
    ensures WellFormed(s2)
  {
    forall j | 0 <= j < |s2| ensures NodeOk(s2, s2[j]) {
      assert NodeOk(s, s[j]);
      match s[j].kind
      case FlowKind(layers, anchor, frozen) =>
        assert s2[j].kind == s[j].kind;
        forall l, m | l in layers && m in l ensures m < |s2| && IsLeaf(s2[m].kind) {
          assert SameKind(s[m].kind, s2[m].kind);
        }
        if anchor.Some? {
          assert SameKind(s[anchor.value].kind, s2[anchor.value].kind);
        }
      case _ =>
    }
  }

  lemma FrameWellFormed(s: seq<Node>, s2: seq<Node>)
    requires WellFormed(s) && Frame(s, s2)
    ensures WellFormed(s2)
  {
    forall j | 0 <= j < |s2| ensures EdgesWithin(s2[j], |s2|) {
      assert NodeOk(s, s[j]);
    }
    AlikeWellFormed(s, s2);
  }

  /** Connecting two existing non-Flow nodes appends exactly one edge at each end and keeps the arena well formed. */
  lemma ConnectWellFormed(s: seq<Node>, p: nat, c: nat)
    requires WellFormed(s) && p < |s| && c < |s|
    ensures var r := Connect(s, p, c);
      Alike(s, r) && WellFormed(r)
      && r[p].children == s[p].children + [c]
      && r[c].parents == s[c].parents + [p]
  {
    var r := Connect(s, p, c);
    forall j | 0 <= j < |r| ensures EdgesWithin(r[j], |r|) {
      assert NodeOk(s, s[j]);
    }
    AlikeWellFormed(s, r);
  }

  /** Appending a node whose edges and references point into the grown arena keeps it well formed. */
  lemma AppendWellFormed(s: seq<Node>, n: Node)
    requires WellFormed(s) && NodeOk(s + [n], n)
    ensures WellFormed(s + [n])
  {
    var s2 := s + [n];
    forall j | 0 <= j < |s2| ensures NodeOk(s2, s2[j]) {
      if j < |s| {
        assert s2[j] == s[j];
        assert NodeOk(s, s[j]);
        match s[j].kind
        case FlowKind(layers, anchor, frozen) =>
          forall l, m | l in layers && m in l ensures m < |s2| && IsLeaf(s2[m].kind) {
            assert s2[m] == s[m];
          }
          if anchor.Some? {
            assert s2[anchor.value] == s[anchor.value];
          }
        case _ =>
      }
    }
  }
}
