/**
 * Layered composition (actchain/chains/flow.py): a Flow holds layers of nodes,
 * `add` wires every node of the last layer to every node of the new one,
 * `freeze` closes the Flow with an anchor node, and a frozen Flow stands for a
 * single node whose input is its first layer and whose output is its anchor.
 */
module Flows {
  import opened Events
  import opened Nodes
  import opened Delivery

  // ---------------------------------------------------------------------------
  // Construction

  /**
   * `Flow(name, anchor_chain=...)`: a supplied anchor that is neither a
   * Junction nor a PassThrough node raises UnsupportedOperation; otherwise the
   * Flow is added as a new node with no layers, unfrozen.
   */
  function NewFlowSpec(s: seq<Node>, name: string, anchor: Option<nat>): (r: Result<seq<Node>>)
    requires anchor.Some? ==> anchor.value < |s|
  {
    if anchor.Some? && !IsAnchorKind(s[anchor.value].kind) then
      Err(UnsupportedOperation("anchor_chain must be JunctionChain or PassThroughChain"))
    else Ok(s + [Fresh(name, FlowKind([], anchor, false))])
  }

  /** The constructor accepts exactly the Junction and PassThrough anchors, and what it builds keeps the arena well formed. */
  lemma NewFlowChecksAnchor(s: seq<Node>, name: string, anchor: Option<nat>)
    requires WellFormed(s) && (anchor.Some? ==> anchor.value < |s|)
    ensures var r := NewFlowSpec(s, name, anchor);
      && (r.Ok? <==> anchor.None? || IsAnchorKind(s[anchor.value].kind))
      && (r.Ok? ==> WellFormed(r.value) && |r.value| == |s| + 1 && r.value[|s|].kind == FlowKind([], anchor, false))
      && (r.Err? ==> r.error.UnsupportedOperation?)
  {
    var r := NewFlowSpec(s, name, anchor);
    if r.Ok? {
      AppendWellFormed(s, Fresh(name, FlowKind([], anchor, false)));
    }
  }

  // ---------------------------------------------------------------------------
  // Wiring: `prev.chain(m)` for every prev of one layer and every m of the next

  /** The parents `j` gains when `p` is chained to each of `ms` in turn: one `p` per occurrence of `j` in `ms`. */
  function RowParents(p: nat, ms: seq<nat>, j: nat): (r: seq<nat>)
    ensures forall k | 0 <= k < |r| :: r[k] == p
    decreases |ms|
  {
    if ms == [] then []
    else RowParents(p, ms[..|ms| - 1], j) + (if ms[|ms| - 1] == j then [p] else [])
  }

  /** The children `j` gains from wiring `prevs` to `ms`: all of `ms` once per occurrence of `j` in `prevs`. */
  function WireChildren(prevs: seq<nat>, ms: seq<nat>, j: nat): seq<nat>
    decreases |prevs|
  {
    if prevs == [] then []
    else WireChildren(prevs[..|prevs| - 1], ms, j) + (if prevs[|prevs| - 1] == j then ms else [])
  }

  /** The parents `j` gains from wiring `prevs` to `ms`. */
  function WireParents(prevs: seq<nat>, ms: seq<nat>, j: nat): seq<nat>
    decreases |prevs|
  {
    if prevs == [] then []
    else WireParents(prevs[..|prevs| - 1], ms, j) + RowParents(prevs[|prevs| - 1], ms, j)
  }

  /** `p.chain(m)` for each `m` of `ms`, in order (`p` and every `m` are non-Flow nodes). */
  function WireRow(s: seq<Node>, p: nat, ms: seq<nat>): (r: seq<Node>)
    requires p < |s| && Within(ms, |s|)
    ensures |r| == |s|
    decreases |ms|
  {
    if ms == [] then s
    else Connect(WireRow(s, p, ms[..|ms| - 1]), p, ms[|ms| - 1])
  }

  /** The nested loop of `Flow.add`: for each `prev` of `prevs`, for each `m` of `ms`, `prev.chain(m)`. */
  function Wire(s: seq<Node>, prevs: seq<nat>, ms: seq<nat>): (r: seq<Node>)
    requires Within(prevs, |s|) && Within(ms, |s|)
    ensures |r| == |s|
    decreases |prevs|
  {
    if prevs == [] then s
    else WireRow(Wire(s, prevs[..|prevs| - 1], ms), prevs[|prevs| - 1], ms)
  }

  /** One `chain` between non-Flow nodes appends one child to `p` and one parent to `c`; nothing else changes. */
  lemma ConnectEffect(s: seq<Node>, p: nat, c: nat, j: nat)
    requires p < |s| && c < |s| && j < |s|
    ensures Connect(s, p, c)[j]
         == s[j].(children := s[j].children + (if j == p then [c] else []),
                  parents := s[j].parents + (if j == c then [p] else []))
  {
  }

  lemma {:induction false} WireRowEffect(s: seq<Node>, p: nat, ms: seq<nat>, j: nat)
    requires p < |s| && Within(ms, |s|) && j < |s|
    ensures WireRow(s, p, ms)[j]
         == s[j].(children := s[j].children + (if j == p then ms else []),
                  parents := s[j].parents + RowParents(p, ms, j))
    decreases |ms|
  {
    if ms == [] {
      assert s[j].children + [] == s[j].children;
      assert s[j].parents + [] == s[j].parents;
    } else {
      var pre := ms[..|ms| - 1];
      var m := ms[|ms| - 1];
      WireRowEffect(s, p, pre, j);
      ConnectEffect(WireRow(s, p, pre), p, m, j);
      assert pre + [m] == ms;
    }
  }

  /**
   * The effect of the wiring loop on one node: it gains the children and
   * parents given by WireChildren and WireParents, at the tail of its lists,
   * and nothing else about it changes.
   */
  lemma {:induction false} WireEffect(s: seq<Node>, prevs: seq<nat>, ms: seq<nat>, j: nat)
    requires Within(prevs, |s|) && Within(ms, |s|) && j < |s|
    ensures Wire(s, prevs, ms)[j]
         == s[j].(children := s[j].children + WireChildren(prevs, ms, j),
                  parents := s[j].parents + WireParents(prevs, ms, j))
    decreases |prevs|
  {
    if prevs == [] {
      assert s[j].children + [] == s[j].children;
      assert s[j].parents + [] == s[j].parents;
    } else {
      var pre := prevs[..|prevs| - 1];
      var p := prevs[|prevs| - 1];
      WireEffect(s, pre, ms, j);
      WireRowEffect(Wire(s, pre, ms), p, ms, j);
      assert s[j].children + WireChildren(pre, ms, j) + (if j == p then ms else [])
          == s[j].children + WireChildren(prevs, ms, j);
      assert s[j].parents + WireParents(pre, ms, j) + RowParents(p, ms, j)
          == s[j].parents + WireParents(prevs, ms, j);
    }
  }

  lemma {:induction false} WireRowWellFormed(s: seq<Node>, p: nat, ms: seq<nat>)
    requires WellFormed(s) && p < |s| && Within(ms, |s|)
    ensures Alike(s, WireRow(s, p, ms)) && WellFormed(WireRow(s, p, ms))
    decreases |ms|
  {
    if ms == [] {
      FrameRefl(s);
    } else {
      var pre := WireRow(s, p, ms[..|ms| - 1]);
      WireRowWellFormed(s, p, ms[..|ms| - 1]);
      ConnectWellFormed(pre, p, ms[|ms| - 1]);
      AlikeTrans(s, pre, Connect(pre, p, ms[|ms| - 1]));
    }
  }

  /** Wiring keeps every node's name and kind, and keeps the arena well formed. */
  lemma {:induction false} WireWellFormed(s: seq<Node>, prevs: seq<nat>, ms: seq<nat>)
    requires WellFormed(s) && Within(prevs, |s|) && Within(ms, |s|)
    ensures Alike(s, Wire(s, prevs, ms)) && WellFormed(Wire(s, prevs, ms))
    decreases |prevs|
  {
    if prevs == [] {
      FrameRefl(s);
    } else {
      var pre := Wire(s, prevs[..|prevs| - 1], ms);
      WireWellFormed(s, prevs[..|prevs| - 1], ms);
      WireRowWellFormed(pre, prevs[|prevs| - 1], ms);
      AlikeTrans(s, pre, WireRow(pre, prevs[|prevs| - 1], ms));
    }
  }

  /** With no repeated targets, a node gains `p` as a parent once if it is a target and never otherwise. */
  lemma {:induction false} RowParentsNoDup(p: nat, ms: seq<nat>, j: nat)
    requires NoDup(ms)
    ensures RowParents(p, ms, j) == if j in ms then [p] else []
    decreases |ms|
  {
    if ms != [] {
      var pre := ms[..|ms| - 1];
      assert NoDup(pre);
      RowParentsNoDup(p, pre, j);
      assert ms == pre + [ms[|ms| - 1]];
      assert ms[|ms| - 1] !in pre;
    }
  }

  /** With no repeated source, a node of the source layer gains exactly the target layer as children. */
  lemma {:induction false} WireChildrenNoDup(prevs: seq<nat>, ms: seq<nat>, j: nat)
    requires NoDup(prevs)
    ensures WireChildren(prevs, ms, j) == if j in prevs then ms else []
    decreases |prevs|
  {
    if prevs != [] {
      var pre := prevs[..|prevs| - 1];
      assert NoDup(pre);
      WireChildrenNoDup(pre, ms, j);
      assert prevs == pre + [prevs[|prevs| - 1]];
      assert prevs[|prevs| - 1] !in pre;
    }
  }

  /** With no repeated target, a node of the target layer gains exactly the source layer, in order, as parents. */
  lemma WireParentsNoDup(prevs: seq<nat>, ms: seq<nat>, j: nat)
    requires NoDup(ms)
    ensures WireParents(prevs, ms, j) == if j in ms then prevs else []
  {
    forall p: nat ensures RowParents(p, ms, j) == if j in ms then [p] else [] {
      RowParentsNoDup(p, ms, j);
    }
    WireParentsRows(prevs, ms, j, j in ms);
  }

  /** When every source contributes itself once (`hit`) or not at all, the parents gained are the sources or nothing. */
  lemma {:induction false} WireParentsRows(prevs: seq<nat>, ms: seq<nat>, j: nat, hit: bool)
    requires forall p: nat :: RowParents(p, ms, j) == if hit then [p] else []
    ensures WireParents(prevs, ms, j) == if hit then prevs else []
    decreases |prevs|
  {
    if prevs != [] {
      var pre := prevs[..|prevs| - 1];
      var p := prevs[|prevs| - 1];
      WireParentsRows(pre, ms, j, hit);
      assert RowParents(p, ms, j) == if hit then [p] else [];
      if hit {
        assert prevs == pre + [p];
      }
    }
  }

  // ---------------------------------------------------------------------------
  // add

  /** The layer a Flow would wire new nodes to. */
  function LastLayer(layers: seq<seq<nat>>): seq<nat>
    requires layers != []
  {
    layers[|layers| - 1]
  }

  /**
   * `Flow.add(ms)`: refused on a frozen Flow; otherwise, when there is a last
   * layer, each of its nodes is chained to each of `ms`, then `ms` becomes the
   * new last layer. Layer members are non-Flow nodes here.
   */
  function AddSpec(s: seq<Node>, f: nat, ms: seq<nat>): (c: Change)
    requires WellFormed(s) && f < |s| && s[f].kind.FlowKind?
    requires Within(ms, |s|) && forall k | 0 <= k < |ms| :: IsLeaf(s[ms[k]].kind)
    ensures |c.state| == |s|
  {
    var k := s[f].kind;
    if k.frozen then Change(s, Some(UnsupportedOperation("Cannot add chainable to frozen flow")))
    else
      var s1 := WireToLast(s, f, ms);
      Change(s1[f := s1[f].(kind := k.(layers := k.layers + [ms]))], None)
  }

  /** The wiring step of `add`: nothing when the Flow has no layer yet. */
  function WireToLast(s: seq<Node>, f: nat, ms: seq<nat>): (r: seq<Node>)
    requires WellFormed(s) && f < |s| && s[f].kind.FlowKind? && Within(ms, |s|)
    ensures |r| == |s|
  {
    var layers := s[f].kind.layers;
    if layers == [] then s
    else
      LayerWithin(s, f, |layers| - 1);
      Wire(s, LastLayer(layers), ms)
  }

  /** `add` keeps the arena well formed. */
  lemma AddWellFormed(s: seq<Node>, f: nat, ms: seq<nat>)
    requires WellFormed(s) && f < |s| && s[f].kind.FlowKind?
    requires Within(ms, |s|) && forall k | 0 <= k < |ms| :: IsLeaf(s[ms[k]].kind)
    ensures WellFormed(AddSpec(s, f, ms).state)
  {
    var k := s[f].kind;
    if !k.frozen {
      var s1 := WireToLast(s, f, ms);
      if k.layers == [] {
        FrameRefl(s);
      } else {
        LayerWithin(s, f, |k.layers| - 1);
        WireWellFormed(s, LastLayer(k.layers), ms);
      }
      assert Alike(s, s1) && WellFormed(s1);
      assert SameKind(s[f].kind, s1[f].kind);
      assert NodeOk(s, s[f]);
      AlikeKindOk(s, s1, k);
      var k2 := k.(layers := k.layers + [ms]);
      forall l, m | l in k2.layers && m in l ensures m < |s1| && IsLeaf(s1[m].kind) {
        if l == ms {
          var i :| 0 <= i < |ms| && ms[i] == m;
          assert SameKind(s[m].kind, s1[m].kind);
        } else {
          assert l in k.layers;
        }
      }
      SetFlowWellFormed(s1, f, k2);
    }
  }

  /** `add` on a frozen Flow raises UnsupportedOperation and changes nothing. */
  lemma AddFrozenRefused(s: seq<Node>, f: nat, ms: seq<nat>)
    requires WellFormed(s) && f < |s| && s[f].kind.FlowKind? && s[f].kind.frozen
    requires Within(ms, |s|) && forall k | 0 <= k < |ms| :: IsLeaf(s[ms[k]].kind)
    ensures AddSpec(s, f, ms).state == s
    ensures AddSpec(s, f, ms).error.Some? && AddSpec(s, f, ms).error.value.UnsupportedOperation?
  {
  }

  /**
   * `add(ms)` on an unfrozen Flow: `ms` becomes the last layer; every other
   * node gains, at the tail of its lists, the children and parents the wiring
   * from the old last layer to `ms` gives it (nothing on the first `add`).
   */
  lemma AddEffect(s: seq<Node>, f: nat, ms: seq<nat>, j: nat)
    requires WellFormed(s) && f < |s| && s[f].kind.FlowKind? && !s[f].kind.frozen
    requires Within(ms, |s|) && forall k | 0 <= k < |ms| :: IsLeaf(s[ms[k]].kind)
    requires j < |s| && j != f
    ensures var c := AddSpec(s, f, ms);
      var layers := s[f].kind.layers;
      && c.error == None
      && c.state[f] == s[f].(kind := s[f].kind.(layers := layers + [ms]))
      && c.state[j] == if layers == [] then s[j]
                       else s[j].(children := s[j].children + WireChildren(LastLayer(layers), ms, j),
                                  parents := s[j].parents + WireParents(LastLayer(layers), ms, j))
  {
    var s1 := WireToLast(s, f, ms);
    WireToLastEffect(s, f, ms, j);
    WireToLastKeepsFlow(s, f, ms);
    assert AddSpec(s, f, ms).state == s1[f := s1[f].(kind := s[f].kind.(layers := s[f].kind.layers + [ms]))];
  }

  lemma WireToLastEffect(s: seq<Node>, f: nat, ms: seq<nat>, j: nat)
    requires WellFormed(s) && f < |s| && s[f].kind.FlowKind? && Within(ms, |s|) && j < |s|
    ensures var layers := s[f].kind.layers;
      WireToLast(s, f, ms)[j]
        == if layers == [] then s[j]
           else s[j].(children := s[j].children + WireChildren(LastLayer(layers), ms, j),
                      parents := s[j].parents + WireParents(LastLayer(layers), ms, j))
  {
    var layers := s[f].kind.layers;
    if layers != [] {
      LayerWithin(s, f, |layers| - 1);
      WireEffect(s, LastLayer(layers), ms, j);
    }
  }

  /** The Flow itself is not touched by the wiring: its layers hold only non-Flow nodes. */
  lemma WireToLastKeepsFlow(s: seq<Node>, f: nat, ms: seq<nat>)
    requires WellFormed(s) && f < |s| && s[f].kind.FlowKind? && Within(ms, |s|)
    requires forall k | 0 <= k < |ms| :: IsLeaf(s[ms[k]].kind)
    ensures WireToLast(s, f, ms)[f] == s[f]
  {
    var layers := s[f].kind.layers;
    if layers != [] {
      var last := LastLayer(layers);
      LayerWithin(s, f, |layers| - 1);
      WireToLastEffect(s, f, ms, f);
      assert f !in last by {
        forall k | 0 <= k < |last| ensures last[k] != f {
        }
      }
      assert f !in ms by {
        forall k | 0 <= k < |ms| ensures ms[k] != f {
        }
      }
      WireChildrenAbsent(last, ms, f);
      WireParentsAbsent(last, ms, f);
      assert s[f].children + [] == s[f].children;
      assert s[f].parents + [] == s[f].parents;
    }
  }

  lemma {:induction false} WireChildrenAbsent(prevs: seq<nat>, ms: seq<nat>, j: nat)
    requires j !in prevs
    ensures WireChildren(prevs, ms, j) == []
    decreases |prevs|
  {
    if prevs != [] {
      WireChildrenAbsent(prevs[..|prevs| - 1], ms, j);
    }
  }

  lemma {:induction false} WireParentsAbsent(prevs: seq<nat>, ms: seq<nat>, j: nat)
    requires j !in ms
    ensures WireParents(prevs, ms, j) == []
    decreases |prevs|
  {
    if prevs != [] {
      WireParentsAbsent(prevs[..|prevs| - 1], ms, j);
      RowParentsAbsent(prevs[|prevs| - 1], ms, j);
    }
  }

  lemma {:induction false} RowParentsAbsent(p: nat, ms: seq<nat>, j: nat)
    requires j !in ms
    ensures RowParents(p, ms, j) == []
    decreases |ms|
  {
    if ms != [] {
      RowParentsAbsent(p, ms[..|ms| - 1], j);
    }
  }

  /**
   * The complete bipartite wiring of `add`, for layers without repetitions:
   * each node of the old last layer gains exactly `ms` as new children, and
   * each node of `ms` gains exactly the old last layer, in order, as new parents.
   */
  lemma AddConnectsLayers(s: seq<Node>, f: nat, ms: seq<nat>, j: nat)
    requires WellFormed(s) && f < |s| && s[f].kind.FlowKind? && !s[f].kind.frozen
    requires s[f].kind.layers != [] && NoDup(LastLayer(s[f].kind.layers)) && NoDup(ms)
    requires Within(ms, |s|) && forall k | 0 <= k < |ms| :: IsLeaf(s[ms[k]].kind)
    requires j < |s| && j != f
    ensures var last := LastLayer(s[f].kind.layers);
      var r := AddSpec(s, f, ms).state;
      && r[j].children == s[j].children + (if j in last then ms else [])
      && r[j].parents == s[j].parents + (if j in ms then last else [])
  {
    AddEffect(s, f, ms, j);
    WireChildrenNoDup(LastLayer(s[f].kind.layers), ms, j);
    WireParentsNoDup(LastLayer(s[f].kind.layers), ms, j);
  }

  // ---------------------------------------------------------------------------
  // freeze

  /** The arena after the anchor is settled, and the anchor's index. */
  datatype Planned = Planned(state: seq<Node>, anchor: nat)

  /** The kind of the anchor `freeze` creates for a last layer of `size` nodes. */
  function DefaultAnchorKind(size: nat): Kind {
    if size > 1 then JunctionKind(All, map[], false) else PassThroughKind(false)
  }

  /**
   * `_set_anchor_chain`: without a supplied anchor, create one named
   * `name + "_anchor"` (a new node at the end of the arena); with one, check
   * its kind against the size of the last layer.
   */
  function PlanAnchor(s: seq<Node>, f: nat): (r: Result<Planned>)
    requires WellFormed(s) && f < |s| && s[f].kind.FlowKind? && s[f].kind.layers != []
    ensures r.Ok? ==> |r.value.state| >= |s| && r.value.anchor < |r.value.state|
  {
    var k := s[f].kind;
    var last := LastLayer(k.layers);
    match k.anchor
    case None =>
      var s1 := s + [Fresh(s[f].name + "_anchor", DefaultAnchorKind(|last|))];
      Ok(Planned(s1[f := s1[f].(kind := k.(anchor := Some(|s|)))], |s|))
    case Some(a) =>
      AnchorWithin(s, f);
      if |last| > 1 && !s[a].kind.JunctionKind? then
        Err(UnsupportedOperation("anchor_chain must be JunctionChain when the last layer has multiple chainables"))
      else if |last| <= 1 && !s[a].kind.PassThroughKind? then
        Err(UnsupportedOperation("anchor_chain must be PassThroughChain when the last layer has a single chainable"))
      else Ok(Planned(s, a))
  }

  /**
   * `Flow.freeze`: a no-op on a frozen Flow, refused on a Flow without layers;
   * otherwise the anchor is settled, added as a new last layer (wired to the
   * old last layer) and the Flow is marked frozen.
   */
  function FreezeSpec(s: seq<Node>, f: nat): (c: Change)
    requires WellFormed(s) && f < |s| && s[f].kind.FlowKind?
    ensures |c.state| >= |s|
  {
    var k := s[f].kind;
    if k.frozen then Change(s, None)
    else if k.layers == [] then Change(s, Some(UnsupportedOperation("Cannot freeze empty flow")))
    else
      match PlanAnchor(s, f)
      case Err(err) => Change(s, Some(err))
      case Ok(Planned(s1, a)) =>
        LayerWithin(s, f, |k.layers| - 1);
        var s2 := Wire(s1, LastLayer(k.layers), [a]);
        Change(s2[f := s2[f].(kind := k.(layers := k.layers + [[a]], anchor := Some(a), frozen := true))], None)
  }

  /** The arena `PlanAnchor` leaves is well formed, and its anchor is a valid anchor of a non-Flow kind. */
  lemma PlanAnchorWellFormed(s: seq<Node>, f: nat)
    requires WellFormed(s) && f < |s| && s[f].kind.FlowKind? && s[f].kind.layers != []
    requires PlanAnchor(s, f).Ok?
    ensures var p := PlanAnchor(s, f).value;
      && WellFormed(p.state) && f < |p.state| && p.state[f].kind == s[f].kind.(anchor := Some(p.anchor))
      && IsAnchorKind(p.state[p.anchor].kind)
  {
    var k := s[f].kind;
    var last := LastLayer(k.layers);
    assert NodeOk(s, s[f]);
    match k.anchor
    case None =>
      var n := Fresh(s[f].name + "_anchor", DefaultAnchorKind(|last|));
      var s1 := s + [n];
      AppendWellFormed(s, n);
      var k1 := k.(anchor := Some(|s|));
      AlikeKindOk(s, s1[..|s|], k);
      assert s1[..|s|] == s;
      forall l, m | l in k1.layers && m in l ensures m < |s1| && IsLeaf(s1[m].kind) {
        assert s1[m] == s[m];
      }
      SetFlowWellFormed(s1, f, k1);
    case Some(a) =>
  }

  /** `freeze` is `add([anchor])` on the arena where the anchor is settled, followed by marking the Flow frozen. */
  lemma FreezeViaAdd(s: seq<Node>, f: nat)
    requires WellFormed(s) && f < |s| && s[f].kind.FlowKind? && !s[f].kind.frozen && s[f].kind.layers != []
    requires PlanAnchor(s, f).Ok?
    ensures var p := PlanAnchor(s, f).value;
      && WellFormed(p.state) && f < |p.state| && p.state[f].kind.FlowKind? && !p.state[f].kind.frozen
      && p.anchor < |p.state| && IsLeaf(p.state[p.anchor].kind)
      && var c := AddSpec(p.state, f, [p.anchor]);
      && c.error == None && c.state[f].kind.FlowKind?
      && FreezeSpec(s, f) == Change(c.state[f := c.state[f].(kind := c.state[f].kind.(frozen := true))], None)
  {
    PlanAnchorWellFormed(s, f);
    var p := PlanAnchor(s, f).value;
    var k := s[f].kind;
    LayerWithin(s, f, |k.layers| - 1);
    var s2 := Wire(p.state, LastLayer(k.layers), [p.anchor]);
    assert WireToLast(p.state, f, [p.anchor]) == s2;
    WireToLastKeepsFlow(p.state, f, [p.anchor]);
  }

  /** `freeze` keeps the arena well formed. */
  lemma FreezeWellFormed(s: seq<Node>, f: nat)
    requires WellFormed(s) && f < |s| && s[f].kind.FlowKind?
    ensures WellFormed(FreezeSpec(s, f).state)
  {
    var k := s[f].kind;
    if !k.frozen && k.layers != [] && PlanAnchor(s, f).Ok? {
      var p := PlanAnchor(s, f).value;
      var s1 := p.state;
      var a := p.anchor;
      PlanAnchorWellFormed(s, f);
      LayerWithin(s, f, |k.layers| - 1);
      var last := LastLayer(k.layers);
      var s2 := Wire(s1, last, [a]);
      WireWellFormed(s1, last, [a]);
      assert SameKind(s1[f].kind, s2[f].kind);
      assert SameKind(s1[a].kind, s2[a].kind);
      var k2 := k.(layers := k.layers + [[a]], anchor := Some(a), frozen := true);
      assert NodeOk(s1, s1[f]);
      AlikeKindOk(s1, s2, s1[f].kind);
      forall l, m | l in k2.layers && m in l ensures m < |s2| && IsLeaf(s2[m].kind) {
        if l != [a] {
          assert l in s1[f].kind.layers;
        }
      }
      SetFlowWellFormed(s2, f, k2);
    }
  }

  /** `freeze` on a frozen Flow changes nothing. */
  lemma FreezeFrozenNoop(s: seq<Node>, f: nat)
    requires WellFormed(s) && f < |s| && s[f].kind.FlowKind? && s[f].kind.frozen
    ensures FreezeSpec(s, f) == Change(s, None)
  {
  }

  /** `freeze` on a Flow without layers raises UnsupportedOperation and changes nothing. */
  lemma FreezeEmptyRefused(s: seq<Node>, f: nat)
    requires WellFormed(s) && f < |s| && s[f].kind.FlowKind? && !s[f].kind.frozen && s[f].kind.layers == []
    ensures FreezeSpec(s, f).state == s
    ensures FreezeSpec(s, f).error.Some? && FreezeSpec(s, f).error.value.UnsupportedOperation?
  {
  }

  /**
   * A supplied anchor must be a Junction when the last layer has several
   * nodes and a PassThrough otherwise; a mismatch raises UnsupportedOperation
   * and changes nothing.
   */
  lemma FreezeChecksAnchor(s: seq<Node>, f: nat)
    requires WellFormed(s) && f < |s| && s[f].kind.FlowKind? && !s[f].kind.frozen && s[f].kind.layers != []
    requires s[f].kind.anchor.Some? && s[f].kind.anchor.value < |s|
    ensures var a := s[f].kind.anchor.value;
      var wanted := if |LastLayer(s[f].kind.layers)| > 1 then s[a].kind.JunctionKind? else s[a].kind.PassThroughKind?;
      var c := FreezeSpec(s, f);
      (c.error == None <==> wanted) && (!wanted ==> c.state == s && c.error.value.UnsupportedOperation?)
  {
  }

  /**
   * A successful `freeze`: the Flow is frozen, its last layer is exactly
   * `[anchor]` appended to the old layers, and the anchor gains the old last
   * layer, in order, as its parents.
   */
  lemma FreezeEffect(s: seq<Node>, f: nat)
    requires WellFormed(s) && f < |s| && s[f].kind.FlowKind? && !s[f].kind.frozen
    requires FreezeSpec(s, f).error == None
    ensures var k := s[f].kind;
      var r := FreezeSpec(s, f).state;
      var p := PlanAnchor(s, f).value;
      && k.layers != [] && PlanAnchor(s, f).Ok?
      && r[f].kind == k.(layers := k.layers + [[p.anchor]], anchor := Some(p.anchor), frozen := true)
      && r[p.anchor].parents == p.state[p.anchor].parents + LastLayer(k.layers)
  {
    var k := s[f].kind;
    var p := PlanAnchor(s, f).value;
    PlanAnchorWellFormed(s, f);
    LayerWithin(s, f, |k.layers| - 1);
    var last := LastLayer(k.layers);
    WireEffect(p.state, last, [p.anchor], p.anchor);
    WireParentsNoDup(last, [p.anchor], p.anchor);
    assert p.anchor != f;
  }

  /**
   * Without a supplied anchor, `freeze` creates one at the end of the arena:
   * named `name + "_anchor"`, a Junction in "all" mode without transform when
   * the last layer has more than one node and a PassThrough without callback
   * otherwise, with the old last layer as its parents and no children.
   */
  lemma FreezeCreatesAnchor(s: seq<Node>, f: nat)
    requires WellFormed(s) && f < |s| && s[f].kind.FlowKind? && !s[f].kind.frozen
    requires s[f].kind.layers != [] && s[f].kind.anchor.None?
    ensures var r := FreezeSpec(s, f);
      var last := LastLayer(s[f].kind.layers);
      && r.error == None && |r.state| == |s| + 1
      && r.state[f].kind.anchor == Some(|s|)
      && r.state[|s|] == Node(s[f].name + "_anchor", [], last, [], Stopping, None, None, None, DefaultAnchorKind(|last|))
  {
    FreezeEffect(s, f);
    var k := s[f].kind;
    var p := PlanAnchor(s, f).value;
    LayerWithin(s, f, |k.layers| - 1);
    var last := LastLayer(k.layers);
    WireEffect(p.state, last, [p.anchor], p.anchor);
    assert |s| !in last by {
      forall i | 0 <= i < |last| ensures last[i] != |s| {
      }
    }
    WireChildrenAbsent(last, [p.anchor], p.anchor);
  }

  /** Freezing twice is freezing once. */
  lemma FreezeIdempotent(s: seq<Node>, f: nat)
    requires WellFormed(s) && f < |s| && s[f].kind.FlowKind? && FreezeSpec(s, f).error == None
    ensures WellFormed(FreezeSpec(s, f).state)
    ensures FreezeSpec(FreezeSpec(s, f).state, f) == Change(FreezeSpec(s, f).state, None)
  {
    FreezeWellFormed(s, f);
    if !s[f].kind.frozen {
      FreezeEffect(s, f);
    }
  }

  /** A successful `freeze` leaves a frozen Flow whose anchor is an existing non-Flow node. */
  lemma FreezeAnchor(s: seq<Node>, f: nat)
    requires WellFormed(s) && f < |s| && s[f].kind.FlowKind? && FreezeSpec(s, f).error == None
    ensures var r := FreezeSpec(s, f).state;
      && WellFormed(r) && r[f].kind.FlowKind? && r[f].kind.frozen && r[f].kind.anchor.Some?
      && r[f].kind.anchor.value < |r| && IsLeaf(r[r[f].kind.anchor.value].kind)
  {
    FreezeWellFormed(s, f);
    if !s[f].kind.frozen {
      FreezeEffect(s, f);
    }
    AnchorWithin(FreezeSpec(s, f).state, f);
  }

  // ---------------------------------------------------------------------------
  // chain

  /** `Flow._create_connection_as_child(p)`: each node of `ms` (the first layer) gains parent `p`. */
  function AttachParent(s: seq<Node>, ms: seq<nat>, p: nat): (r: seq<Node>)
    requires Within(ms, |s|)
    ensures |r| == |s|
    decreases |ms|
  {
    if ms == [] then s
    else
      var r := AttachParent(s, ms[..|ms| - 1], p);
      var m := ms[|ms| - 1];
      r[m := r[m].(parents := r[m].parents + [p])]
  }

  /**
   * `p.chain(c)` for a non-Flow `p`: `p` gains child `c`; then `c` records
   * parent `p`, or, when `c` is a Flow, each node of its first layer does (an
   * empty Flow raises, after `p` has gained the child).
   */
  function LeafChain(s: seq<Node>, p: nat, c: nat): (r: Change)
    requires WellFormed(s) && p < |s| && c < |s| && IsLeaf(s[p].kind)
    ensures |r.state| == |s|
  {
    match s[c].kind
    case FlowKind(layers, _, _) =>
      var s1 := s[p := s[p].(children := s[p].children + [c])];
      if layers == [] then Change(s1, Some(UnsupportedOperation("Cannot chain to empty flow")))
      else
        LayerWithin(s, c, 0);
        Change(AttachParent(s1, layers[0], p), None)
    case _ => Change(Connect(s, p, c), None)
  }

  /** `p.chain(c)`: a Flow first freezes itself, then lets its anchor chain `c`. */
  function ChainSpec(s: seq<Node>, p: nat, c: nat): (r: Change)
    requires WellFormed(s) && p < |s| && c < |s|
    ensures |r.state| >= |s|
  {
    if s[p].kind.FlowKind? then
      var fr := FreezeSpec(s, p);
      if fr.error.Some? then fr
      else
        FreezeAnchor(s, p);
        LeafChain(fr.state, fr.state[p].kind.anchor.value, c)
    else LeafChain(s, p, c)
  }

  lemma {:induction false} AttachParentEffect(s: seq<Node>, ms: seq<nat>, p: nat, j: nat)
    requires Within(ms, |s|) && j < |s|
    ensures AttachParent(s, ms, p)[j] == s[j].(parents := s[j].parents + RowParents(p, ms, j))
    decreases |ms|
  {
    if ms == [] {
      assert s[j].parents + [] == s[j].parents;
    } else {
      AttachParentEffect(s, ms[..|ms| - 1], p, j);
    }
  }

  lemma {:induction false} AttachParentWellFormed(s: seq<Node>, ms: seq<nat>, p: nat)
    requires WellFormed(s) && Within(ms, |s|) && p < |s|
    ensures Alike(s, AttachParent(s, ms, p)) && WellFormed(AttachParent(s, ms, p))
    decreases |ms|
  {
    if ms == [] {
      FrameRefl(s);
    } else {
      var r := AttachParent(s, ms[..|ms| - 1], p);
      var m := ms[|ms| - 1];
      AttachParentWellFormed(s, ms[..|ms| - 1], p);
      var r2 := r[m := r[m].(parents := r[m].parents + [p])];
      assert Alike(r, r2) by {
        FrameRefl(r);
      }
      forall j | 0 <= j < |r2| ensures EdgesWithin(r2[j], |r2|) {
        assert NodeOk(r, r[j]);
      }
      AlikeWellFormed(r, r2);
      AlikeTrans(s, r, r2);
    }
  }

  lemma LeafChainWellFormed(s: seq<Node>, p: nat, c: nat)
    requires WellFormed(s) && p < |s| && c < |s| && IsLeaf(s[p].kind)
    ensures WellFormed(LeafChain(s, p, c).state)
  {
    if s[c].kind.FlowKind? {
      var s1 := s[p := s[p].(children := s[p].children + [c])];
      assert Alike(s, s1) by {
        FrameRefl(s);
      }
      forall j | 0 <= j < |s1| ensures EdgesWithin(s1[j], |s1|) {
        assert NodeOk(s, s[j]);
      }
      AlikeWellFormed(s, s1);
      if s[c].kind.layers != [] {
        LayerWithin(s, c, 0);
        AttachParentWellFormed(s1, s[c].kind.layers[0], p);
      }
    } else {
      ConnectWellFormed(s, p, c);
    }
  }

  /** `chain` keeps the arena well formed, whether or not it raises. */
  lemma ChainWellFormed(s: seq<Node>, p: nat, c: nat)
    requires WellFormed(s) && p < |s| && c < |s|
    ensures WellFormed(ChainSpec(s, p, c).state)
  {
    if s[p].kind.FlowKind? {
      FreezeWellFormed(s, p);
      if FreezeSpec(s, p).error.None? {
        FreezeAnchor(s, p);
        var r := FreezeSpec(s, p).state;
        LeafChainWellFormed(r, r[p].kind.anchor.value, c);
      }
    } else {
      LeafChainWellFormed(s, p, c);
    }
  }

  /** Chaining two non-Flow nodes appends `c` to `p`'s children and `p` to `c`'s parents; nothing else changes. */
  lemma ChainLeaves(s: seq<Node>, p: nat, c: nat, j: nat)
    requires WellFormed(s) && p < |s| && c < |s| && j < |s| && IsLeaf(s[p].kind) && IsLeaf(s[c].kind)
    ensures ChainSpec(s, p, c).error == None
    ensures ChainSpec(s, p, c).state[j]
         == s[j].(children := s[j].children + (if j == p then [c] else []),
                  parents := s[j].parents + (if j == c then [p] else []))
  {
    ConnectEffect(s, p, c, j);
  }

  /** Chaining the same pair twice records the edge twice at both ends. */
  lemma ChainTwiceDuplicates(s: seq<Node>, p: nat, c: nat)
    requires WellFormed(s) && p < |s| && c < |s| && p != c && IsLeaf(s[p].kind) && IsLeaf(s[c].kind)
    ensures var s1 := ChainSpec(s, p, c).state;
      WellFormed(s1)
      && var s2 := ChainSpec(s1, p, c).state;
      s2[p].children == s[p].children + [c, c] && s2[c].parents == s[c].parents + [p, p]
  {
    ChainWellFormed(s, p, c);
    var s1 := ChainSpec(s, p, c).state;
    ChainLeaves(s, p, c, p);
    ChainLeaves(s, p, c, c);
    ChainLeaves(s1, p, c, p);
    ChainLeaves(s1, p, c, c);
  }

  /**
   * Chaining a non-Flow node into a Flow: the node gains the Flow as a child,
   * every node of the Flow's first layer gains the node as a parent (once per
   * occurrence in the layer), the Flow's own record is untouched, and an empty
   * Flow raises UnsupportedOperation once the child edge has been added.
   */
  lemma ChainIntoFlow(s: seq<Node>, p: nat, c: nat, j: nat)
    requires WellFormed(s) && p < |s| && c < |s| && j < |s| && IsLeaf(s[p].kind) && s[c].kind.FlowKind?
    ensures var r := ChainSpec(s, p, c);
      var layers := s[c].kind.layers;
      && r.state[p].children == s[p].children + [c]
      && r.state[c] == s[c]
      && (layers == [] ==> r.state == s[p := s[p].(children := s[p].children + [c])]
                           && r.error.Some? && r.error.value.UnsupportedOperation?)
      && (layers != [] ==> r.error == None
                           && r.state[j].parents == s[j].parents + RowParents(p, layers[0], j))
  {
    var layers := s[c].kind.layers;
    if layers != [] {
      var s1 := s[p := s[p].(children := s[p].children + [c])];
      LayerWithin(s, c, 0);
      AttachParentEffect(s1, layers[0], p, j);
      AttachParentEffect(s1, layers[0], p, p);
      AttachParentEffect(s1, layers[0], p, c);
      assert c !in layers[0] by {
        forall i | 0 <= i < |layers[0]| ensures layers[0][i] != c {
        }
      }
      assert RowParents(p, layers[0], c) == [] by {
        RowParentsAbsent(p, layers[0], c);
      }
    }
  }

  // ---------------------------------------------------------------------------
  // What a node presents to its neighbours; a Flow presents its first layer and anchor

  /** `next_chains`: a Flow's are its anchor's children (none before it has an anchor). */
  function NextChains(s: seq<Node>, f: nat): (r: seq<nat>)
    requires WellFormed(s) && f < |s|
    ensures Within(r, |s|)
  {
    ChildrenWithin(s, f);
    match s[f].kind
    case FlowKind(_, anchor, _) =>
      if anchor.None? then []
      else
        assert NodeOk(s, s[f]);
        ChildrenWithin(s, anchor.value);
        s[anchor.value].children
    case _ => s[f].children
  }

  /** `prev_chains`: a Flow's are the parents of the first node of its first layer, which must exist once there is a layer. */
  function PrevChains(s: seq<Node>, f: nat): (r: Result<seq<nat>>)
    requires WellFormed(s) && f < |s|
  {
    match s[f].kind
    case FlowKind(layers, _, _) =>
      if layers == [] then Ok([])
      else if layers[0] == [] then Err(IndexError)
      else
        LayerWithin(s, f, 0);
        Ok(s[layers[0][0]].parents)
    case _ => Ok(s[f].parents)
  }

  /** `last_emit_event`: a Flow's is its anchor's. */
  function LastEmitEvent(s: seq<Node>, f: nat): Option<Event>
    requires WellFormed(s) && f < |s|
  {
    match s[f].kind
    case FlowKind(_, anchor, _) =>
      if anchor.None? then None
      else
        assert NodeOk(s, s[f]);
        s[anchor.value].lastEmit
    case _ => s[f].lastEmit
  }

  /** `last_trigger_event`: a Flow's is that of the first node of its first layer. */
  function LastTriggerEvent(s: seq<Node>, f: nat): Result<Option<Event>>
    requires WellFormed(s) && f < |s|
  {
    match s[f].kind
    case FlowKind(layers, _, _) =>
      if layers == [] then Ok(None)
      else if layers[0] == [] then Err(IndexError)
      else
        LayerWithin(s, f, 0);
        Ok(s[layers[0][0]].lastTrigger)
    case _ => Ok(s[f].lastTrigger)
  }

  /** `chainables(flat=True)`: the layers concatenated in order. */
  function Flatten(layers: seq<seq<nat>>): (r: seq<nat>)
    decreases |layers|
  {
    if layers == [] then [] else Flatten(layers[..|layers| - 1]) + layers[|layers| - 1]
  }

  /**
   * Flattening keeps the order and the repetitions of the layers: the flat
   * list of two runs of layers is the first's followed by the second's, and
   * a single layer flattens to itself.
   */
  lemma {:induction false} FlattenAppend(a: seq<seq<nat>>, b: seq<seq<nat>>)
    ensures Flatten(a + b) == Flatten(a) + Flatten(b)
    ensures |a| == 1 ==> Flatten(a) == a[0]
    decreases |b|
  {
    if |a| == 1 {
      assert a[..0] == [];
    }
    if b == [] {
      assert a + b == a;
    } else {
      var pre := b[..|b| - 1];
      assert (a + b)[..|a + b| - 1] == a + pre;
      FlattenAppend(a, pre);
    }
  }

  /** The flat list holds exactly the members of the layers. */
  lemma {:induction false} FlattenMembers(layers: seq<seq<nat>>, x: nat)
    ensures x in Flatten(layers) <==> exists l | l in layers :: x in l
    decreases |layers|
  {
    if layers != [] {
      var pre := layers[..|layers| - 1];
      var last := layers[|layers| - 1];
      FlattenMembers(pre, x);
      assert layers == pre + [last];
      if x in last {
        assert last in layers;
      }
      if exists l | l in layers :: x in l {
        var l :| l in layers && x in l;
        if l != last {
          assert l in pre;
        }
      }
    }
  }

  /** The payload of a Flow's `last_event`: the last-layer nodes' last triggered payloads, later ones overriding earlier ones. */
  function MergeLast(s: seq<Node>, ms: seq<nat>): Payload
    requires Within(ms, |s|)
    decreases |ms|
  {
    if ms == [] then map[]
    else
      var m := ms[|ms| - 1];
      MergeLast(s, ms[..|ms| - 1]) + (if s[m].lastTrigger.Some? then s[m].lastTrigger.value.data else map[])
  }

  /** A Flow's `last_event`, named after the Flow; a Flow without layers raises IndexError. */
  function FlowLastEvent(s: seq<Node>, f: nat): Result<Event>
    requires WellFormed(s) && f < |s| && s[f].kind.FlowKind?
  {
    var layers := s[f].kind.layers;
    if layers == [] then Err(IndexError)
    else
      LayerWithin(s, f, |layers| - 1);
      Ok(Event(s[f].name, MergeLast(s, LastLayer(layers))))
  }

  /** Node `j` was last triggered with a payload that has `key`. */
  predicate Carries(s: seq<Node>, j: nat, key: string)
    requires j < |s|
  {
    s[j].lastTrigger.Some? && key in s[j].lastTrigger.value.data
  }

  /**
   * A key is in the merged payload iff some last-layer node was triggered
   * with an event whose payload has it; the value comes from the latest such
   * node in layer order.
   */
  lemma MergeLastKeys(s: seq<Node>, ms: seq<nat>, key: string)
    requires Within(ms, |s|)
    ensures key in MergeLast(s, ms) <==> exists i | 0 <= i < |ms| :: Carries(s, ms[i], key)
    ensures forall i | 0 <= i < |ms| && Carries(s, ms[i], key) && (forall i2 | i < i2 < |ms| :: !Carries(s, ms[i2], key))
              :: MergeLast(s, ms)[key] == s[ms[i]].lastTrigger.value.data[key]
  {
    MergeLastHas(s, ms, key);
    forall i | 0 <= i < |ms| && Carries(s, ms[i], key) && (forall i2 | i < i2 < |ms| :: !Carries(s, ms[i2], key))
      ensures MergeLast(s, ms)[key] == s[ms[i]].lastTrigger.value.data[key]
    {
      MergeLastValue(s, ms, key, i);
    }
  }

  lemma {:induction false} MergeLastHas(s: seq<Node>, ms: seq<nat>, key: string)
    requires Within(ms, |s|)
    ensures key in MergeLast(s, ms) <==> exists i | 0 <= i < |ms| :: Carries(s, ms[i], key)
    decreases |ms|
  {
    if ms != [] {
      var pre := ms[..|ms| - 1];
      var last := |ms| - 1;
      MergeLastHas(s, pre, key);
      if exists i | 0 <= i < |ms| :: Carries(s, ms[i], key) {
        var i :| 0 <= i < |ms| && Carries(s, ms[i], key);
        if i < last {
          assert pre[i] == ms[i];
        }
      }
      if exists i | 0 <= i < |pre| :: Carries(s, pre[i], key) {
        var i :| 0 <= i < |pre| && Carries(s, pre[i], key);
        assert ms[i] == pre[i];
      }
    }
  }

  lemma {:induction false} MergeLastValue(s: seq<Node>, ms: seq<nat>, key: string, i: nat)
    requires Within(ms, |s|) && i < |ms| && Carries(s, ms[i], key)
    requires forall i2 | i < i2 < |ms| :: !Carries(s, ms[i2], key)
    ensures key in MergeLast(s, ms) && MergeLast(s, ms)[key] == s[ms[i]].lastTrigger.value.data[key]
    decreases |ms|
  {
    var last := |ms| - 1;
    if i < last {
      var pre := ms[..last];
      assert !Carries(s, ms[last], key);
      assert pre[i] == ms[i];
      MergeLastValue(s, pre, key, i);
    }
  }

  /**
   * A frozen Flow presents itself as one node: once it has chained `c`, its
   * `next_chains` are its anchor's children, ending with `c`.
   */
  lemma ChainFromFlow(s: seq<Node>, f: nat, c: nat)
    requires WellFormed(s) && f < |s| && c < |s| && s[f].kind.FlowKind?
    requires FreezeSpec(s, f).error == None
    ensures var r := ChainSpec(s, f, c);
      var fr := FreezeSpec(s, f).state;
      && WellFormed(fr) && WellFormed(r.state) && |r.state| == |fr|
      && r.state[f].kind == fr[f].kind && r.state[f].kind.frozen
      && NextChains(r.state, f) == NextChains(fr, f) + [c]
  {
    FreezeAnchor(s, f);
    ChainWellFormed(s, f, c);
    var fr := FreezeSpec(s, f).state;
    var a := fr[f].kind.anchor.value;
    var r := LeafChain(fr, a, c);
    assert a != f;
    if fr[c].kind.FlowKind? {
      if fr[c].kind.layers != [] {
        LayerWithin(fr, c, 0);
        var s1 := fr[a := fr[a].(children := fr[a].children + [c])];
        AttachParentEffect(s1, fr[c].kind.layers[0], a, a);
        AttachParentEffect(s1, fr[c].kind.layers[0], a, f);
      }
    } else {
      ConnectEffect(fr, a, c, a);
      ConnectEffect(fr, a, c, f);
    }
  }

  /** Triggering a Flow whose first layer is not empty makes the event its last triggered event. */
  lemma TriggerFlowRecorded(s: seq<Node>, f: nat, e: Event)
    requires WellFormed(s) && f < |s| && s[f].kind.FlowKind?
    requires s[f].kind.layers != [] && s[f].kind.layers[0] != []
    ensures var r := TriggerSpec(s, f, AnEvent(e)).state;
      WellFormed(r) && LastTriggerEvent(r, f) == Ok(Some(e))
  {
    TriggerFrame(s, f, AnEvent(e));
    var r := TriggerSpec(s, f, AnEvent(e)).state;
    FrameWellFormed(s, r);
    LayerWithin(s, f, 0);
    var m := s[f].kind.layers[0][0];
    TriggerFlowFansOut(s, f, e, m);
    assert SameKind(s[f].kind, r[f].kind);
  }

  /**
   * After `p.chain(c)` into a Flow, the Flow's `prev_chains` are the old ones
   * followed by `p`, once per occurrence of the first node in the first layer
   * (so exactly once when that layer has no repetition).
   */
  lemma PrevChainsAfterChain(s: seq<Node>, p: nat, c: nat)
    requires WellFormed(s) && p < |s| && c < |s| && IsLeaf(s[p].kind) && s[c].kind.FlowKind?
    requires s[c].kind.layers != [] && s[c].kind.layers[0] != []
    ensures var r := ChainSpec(s, p, c).state;
      var first := s[c].kind.layers[0];
      var n := multiset(first)[first[0]];
      && WellFormed(r) && PrevChains(s, c).Ok? && PrevChains(r, c).Ok?
      && var before := PrevChains(s, c).value;
      && var after := PrevChains(r, c).value;
      && n >= 1 && |after| == |before| + n && after[..|before|] == before
      && (forall k | |before| <= k < |after| :: after[k] == p)
      && after[|after| - 1] == p
      && (NoDup(first) ==> after == before + [p])
  {
    ChainWellFormed(s, p, c);
    var layers := s[c].kind.layers;
    LayerWithin(s, c, 0);
    var m := layers[0][0];
    ChainIntoFlow(s, p, c, m);
    RowParentsCount(p, layers[0], m);
    if NoDup(layers[0]) {
      RowParentsNoDup(p, layers[0], m);
    }
  }

  /** A target gains the source once per occurrence of it in the new layer. */
  lemma {:induction false} RowParentsCount(p: nat, ms: seq<nat>, j: nat)
    ensures |RowParents(p, ms, j)| == multiset(ms)[j]
    decreases |ms|
  {
    if ms != [] {
      RowParentsCount(p, ms[..|ms| - 1], j);
      CountLast(ms, j);
    }
  }
}
