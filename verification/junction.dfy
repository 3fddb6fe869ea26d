/**
 * The merge nodes of actchain/chains/junction.py. A Junction keeps the last
 * event of each producer and emits under an all/any rule over its parents'
 * names; an Accompany node merges each payload with the last emission of a
 * secondary node, flat or nested.
 */
module Junctions {
  import opened Events
  import opened Nodes

  // ---------------------------------------------------------------------------
  // Junction

  /** Python's `all` over "this parent's name has a stored event". */
  function AllStored(names: seq<string>, stored: map<string, Event>): bool
    decreases |names|
  {
    if names == [] then true
    else AllStored(names[..|names| - 1], stored) && names[|names| - 1] in stored
  }

  /** Python's `any` over "this parent's name has a stored event". */
  function AnyStored(names: seq<string>, stored: map<string, Event>): bool
    decreases |names|
  {
    if names == [] then false
    else AnyStored(names[..|names| - 1], stored) || names[|names| - 1] in stored
  }

  /** The default `transform`: each stored event's producer name mapped to its payload. */
  function DefaultTransform(stored: map<string, Event>): (p: Payload)
    requires Keyed(stored)
    ensures p.Keys == stored.Keys
    ensures forall v | v in stored.Values :: v.name in p && p[v.name] == Dict(v.data)
  {
    map k | k in stored :: Dict(stored[k].data)
  }

  /** `transform`: the supplied transform_fn, called with the stored events, or the default. */
  function JunctionTransform(custom: bool, stored: map<string, Event>, call: Call): Result<Option<Payload>>
    requires Keyed(stored)
  {
    if custom then Invoke(call) else Ok(Some(DefaultTransform(stored)))
  }

  /**
   * `JunctionChain._on_handle`: record the event as last handled and store it
   * under its producer's name (before the mode is looked at), then, in "all"
   * or "any" mode, transform the stored events when every or some parent
   * name has an entry; any other mode raises UnsupportedOperation.
   */
  function HandleJunction(n: Node, parentNames: seq<string>, e: Event, call: Call): (h: Handled)
    requires n.kind.JunctionKind? && Keyed(n.kind.lastEvents)
  {
    var stored := n.kind.lastEvents[e.name := e];
    var n1 := n.(lastHandle := Some(e), kind := n.kind.(lastEvents := stored));
    match n.kind.junctionMode
    case All =>
      if AllStored(parentNames, stored) then Handled(n1, JunctionTransform(n.kind.junctionTransform, stored, call))
      else Handled(n1, Ok(None))
    case Any =>
      if AnyStored(parentNames, stored) then Handled(n1, JunctionTransform(n.kind.junctionTransform, stored, call))
      else Handled(n1, Ok(None))
    case OtherJunctionMode(m) =>
      Handled(n1, Err(UnsupportedOperation("invalid mode: " + m)))
  }

  lemma {:induction false} AllStoredIff(names: seq<string>, stored: map<string, Event>)
    ensures AllStored(names, stored) <==> forall k | 0 <= k < |names| :: names[k] in stored
    decreases |names|
  {
    if names != [] {
      AllStoredIff(names[..|names| - 1], stored);
    }
  }

  lemma {:induction false} AnyStoredIff(names: seq<string>, stored: map<string, Event>)
    ensures AnyStored(names, stored) <==> exists k | 0 <= k < |names| :: names[k] in stored
    decreases |names|
  {
    if names != [] {
      var pre := names[..|names| - 1];
      AnyStoredIff(pre, stored);
      if exists k | 0 <= k < |names| :: names[k] in stored {
        var k :| 0 <= k < |names| && names[k] in stored;
        if k < |names| - 1 {
          assert pre[k] == names[k];
        }
      }
    }
  }

  /**
   * Whatever the mode, the event is stored under its producer's name,
   * replacing an older entry of that name, and becomes the last handled
   * event; entries stay filed under their producers' names.
   */
  lemma JunctionStores(n: Node, parentNames: seq<string>, e: Event, call: Call)
    requires n.kind.JunctionKind? && Keyed(n.kind.lastEvents)
    ensures var h := HandleJunction(n, parentNames, e, call);
      && h.node == n.(lastHandle := Some(e), kind := n.kind.(lastEvents := n.kind.lastEvents[e.name := e]))
      && h.node.kind.lastEvents.Keys == n.kind.lastEvents.Keys + {e.name}
      && Keyed(h.node.kind.lastEvents)
  {
  }

  /**
   * "all" mode without transform_fn: the node emits iff every parent name
   * has a stored entry (so always when it has no parents), and what it emits
   * maps every stored name, stale ones included, to its event's payload.
   */
  lemma JunctionAll(n: Node, parentNames: seq<string>, e: Event, call: Call)
    requires n.kind.JunctionKind? && n.kind.junctionMode == All && !n.kind.junctionTransform
    requires Keyed(n.kind.lastEvents)
    ensures var stored := n.kind.lastEvents[e.name := e];
      var h := HandleJunction(n, parentNames, e, call);
      && h.result.Ok?
      && (h.result.value.Some? <==> forall k | 0 <= k < |parentNames| :: parentNames[k] in stored)
      && (h.result.value.Some? ==> h.result.value.value == DefaultTransform(stored))
      && (parentNames == [] ==> h.result.value.Some?)
  {
    AllStoredIff(parentNames, n.kind.lastEvents[e.name := e]);
  }

  /**
   * "any" mode without transform_fn: the node emits iff some parent name has
   * a stored entry (so never when it has no parents).
   */
  lemma JunctionAny(n: Node, parentNames: seq<string>, e: Event, call: Call)
    requires n.kind.JunctionKind? && n.kind.junctionMode == Any && !n.kind.junctionTransform
    requires Keyed(n.kind.lastEvents)
    ensures var stored := n.kind.lastEvents[e.name := e];
      var h := HandleJunction(n, parentNames, e, call);
      && h.result.Ok?
      && (h.result.value.Some? <==> exists k | 0 <= k < |parentNames| :: parentNames[k] in stored)
      && (h.result.value.Some? ==> h.result.value.value == DefaultTransform(stored))
      && (parentNames == [] ==> h.result.value.None?)
  {
    AnyStoredIff(parentNames, n.kind.lastEvents[e.name := e]);
  }

  /** In "any" mode the producer of the event is itself a parent or not; when it is, every event is emitted. */
  lemma JunctionAnyFromParent(n: Node, parentNames: seq<string>, e: Event, call: Call)
    requires n.kind.JunctionKind? && n.kind.junctionMode == Any && !n.kind.junctionTransform
    requires Keyed(n.kind.lastEvents) && e.name in parentNames
    ensures HandleJunction(n, parentNames, e, call).result.Ok?
    ensures HandleJunction(n, parentNames, e, call).result.value.Some?
  {
    AnyStoredIff(parentNames, n.kind.lastEvents[e.name := e]);
    var k :| 0 <= k < |parentNames| && parentNames[k] == e.name;
  }

  /**
   * With a supplied transform_fn, in "all" or "any" mode: when the mode's rule
   * fires on the stored events (this event included) the output is the
   * transform's result, or its exception; otherwise nothing is emitted.
   */
  lemma JunctionCustom(n: Node, parentNames: seq<string>, e: Event, call: Call)
    requires n.kind.JunctionKind? && n.kind.junctionTransform && Keyed(n.kind.lastEvents)
    requires n.kind.junctionMode == All || n.kind.junctionMode == Any
    ensures var stored := n.kind.lastEvents[e.name := e];
      var fires := if n.kind.junctionMode == All
        then forall k | 0 <= k < |parentNames| :: parentNames[k] in stored
        else exists k | 0 <= k < |parentNames| :: parentNames[k] in stored;
      HandleJunction(n, parentNames, e, call).result == if fires then Invoke(call) else Ok(None)
  {
    AllStoredIff(parentNames, n.kind.lastEvents[e.name := e]);
    AnyStoredIff(parentNames, n.kind.lastEvents[e.name := e]);
  }

  /** An unknown mode raises UnsupportedOperation, after the event has been stored. */
  lemma JunctionUnknownMode(n: Node, parentNames: seq<string>, e: Event, call: Call)
    requires n.kind.JunctionKind? && n.kind.junctionMode.OtherJunctionMode? && Keyed(n.kind.lastEvents)
    ensures var h := HandleJunction(n, parentNames, e, call);
      h.result.Err? && h.result.error.UnsupportedOperation? && e.name in h.node.kind.lastEvents
      && h.node.kind.lastEvents[e.name] == e
  {
  }

  // ---------------------------------------------------------------------------
  // Accompany

  /** Flat mode, `{**secondary, **primary}`: the primary payload wins on shared keys. */
  function FlatMerge(secondary: Payload, primary: Payload): (p: Payload)
    ensures p.Keys == secondary.Keys + primary.Keys
    ensures forall k | k in primary :: p[k] == primary[k]
    ensures forall k | k in secondary && k !in primary :: p[k] == secondary[k]
  {
    secondary + primary
  }

  /** Nested mode, `{**primary, name: secondary}`: one more key, the secondary's name, holding its payload. */
  function NestedMerge(primary: Payload, secondaryName: string, secondary: Payload): (p: Payload)
    ensures p.Keys == primary.Keys + {secondaryName}
    ensures p[secondaryName] == Dict(secondary)
    ensures forall k | k in primary && k != secondaryName :: p[k] == primary[k]
  {
    primary[secondaryName := Dict(secondary)]
  }

  /** `AccompanyChain._transform`: a supplied transform_fn replaces both modes; an unknown mode raises. */
  function AccompanyTransform(k: Kind, secondaryName: string, secondary: Payload, primary: Payload, call: Call): Result<Option<Payload>>
    requires k.AccompanyKind?
  {
    if k.accompanyTransform then Invoke(call)
    else
      match k.accompanyMode
      case Flat => Ok(Some(FlatMerge(secondary, primary)))
      case Nested => Ok(Some(NestedMerge(primary, secondaryName, secondary)))
      case OtherAccompanyMode(m) => Err(UnsupportedOperation("Unsupported concatenation: " + m))
  }

  /**
   * `AccompanyChain._on_handle`, given the secondary's name and its last
   * emitted event: nothing happens until the secondary has emitted; then the
   * event becomes the last handled event and the payload is merged.
   */
  function HandleAccompany(n: Node, secondaryName: string, secondaryLast: Option<Event>, e: Event, call: Call): Handled
    requires n.kind.AccompanyKind?
  {
    if secondaryLast.None? then Handled(n, Ok(None))
    else
      Handled(n.(lastHandle := Some(e)),
              AccompanyTransform(n.kind, secondaryName, secondaryLast.value.data, e.data, call))
  }

  /** Before the secondary has emitted, an Accompany node returns None and leaves its state, its last handled event included, untouched. */
  lemma AccompanyWaits(n: Node, secondaryName: string, e: Event, call: Call)
    requires n.kind.AccompanyKind?
    ensures HandleAccompany(n, secondaryName, None, e, call) == Handled(n, Ok(None))
  {
  }

  /**
   * Once the secondary has emitted, the event is handled and, without
   * transform_fn, the result in flat mode has the secondary's keys overlaid
   * by the primary's, and in nested mode the primary's keys plus the
   * secondary's name holding its payload; an unknown mode raises.
   */
  lemma AccompanyMerges(n: Node, secondaryName: string, last: Event, e: Event, call: Call)
    requires n.kind.AccompanyKind? && !n.kind.accompanyTransform
    ensures var h := HandleAccompany(n, secondaryName, Some(last), e, call);
      && h.node == n.(lastHandle := Some(e))
      && (n.kind.accompanyMode == Flat ==> h.result == Ok(Some(FlatMerge(last.data, e.data))))
      && (n.kind.accompanyMode == Nested ==> h.result == Ok(Some(NestedMerge(e.data, secondaryName, last.data))))
      && (n.kind.accompanyMode == Flat ==>
            h.result.Ok? && h.result.value.Some?
            && h.result.value.value.Keys == last.data.Keys + e.data.Keys
            && forall k | k in h.result.value.value ::
                 h.result.value.value[k] == if k in e.data then e.data[k] else last.data[k])
      && (n.kind.accompanyMode == Nested ==>
            h.result.Ok? && h.result.value.Some?
            && h.result.value.value.Keys == e.data.Keys + {secondaryName}
            && h.result.value.value[secondaryName] == Dict(last.data)
            && forall k | k in e.data && k != secondaryName :: h.result.value.value[k] == e.data[k])
      && (n.kind.accompanyMode.OtherAccompanyMode? ==> h.result.Err? && h.result.error.UnsupportedOperation?)
  {
  }

  /** Once the secondary has emitted, a supplied transform_fn replaces both modes: its result, or its exception. */
  lemma AccompanyCustom(n: Node, secondaryName: string, last: Event, e: Event, call: Call)
    requires n.kind.AccompanyKind? && n.kind.accompanyTransform
    ensures HandleAccompany(n, secondaryName, Some(last), e, call) == Handled(n.(lastHandle := Some(e)), Invoke(call))
  {
  }

  /** The flat merge of the test scenario: `{msg3: 31}` under `{msg1: 1}` gives `{msg1: 1, msg3: 31}`. */
  lemma FlatMergeExample()
    ensures FlatMerge(map["msg3" := Int(31)], map["msg1" := Int(1)]) == map["msg1" := Int(1), "msg3" := Int(31)]
  {
  }

  /** The nested merge of the test scenario: `{msg1: 1}` with secondary `dummy` gives `{msg1: 1, dummy: {msg3: 31}}`. */
  lemma NestedMergeExample()
    ensures NestedMerge(map["msg1" := Int(1)], "dummy", map["msg3" := Int(31)])
         == map["msg1" := Int(1), "dummy" := Dict(map["msg3" := Int(31)])]
  {
  }
}
