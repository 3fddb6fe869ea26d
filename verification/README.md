# actchain graph engine, modelled in Dafny

actchain is an in-process dataflow engine. A program builds a graph of
*chainables*, each owning a FIFO queue of events, ordered parent and child
lists, a status (running, stopping, error) and its last emitted, triggered and
handled events. A chainable `emit`s a payload as `Event(name, data)` to every
child, and a child `trigger`ed with an event queues it. A `Chain` runs a
dequeue, handle and emit loop over its queue. The chain kinds are:

- a sequential, a concurrent and an exclusive function chain;
- a Junction that merges the last event of each producer under an "all" or
  "any" rule;
- an Accompany node that merges its input with another node's last emission;
- a pass-through node and an interval-sampling node;
- a LoopChain that emits the values of a source.

A `Flow` composes nodes in layers. It wires each new layer to the last one as
a complete bipartite graph. On `freeze` it appends an anchor node, and from
then on it stands for one node: its input is its first layer and its output is
its anchor.

The model keeps every chainable as a `Node` record in one arena, a
`seq<Node>`. An edge is the index of the node at its other end, and the state
particular to each kind lives in the `Kind` datatype.

- **Specification functions.** Each operation is a pure function from the
  arena to a new arena and an optional error. Where the source raises part-way
  through a loop, the state reached so far is kept, as in Python. These are
  `Delivery.TriggerSpec`, `Delivery.EmitSpec`, `Flows.AddSpec`,
  `Flows.FreezeSpec`, `Flows.ChainSpec`, `Processing.ProcessStep`,
  `Lifecycle.LoopRun` and others.
- **The imperative graph.** `Engine.Graph` holds the arena in a field and
  performs each operation in place, with the loops the source has: the fan-out
  of `emit`, the nested wiring loop of `add`, and the queue drain of
  `run_forever`. Every method is proved to produce exactly the arena the
  specification function gives. Every method that performs a whole
  operation also keeps the arena invariant `Nodes.WellFormed`. The inner
  steps `Engine.Graph.Enqueue`, `Engine.Graph.WireLayers` and
  `Engine.Graph.WireRowLoop` are tied only to their specification functions;
  the lemmas about those functions carry the invariant.
- **Lemmas.** The properties the library promises are proved as lemmas about
  the specification functions.

Code the library calls into is not modelled. This covers the user's handlers,
`transform_fn`s, callbacks and loop sources. Each such call is a `Call` value,
`Returns(result)` or `Raises`, passed to the step that makes it. Concurrency
is reduced to explicit steps. A concurrent chain keeps the tasks it has
started and not finished (`inFlight`), and `CompleteConcurrent(k)` lets any
one of them finish, so completion order is free. An exclusive chain keeps its
single task slot, and `CompleteExclusive` finishes that task. The sampling
node's clock is an integer reading in milliseconds, passed to the step; the
interval is in seconds, as the node is configured.

`_interval_to_seconds` of the sample application is modelled by
`Interval.IntervalToSeconds`. It has a module-level copy and a classmethod
copy (sample/mm/lib/ohlcv.py lines 20-26 and 45-52) with identical bodies, so
one function models both. Python's `int()` is modelled on ASCII text:
surrounding whitespace, an optional sign, and digits separated by single
underscores.

## Model

| member | source | states |
|---|---|---|
| Events.Invoke | actchain/chains/function.py:28 | A call into user code gives the library an error exactly when it raises, and otherwise exactly what it returned |
| Nodes.AppendWellFormed | actchain/chains/base.py:70-85 | Adding a node whose edges and kind refer only to existing nodes keeps the arena well formed |
| Nodes.ConnectWellFormed | actchain/chains/base.py:26-30 | `chain` between two non-Flow nodes appends `c` to `p`'s children and `p` to `c`'s parents, and keeps the arena well formed |
| Delivery.Reach | actchain/chains/flow.py:123-125 | Triggering fails exactly on a Flow without layers, and everything it reaches is a non-Flow node |
| Delivery.ReachTargets | actchain/chains/flow.py:123-125 | Triggering reaches exactly the node itself, or a Flow's first layer, in order |
| Delivery.TriggerEnqueues | actchain/chains/base.py:142-148 | `trigger(e)` on a non-Flow node appends `e` to its queue and records it as the last triggered event; nothing else changes |
| Delivery.TriggerRejectsNonEvent | actchain/chains/base.py:144-145 | Anything but an Event raises TypeError and changes nothing |
| Delivery.TriggerFifo | actchain/chains/base.py:147-148 | Two triggers leave both events behind the old queue in trigger order, so the earlier one is dequeued first |
| Delivery.TriggerFlowFansOut | actchain/chains/flow.py:123-125 | Triggering a Flow queues the event on every node of its first layer, once per occurrence, and on nothing else; an empty Flow raises IndexError |
| Delivery.TriggerAllEffect | actchain/chains/flow.py:124-125 | Queueing on a list of nodes in turn appends the event to each node once per occurrence in the list |
| Delivery.TriggerFrame | actchain/chains/base.py:142-148 | A trigger changes no node's name, edges or kind |
| Delivery.EmitFrame | actchain/chains/base.py:135-140 | An emit changes no node's name, edges or kind |
| Delivery.ExpandFailureSticks | actchain/chains/base.py:139-140 | Once a child's trigger raises, the later children receive nothing |
| Delivery.ExpandLeaves | actchain/chains/base.py:139-140 | When every child is a non-Flow node, the emit reaches exactly the children, in order |
| Delivery.EmitEffect | actchain/chains/base.py:135-140 | `emit(d)` stamps `Event(name, d)` as the last emitted event and queues that event on every reached node; a Flow raises UnsupportedOperation and changes nothing |
| Delivery.EmitToChildren | actchain/chains/base.py:135-140 | With distinct non-Flow children, the emit succeeds, each child's queue gains the event at its tail and records it as last triggered, and the emitter's own queue and last triggered event are untouched |
| Delivery.EmitToChild | actchain/chains/base.py:139-140 | One child of such an emitter gains exactly the emitted event |
| Delivery.EmitToLeaves | actchain/chains/base.py:139-140 | When every child is a non-Flow node, the emit triggers exactly the children, in order, repeated children and the emitter itself included, after the emitter records the event; it does not fail |
| Delivery.ExpandOk | actchain/chains/base.py:139-140 | Triggering a run of targets succeeds iff none of them is a Flow with no layer |
| Delivery.EmitFailsIff | actchain/chains/base.py:135-140 | An emit fails iff one of the emitter's children is a Flow with no layer |
| Flows.NewFlowChecksAnchor | actchain/chains/flow.py:26-31 | The Flow constructor accepts exactly a missing, Junction or PassThrough anchor, and otherwise raises UnsupportedOperation |
| Flows.ConnectEffect | actchain/chains/base.py:150-153 | One `chain` appends one child to `p` and one parent to `c`, and changes nothing else |
| Flows.WireRowEffect | actchain/chains/flow.py:62-63 | Chaining `p` to each of `ms` in turn appends all of `ms` to `p`'s children and `p` to each target's parents |
| Flows.WireEffect | actchain/chains/flow.py:60-63 | The nested wiring loop gives each node exactly the new children and parents the two layers determine, at the tail of its lists |
| Flows.WireWellFormed | actchain/chains/flow.py:60-63 | Wiring keeps every name and kind and keeps the arena well formed |
| Flows.RowParentsNoDup | actchain/chains/flow.py:62-63 | With no repeated target, a target gains the source once as a parent |
| Flows.WireChildrenNoDup | actchain/chains/flow.py:61-63 | With no repeated source, each source node gains exactly the new layer as children |
| Flows.WireParentsNoDup | actchain/chains/flow.py:61-63 | With no repeated target, each new node gains exactly the old last layer, in order, as parents |
| Flows.AddWellFormed | actchain/chains/flow.py:56-65 | `add` keeps the arena well formed |
| Flows.AddFrozenRefused | actchain/chains/flow.py:57-58 | `add` on a frozen Flow raises UnsupportedOperation and changes nothing |
| Flows.AddEffect | actchain/chains/flow.py:56-65 | `add(ms)` appends `ms` as the last layer; the wiring from the old last layer is the only other change, and there is none on the first `add` |
| Flows.AddConnectsLayers | actchain/chains/flow.py:59-65 | For layers without repetition, `add` makes the old last layer and `ms` a complete bipartite graph |
| Flows.PlanAnchorWellFormed | actchain/chains/flow.py:199-226 | A settled anchor is a Junction or PassThrough node, recorded as the Flow's anchor, in a well-formed arena |
| Flows.FreezeViaAdd | actchain/chains/flow.py:76-79 | `freeze` is `add([anchor])` on the arena where the anchor is settled, followed by setting the freeze flag |
| Flows.FreezeWellFormed | actchain/chains/flow.py:67-80 | `freeze` keeps the arena well formed |
| Flows.FreezeFrozenNoop | actchain/chains/flow.py:72-73 | `freeze` on a frozen Flow changes nothing |
| Flows.FreezeEmptyRefused | actchain/chains/flow.py:74-75 | `freeze` on a Flow without layers raises UnsupportedOperation and changes nothing |
| Flows.FreezeChecksAnchor | actchain/chains/flow.py:213-226 | A supplied anchor must be a Junction for a last layer of several nodes and a PassThrough otherwise; a mismatch raises and changes nothing |
| Flows.FreezeEffect | actchain/chains/flow.py:76-80 | After `freeze`, the last layer is `[anchor]`, the Flow is frozen, and the anchor gains the old last layer, in order, as its parents |
| Flows.FreezeCreatesAnchor | actchain/chains/flow.py:202-212 | Without a supplied anchor, `freeze` creates `name + "_anchor"`: a Junction in "all" mode for a last layer of several nodes, a PassThrough otherwise, with the old last layer as its parents and no children |
| Flows.FreezeIdempotent | actchain/chains/flow.py:72-80 | Freezing twice is freezing once |
| Flows.FreezeAnchor | actchain/chains/flow.py:76-80 | A frozen Flow has an anchor, and it is an existing non-Flow node |
| Flows.AttachParentEffect | actchain/chains/flow.py:190-191 | Chaining a parent into a Flow appends it to the parents of each first-layer node, once per occurrence |
| Flows.LeafChainWellFormed | actchain/chains/base.py:150-153 | `chain` from a non-Flow node keeps the arena well formed |
| Flows.ChainWellFormed | actchain/chains/flow.py:127-131 | `chain` keeps the arena well formed, whether or not it raises |
| Flows.ChainLeaves | actchain/chains/base.py:150-153 | Chaining two non-Flow nodes cannot fail; it appends `c` to `p`'s children and `p` to `c`'s parents, and changes nothing else |
| Flows.ChainTwiceDuplicates | actchain/chains/base.py:26-30 | Chaining the same pair twice records the edge twice at both ends |
| Flows.ChainIntoFlow | actchain/chains/flow.py:185-191 | Chaining into a Flow adds the Flow as the parent's child and the parent to every first-layer node; an empty Flow raises UnsupportedOperation after the child edge is added |
| Flows.ChainFromFlow | actchain/chains/flow.py:127-131 | A Flow's `chain(c)` freezes it and makes `c` the last of the anchor's children, so the Flow's `next_chains` gain `c` |
| Flows.NextChains | actchain/chains/flow.py:149-151 | A Flow's `next_chains` are its anchor's children, or none before it has an anchor; they are existing nodes |
| Flows.PrevChainsAfterChain | actchain/chains/flow.py:153-155 | After a parent is chained into a Flow, the Flow's `prev_chains` are the old ones followed by that parent, once per occurrence of the first node in the first layer (exactly once without repetition) |
| Flows.RowParentsCount | actchain/chains/flow.py:60-63 | A new node gains a previous node as parent once per occurrence of it in the new layer |
| Flows.TriggerFlowRecorded | actchain/chains/flow.py:163-169 | After a Flow is triggered, its `last_trigger_event` is that event |
| Flows.FlattenMembers | actchain/chains/flow.py:133-139 | `chainables(flat=True)` holds exactly the members of the layers |
| Flows.FlattenAppend | actchain/chains/flow.py:133-139 | `chainables(flat=True)` keeps the layers' order and repetitions: two runs of layers flatten to the first's list followed by the second's, and one layer to itself |
| Flows.MergeLastKeys | actchain/chains/flow.py:141-147 | A Flow's `last_event` payload holds a key iff some last-layer node's last triggered payload has it, with the value of the latest such node |
| FunctionChains.SequentialHandles | actchain/chains/function.py:24-29 | A sequential chain records the event as last handled and returns the handler's result or its exception |
| FunctionChains.ConcurrentStartsTask | actchain/chains/function.py:38-41 | A concurrent chain records the event, starts one task on it and returns None |
| FunctionChains.ConcurrentFinishRemovesOne | actchain/chains/function.py:40-41 | Completing a task removes exactly that task; the others stay, in order |
| FunctionChains.ExclusiveGate | actchain/chains/function.py:59-64 | An exclusive chain starts a task and records the event iff its slot is empty or done; otherwise it drops the event unchanged; it always returns None |
| FunctionChains.ExclusiveFinishFrees | actchain/chains/function.py:60 | Completing the slot's task marks it done, which frees the slot |
| Junctions.DefaultTransform | actchain/chains/junction.py:62-64 | The default output maps each stored producer name to that event's payload, stale entries included |
| Junctions.AllStoredIff | actchain/chains/junction.py:46-53 | The "all" test holds iff every parent name has a stored event |
| Junctions.AnyStoredIff | actchain/chains/junction.py:54-58 | The "any" test holds iff some parent name has a stored event |
| Junctions.JunctionStores | actchain/chains/junction.py:41-45 | The event is stored under its producer name, replacing an older one, and recorded as last handled; nothing else changes |
| Junctions.JunctionAll | actchain/chains/junction.py:49-53 | In "all" mode the Junction emits iff every parent's name has an entry; with no parents it emits on every event |
| Junctions.JunctionAny | actchain/chains/junction.py:54-58 | In "any" mode it emits iff some parent's name has an entry; with no parents it never emits |
| Junctions.JunctionAnyFromParent | actchain/chains/junction.py:54-58 | In "any" mode an event from a parent always emits |
| Junctions.JunctionCustom | actchain/chains/junction.py:41-66 | With a supplied transform_fn, in "all" or "any" mode, the output is its result or its exception exactly when the mode's rule fires on the stored events (this one included), and None otherwise |
| Junctions.JunctionUnknownMode | actchain/chains/junction.py:59-60 | An unknown mode raises UnsupportedOperation after the event has been stored |
| Junctions.FlatMerge | actchain/chains/junction.py:106-113 | Flat mode has the keys of both payloads, and the primary payload wins on shared keys |
| Junctions.NestedMerge | actchain/chains/junction.py:114-121 | Nested mode is the primary payload plus the secondary's name mapped to the secondary's payload |
| Junctions.AccompanyWaits | actchain/chains/junction.py:98-100 | Before the secondary has emitted, the Accompany node returns None and leaves its state, its last handled event included, untouched |
| Junctions.AccompanyMerges | actchain/chains/junction.py:95-123 | Once the secondary has emitted and without transform_fn, the event is recorded and the output is exactly `FlatMerge(last, event)` or `NestedMerge(event, name, last)`, with their keys and values spelled out, or UnsupportedOperation for an unknown mode |
| Junctions.AccompanyCustom | actchain/chains/junction.py:95-105 | Once the secondary has emitted, a supplied transform_fn replaces both modes: the event is recorded and the output is its result or its exception |
| Junctions.FlatMergeExample | tests/test_chains.py:404-407 | `{msg3: 31}` flat-merged under `{msg1: 1}` gives `{msg1: 1, msg3: 31}` |
| Junctions.NestedMergeExample | tests/test_chains.py:456-459 | `{msg1: 1}` nested with secondary `dummy` gives `{msg1: 1, dummy: {msg3: 31}}` |
| Utilities.PassThroughIdentity | actchain/chains/pass_through.py:22-28 | A PassThrough node returns the payload unchanged whatever the callback returns; only a raising callback stops it; every event becomes the last handled event |
| Utilities.SamplingGate | actchain/chains/sampling.py:31-45 | An event passes iff the node never emitted or at least the interval has elapsed; a passing event returns its payload unchanged and moves the timestamp and last handled event; a suppressed one changes nothing |
| Utilities.SamplingFirstPasses | actchain/chains/sampling.py:29 | A freshly constructed sampling node lets its first event through |
| Utilities.PassedSpacing | actchain/chains/sampling.py:41-45 | Consecutive passing readings are at least the interval apart |
| Utilities.SampleAllPassed | actchain/chains/sampling.py:31-39 | The payloads a run of events yields are exactly those of the events at the passing readings, in order; a fresh node yields the first event's payload first |
| Utilities.PassedAt | actchain/chains/sampling.py:31-39 | The passing positions are increasing and each holds the reading `Passed` lists at that rank |
| Utilities.SampleAllPicks | actchain/chains/sampling.py:31-39 | The payloads a run of events yields are exactly those of the events at the passing readings, in order |
| Utilities.PicksCons | actchain/chains/sampling.py:31-39 | Picking the head and then from the tail is picking position 0 and then one place further on |
| Utilities.PicksShift | actchain/chains/sampling.py:31-39 | Picking payloads from the tail of a run is picking one place further on |
| Utilities.SampleAllExample | tests/test_chains.py:480-510 | Three events read at 0, 100 and 1000 ms with a one-second interval: a fresh node emits the first and the third payloads |
| Utilities.SamplingExample | tests/test_chains.py:478-511 | With a one-second interval, readings at 0 ms, 100 ms and 1000 ms pass the first and the third |
| Processing.Handle | actchain/chains/base.py:268-271 | Handling changes only the handled node's last handled event and kind state, never its name, edges, queue, status or other last events |
| Processing.ProcessFrame | actchain/chains/base.py:244-254 | A processing step keeps the arena well formed and changes no name, edge or kind |
| Processing.ProcessOutcome | actchain/chains/base.py:244-254 | A step dequeues the head and handles it. A handler exception becomes EventHandleError of that event with nothing emitted; None emits nothing; otherwise `Event(name, d)` is emitted and recorded, the arena being the one `Delivery.EmitSpec` leaves, and the outcome is the emission or the emit's error raised. An empty queue waits |
| Processing.ProcessDequeuesOne | actchain/chains/base.py:244-254 | A step takes exactly the head off the queue; an emitting step appends the emitted event to each child's queue; a non-emitting one changes no other node |
| Processing.PassThroughReemits | actchain/chains/pass_through.py:22-28 | Unless a child is a Flow with no layer, a PassThrough step re-emits the head event's payload under its own name, once, and records the head as its last handled event |
| Processing.ConcurrentNeverEmitsOnHandle | actchain/chains/function.py:38-41 | A concurrent chain's step never emits; it records the event and adds a task |
| Processing.ConcurrentCompletionEmits | actchain/chains/base.py:262-265 | Only that task leaves the set; a raising handler is reported and a None result is silent, with no other change; any other result is emitted as `Delivery.EmitSpec` does it, the outcome being the emission or, when the emit fails, that error reported, never raised |
| Processing.ExclusiveDropsWhileBusy | actchain/chains/function.py:59-64 | While a task is in flight, an exclusive step only removes the head from the queue |
| Processing.ExclusiveStartsWhenFree | actchain/chains/function.py:59-64 | With a free slot, an exclusive step starts a task on the head event, records it and emits nothing |
| Processing.SequentialStep | actchain/chains/function.py:24-29 | A sequential step whose handler returns `d` emits `Event(name, d)` to every child |
| Processing.SequentialEmitsInOrder | actchain/chains/function.py:24-29 | Over `n` steps, a sequential chain's outcomes are exactly its emissions, in dequeue order: each child's queue gains them in that order, and the last handled event is the `n`-th dequeued one; the queue loses its first `n` events |
| Processing.SequencedCompose | actchain/chains/function.py:24-29 | One step emitting `e` followed by steps emitting `es` is steps emitting `[e] + es` |
| Processing.ExclusiveBusyDrain | actchain/chains/function.py:59-64 | While a task is in flight, any number of steps only drop events |
| Processing.ExclusiveOneInFlight | tests/test_chains.py:179-215 | Several events before a completion start one task, on the first event; its completion emits its result once |
| Processing.ConcurrentDrain | actchain/chains/function.py:38-41 | `n` concurrent steps start `n` tasks in dequeue order, emit nothing, and leave the last dequeued event as last handled |
| Lifecycle.RunGuardRefusesRunning | actchain/chains/base.py:94-99 | `run` raises ChainableAlreadyRunning iff the node is running; otherwise only the status changes, to running |
| Lifecycle.RunLifecycle | actchain/chains/base.py:80-101 | A new node can run; a normal return leaves it stopping; a raising body leaves it running, so a second `run` is refused until the restart step |
| Lifecycle.RestartRunnable | actchain/chains/base.py:125-133 | The restart step sets ERROR, drains the queue when `clear_queue` is set, and keeps edges and last events |
| Lifecycle.EmitAllSnoc | actchain/chains/loop.py:24-25 | After successful emits, emitting one more value is one more `emit` |
| Lifecycle.EmitAllStops | actchain/chains/loop.py:23-25 | Once an emit raises, no later value is emitted |
| Lifecycle.EmitAllInOrder | actchain/chains/loop.py:22-25 | Every value is emitted once, in order, stamped with the node's name; each child's queue gains them in order; the last value is the last emitted event; the node's own queue is never read |
| Lifecycle.EmitsCompose | actchain/chains/loop.py:24-25 | Emitting one event and then more is emitting their concatenation |
| Lifecycle.LoopEmitsThenDone | actchain/chains/loop.py:22-26 | A LoopChain emits all its values and sets `done` and STOPPING iff the source ends normally; if the source raises, the same emissions happen, `done` is unchanged and the status stays running |
| Lifecycle.LoopRunRefused | actchain/chains/base.py:96-97 | A running LoopChain refuses to run and changes nothing |
| Interval.DigitsOfNatToString | sample/mm/lib/ohlcv.py:22 | Reading the decimal text of `n` gives `n` |
| Interval.ParseIntRoundTrip | sample/mm/lib/ohlcv.py:22 | `int` reads back the decimal text of every natural number |
| Interval.IntervalAccepts | sample/mm/lib/ohlcv.py:20-26 | The result is a value iff the text ends in "m" or "h" and `int` accepts the prefix, and then it is 60 or 3600 times that number; any other suffix raises ValueError naming the interval |
| Interval.IntervalScales | sample/mm/lib/ohlcv.py:45-52 | "<N>m" is N·60 and "<N>h" is N·3600 for every natural N; the classmethod copy has the same body |
| Interval.IntervalLiterals | sample/mm/lib/ohlcv.py:17 | Each `TInterval` literal maps to a positive multiple of 60: 60, 180, 300, 900, 1800, 3600, 7200, 14400 and 28800 |
| Engine.Graph.NewChain | actchain/chains/base.py:77-82 | A new non-Flow node starts stopping, with no edges, no queue and no last events, at the end of the arena |
| Engine.Graph.NewFlow | actchain/chains/flow.py:23-33 | The Flow constructor, as `Flows.NewFlowSpec` |
| Engine.Graph.Enqueue | actchain/chains/base.py:147-148 | The event is recorded and appended to the queue |
| Engine.Graph.Trigger | actchain/chains/flow.py:123-125 | The loop over the first layer leaves the arena and error `Delivery.TriggerSpec` gives |
| Engine.Graph.TriggerLeaves | actchain/chains/flow.py:124-125 | Queueing on each node in turn is `Delivery.TriggerAll` |
| Engine.Graph.Emit | actchain/chains/base.py:135-140 | The loop over the children, each expanded by its own trigger, leaves exactly the arena and error of `Delivery.EmitSpec` |
| Engine.Graph.Next | actchain/chains/base.py:158-160 | `next` removes and returns the head of the queue; an empty queue waits; a Flow raises UnsupportedOperation |
| Engine.Graph.ProcessEvent | actchain/chains/base.py:244-254 | `_process_event` leaves the arena and outcome of `Processing.ProcessStep` |
| Engine.Graph.EmitAfterTask | actchain/chains/base.py:262-265 | `_emit_after_task` leaves the arena and outcome of `Processing.AfterTask` |
| Engine.Graph.CompleteConcurrentTask | actchain/chains/function.py:40-41 | A concurrent task completes as `Processing.CompleteConcurrent` |
| Engine.Graph.CompleteExclusiveTask | actchain/chains/function.py:62-63 | The exclusive task completes as `Processing.CompleteExclusive` |
| Engine.Graph.ConnectLeaves | actchain/chains/base.py:150-153 | Two list appends give `Nodes.Connect` |
| Engine.Graph.Add | actchain/chains/flow.py:56-65 | The nested wiring loop, then the new layer, give `Flows.AddSpec` |
| Engine.Graph.WireLayers | actchain/chains/flow.py:60-63 | The outer loop over the previous layer gives `Flows.Wire` |
| Engine.Graph.WireRowLoop | actchain/chains/flow.py:62-63 | The inner loop connects one previous node to each new node in turn, as `Flows.WireRow` |
| Engine.Graph.SetAnchor | actchain/chains/flow.py:199-226 | `_set_anchor_chain` creates or checks the anchor as `Flows.PlanAnchor` |
| Engine.Graph.Freeze | actchain/chains/flow.py:67-80 | Settling the anchor, `add`, then the flag give `Flows.FreezeSpec` |
| Engine.Graph.ChainFromLeaf | actchain/chains/flow.py:185-191 | The child edge, then the loop over a Flow's first layer, give `Flows.LeafChain` |
| Engine.Graph.Chain | actchain/chains/flow.py:127-131 | `chain` gives `Flows.ChainSpec`: a Flow freezes and then its anchor chains the child |
| Engine.Graph.RunLoop | actchain/chains/loop.py:22-26 | The emit loop of a LoopChain under the `run` guard gives `Lifecycle.LoopRun` |
| Engine.Graph.RestartNode | actchain/chains/base.py:125-133 | The restart step's drain loop empties the queue and sets ERROR, as `Lifecycle.Restart` |

## Left out

- Flows nested in a Flow's layer are not modelled. Layer members are non-Flow nodes (`Nodes.WellFormed`). A Flow can still be chained into and be an Accompany secondary.
- Running a Flow (`Flow._run_impl`, `Flow.run_forever`) and `asyncio.gather` are not modelled; concurrency is reduced to explicit task-start and task-completion steps.
- The body of `run_forever` beyond one restart turn is not modelled. This covers the cooldown sleep, the `onstart` and `onerror` hooks, the loguru logging, and the endless loop. `Lifecycle.Restart` and `Engine.Graph.RestartNode` model the status change and the queue drain.
- `Chain._run_impl`, the endless loop of `_process_event` calls, is not modelled as a loop. `Processing.Drain` composes a given number of steps.
- Names generated with uuid when none is given are not modelled; the name is a parameter.
- The `type_receive` and `type_send` fields are not modelled; they only carry Python types.
- The sampling clock is an integer millisecond reading rather than `time.time()` floats. Python reads the clock twice in one handling, once in `_should_thinning_out` and once when stamping; the model uses one reading for both.
- Python's `int()` on non-ASCII digits and whitespace is not modelled; `Interval.ParseInt` works on ASCII only.
- The user's handlers, transforms, callbacks and loop sources are not modelled. A callback is modelled only by whether it raises, since its return value is discarded.
- `Engine.Graph.Next`: an empty queue makes `next` wait in Python; the model returns None instead of blocking.
- Processing.SequentialEmitsInOrder: stated for a node whose children are distinct non-Flow nodes other than itself (`Delivery.ChildrenSimple`). The general case is covered one step at a time by `Processing.ProcessOutcome`.
- Processing.ExclusiveOneInFlight: stated under the same assumption on children.
- Processing.SequentialStep: stated under the same assumption on children. With a repeated child, the emitter among its own children or a Flow child, a node gains the event once per time it is reached. `Processing.ProcessOutcome` together with `Delivery.EmitEffect` states that case.
- Lifecycle.EmitAllInOrder: stated under the same assumption on children.
- Lifecycle.LoopEmitsThenDone: stated under the same assumption on children.
- Processing.ProcessDequeuesOne: stated under the same assumption on children.
- The legacy modules actchain/chain.py, actchain/flow.py and actchain/chainable.py are not part of this model, nor is actchain/function.py. The `FunctionKind`, `ConcurrentKind` and `ExclusiveKind` constructors stand for its `chain_type` choice.
- The event record and the exception classes (actchain/event.py, actchain/exceptions.py) are datatypes in `Events`; a handler exception's class and message are folded into `UserCodeError`.
