# Entry span state machine (SkyWalking agent)

This project models the SkyWalking agent's entry span, `EntrySpan`. An entry span marks a service
boundary, such as a servlet container handing a request to an RPC framework. When several
instrumented boundaries are nested inside one trace segment, each one calls `start()` on the same
span object. Two counters keep track of this:

- `stackDepth` is incremented by every `start()`.
- `currentMaxDepth` is set to the new depth by every `start()`.

The attribute mutators (`tag`, `setLayer`, both `setComponent` overloads, `setOperationName` and
`setOperationId`) take effect only while `stackDepth == currentMaxDepth`. Otherwise they are silent
no-ops that return the same span. `log` is always recorded. Only the `start()` that brings the depth
to 1 records the start time. Every `start()` wipes component, layer, logs and tags. So the deepest,
most recent start owns the visible attributes, as the class comment says. Once an inner boundary has
returned, later mutations by the outer boundary are ignored. The span also keeps a list of
parent-segment references: `ref` stores a reference only if no equal one is stored yet, and
`transform` emits one wire reference per stored reference, in list order, after the base fields.

Note: the deepest start, not the outermost, owns the attributes, and every start clears them, not
only the first (EntrySpan.java lines 33-35, 63-68 and 157-163).

Files:

- `dictionary.dfy` (`DictionaryUtil`) holds the dictionary's reserved "not yet resolved" id.
- `segment_refs.dfy` (`SegmentRefs`) holds the dedup-on-insert reference list and its lemmas: no
  duplicates, insertion order preserved, repeated insertion keeps one copy, and the stored count
  equals the number of distinct references.
- `entry_span_model.dfy` (`EntrySpanModel`) holds the span's fields as a value (`SpanState`) and the
  effect of each call as `Step`. `Run` applies a sequence of calls. The lemmas are about one call and
  about any run.
- `entry_span.dfy` (`EntrySpans`) holds the class `EntrySpan`. Its fields are updated in place, and
  every state-changing call is proved to have exactly the effect `Step` gives it
  (`State() == Step(old(State()), …)`). `ClearWhenRestart` is tied to `Cleared`. `Transform` is a
  loop over the stored references, and `IsEntry`/`IsExit` are constants.

Parameters stand in for what the code reads from outside:

- `now` stands for the clock reading the superclass takes on its start.
- `toWire` stands for `TraceSegmentRef.transform`.
- The reference type `R` is generic, and its equality stands for `TraceSegmentRef.equals`.

## Model

| member | source | states |
|---|---|---|
| `EntrySpans.EntrySpan.WithOperationName` | apm-sniffer/apm-agent-core/src/main/java/org/skywalking/apm/agent/core/context/trace/EntrySpan.java:49-52 | a span built from an operation name has `currentMaxDepth == 0` and depth 0, stores the name, and has no refs |
| `EntrySpans.EntrySpan.WithOperationId` | apm-sniffer/apm-agent-core/src/main/java/org/skywalking/apm/agent/core/context/trace/EntrySpan.java:54-57 | a span built from an operation id has `currentMaxDepth == 0` and depth 0, stores the id, and has no refs |
| `EntrySpans.EntrySpan.Start` | apm-sniffer/apm-agent-core/src/main/java/org/skywalking/apm/agent/core/context/trace/EntrySpan.java:62-69 | depth grows by one; `currentMaxDepth` equals the new depth; the start time is set to `now` exactly when the new depth is 1 and is kept otherwise; the attributes are cleared; the same span is returned |
| `EntrySpans.EntrySpan.Tag` | apm-sniffer/apm-agent-core/src/main/java/org/skywalking/apm/agent/core/context/trace/EntrySpan.java:71-77 | the tag is appended only while depth equals max depth; otherwise the object is unchanged; the same span is returned |
| `EntrySpans.EntrySpan.SetLayer` | apm-sniffer/apm-agent-core/src/main/java/org/skywalking/apm/agent/core/context/trace/EntrySpan.java:79-86 | the layer is set only while depth equals max depth; otherwise the object is unchanged |
| `EntrySpans.EntrySpan.SetComponent` | apm-sniffer/apm-agent-core/src/main/java/org/skywalking/apm/agent/core/context/trace/EntrySpan.java:88-95 | the component id is set only while depth equals max depth; otherwise the object is unchanged |
| `EntrySpans.EntrySpan.SetComponentName` | apm-sniffer/apm-agent-core/src/main/java/org/skywalking/apm/agent/core/context/trace/EntrySpan.java:97-104 | the component name is set only while depth equals max depth; otherwise the object is unchanged |
| `EntrySpans.EntrySpan.SetOperationName` | apm-sniffer/apm-agent-core/src/main/java/org/skywalking/apm/agent/core/context/trace/EntrySpan.java:106-113 | the operation name is set only while depth equals max depth; otherwise the object is unchanged |
| `EntrySpans.EntrySpan.SetOperationId` | apm-sniffer/apm-agent-core/src/main/java/org/skywalking/apm/agent/core/context/trace/EntrySpan.java:115-122 | the operation id is set only while depth equals max depth; otherwise the object is unchanged |
| `EntrySpans.EntrySpan.Log` | apm-sniffer/apm-agent-core/src/main/java/org/skywalking/apm/agent/core/context/trace/EntrySpan.java:124-128 | the error is appended to the logs whatever the depth |
| `EntrySpans.EntrySpan.IsEntry` | apm-sniffer/apm-agent-core/src/main/java/org/skywalking/apm/agent/core/context/trace/EntrySpan.java:130-132 | an entry span always reports itself as an entry |
| `EntrySpans.EntrySpan.IsExit` | apm-sniffer/apm-agent-core/src/main/java/org/skywalking/apm/agent/core/context/trace/EntrySpan.java:134-136 | an entry span never reports itself as an exit |
| `EntrySpans.EntrySpan.Transform` | apm-sniffer/apm-agent-core/src/main/java/org/skywalking/apm/agent/core/context/trace/EntrySpan.java:138-146 | the wire object carries the base fields and exactly one wire ref per stored ref, in stored order; none if `ref` was never called |
| `EntrySpans.EntrySpan.Ref` | apm-sniffer/apm-agent-core/src/main/java/org/skywalking/apm/agent/core/context/trace/EntrySpan.java:148-155 | the list is allocated on first use; the ref is appended only if no equal ref is stored; no other field changes; the invariant (no duplicates) is kept |
| `EntrySpans.EntrySpan.ClearWhenRestart` | apm-sniffer/apm-agent-core/src/main/java/org/skywalking/apm/agent/core/context/trace/EntrySpan.java:157-163 | component id becomes the null sentinel; component name, layer, logs and tags are emptied; nothing else changes |
| `EntrySpans.EntrySpan.Leave` | apm-sniffer/apm-agent-core/src/main/java/org/skywalking/apm/agent/core/context/trace/EntrySpan.java:39 | stand-in for the superclass finish: only decrements the depth, and keeps the invariant |
| `SegmentRefs.InsertIfAbsent` | apm-sniffer/apm-agent-core/src/main/java/org/skywalking/apm/agent/core/context/trace/EntrySpan.java:152-154 | the ref is present afterwards; the element set grows by exactly that ref; the old list is a prefix; the list is unchanged iff the ref was already present; duplicate-freedom is preserved |
| `SegmentRefs.InsertAll` | apm-sniffer/apm-agent-core/src/main/java/org/skywalking/apm/agent/core/context/trace/EntrySpan.java:148-155 | a series of `ref` calls stores exactly the union of refs, keeps the earlier list as a prefix and never introduces a duplicate |
| `SegmentRefs.EarlierRefsStayFirst` | apm-sniffer/apm-agent-core/src/main/java/org/skywalking/apm/agent/core/context/trace/EntrySpan.java:148-155 | insertion order is preserved: refs stored earlier keep their positions whatever is inserted later |
| `SegmentRefs.RepeatedRefKeepsOne` | apm-sniffer/apm-agent-core/src/main/java/org/skywalking/apm/agent/core/context/trace/EntrySpan.java:152-154 | inserting the same ref n ≥ 1 times is the same as inserting it once: at most one copy |
| `SegmentRefs.StoredRefsCount` | apm-sniffer/apm-agent-core/src/main/java/org/skywalking/apm/agent/core/context/trace/EntrySpan.java:148-155 | from an empty list, the stored count equals the number of distinct refs inserted |
| `EntrySpanModel.CreatedIsValid` | apm-sniffer/apm-agent-core/src/main/java/org/skywalking/apm/agent/core/context/trace/EntrySpan.java:49-57 | a freshly constructed span satisfies the invariant, has depth and max depth 0, an open gate and no refs, whichever constructor is used |
| `EntrySpanModel.StartOpensGate` | apm-sniffer/apm-agent-core/src/main/java/org/skywalking/apm/agent/core/context/trace/EntrySpan.java:64 | after any start the depth is one more than before, the max depth equals it, and the mutation gate is open |
| `EntrySpanModel.StartTimeOnlyAtDepthOne` | apm-sniffer/apm-agent-core/src/main/java/org/skywalking/apm/agent/core/context/trace/EntrySpan.java:64-66 | a start from depth 0 records `now`; a start from any other depth leaves the start time unchanged |
| `EntrySpanModel.StartClearsAttributes` | apm-sniffer/apm-agent-core/src/main/java/org/skywalking/apm/agent/core/context/trace/EntrySpan.java:63-68 | every start, at any depth, resets component id to the sentinel and component name, layer, logs and tags to empty; operation name and id, ids and refs survive |
| `EntrySpanModel.ClosedGateIgnoresMutator` | apm-sniffer/apm-agent-core/src/main/java/org/skywalking/apm/agent/core/context/trace/EntrySpan.java:71-122 | any gated mutator leaves the whole state unchanged while depth differs from max depth |
| `EntrySpanModel.OpenGateAppliesMutator` | apm-sniffer/apm-agent-core/src/main/java/org/skywalking/apm/agent/core/context/trace/EntrySpan.java:71-122 | with the gate open, each mutator writes its own attribute and nothing else: every other field (counters, logs, start time, span ids, refs, the other attributes) is unchanged |
| `EntrySpanModel.LogAlwaysRecorded` | apm-sniffer/apm-agent-core/src/main/java/org/skywalking/apm/agent/core/context/trace/EntrySpan.java:124-128 | log appends the error at any depth and changes nothing else |
| `EntrySpanModel.RefStoresOnce` | apm-sniffer/apm-agent-core/src/main/java/org/skywalking/apm/agent/core/context/trace/EntrySpan.java:148-155 | after `ref(r)`, r is stored; the old refs are a prefix; the length grows by one iff r was absent; duplicate-freedom is kept; no other field changes |
| `EntrySpanModel.RunPreservesInv` | apm-sniffer/apm-agent-core/src/main/java/org/skywalking/apm/agent/core/context/trace/EntrySpan.java:63-155 | over any sequence of calls: depth never exceeds max depth, an allocated ref list is non-empty, and refs never contain duplicates |
| `EntrySpanModel.ClosedGateFreezesAttributes` | apm-sniffer/apm-agent-core/src/main/java/org/skywalking/apm/agent/core/context/trace/EntrySpan.java:71-122 | once an inner boundary has returned (depth below max), no call sequence without a start changes the visible attributes |
| `EntrySpanModel.StartTimeFixedWhileNested` | apm-sniffer/apm-agent-core/src/main/java/org/skywalking/apm/agent/core/context/trace/EntrySpan.java:64-66 | while the depth stays at least 1 after every call, nested starts, inner finishes and every other call leave the start time unchanged |
| `EntrySpanModel.InnerFinishKeepsStartTime` | apm-sniffer/apm-agent-core/src/main/java/org/skywalking/apm/agent/core/context/trace/EntrySpan.java:64-66 | from depth 0, start(a), start(b), an inner finish and start(c) leave the start time at a |
| `EntrySpanModel.NestedStarts` | apm-sniffer/apm-agent-core/src/main/java/org/skywalking/apm/agent/core/context/trace/EntrySpan.java:63-69 | N nested starts from depth 0 give depth N, max depth N and the first start's time |
| `EntrySpanModel.InnermostStartOwnsTags` | apm-sniffer/apm-agent-core/src/main/java/org/skywalking/apm/agent/core/context/trace/EntrySpan.java:33-35 | the deepest start owns the tags: outer tags before the inner start are wiped, the inner tag is kept, outer tags after the inner return are ignored |
| `EntrySpanModel.RunRefs` | apm-sniffer/apm-agent-core/src/main/java/org/skywalking/apm/agent/core/context/trace/EntrySpan.java:148-155 | the refs after any run are the earlier refs with the run's refs inserted in order, duplicates dropped; the earlier list stays a prefix |
| `EntrySpanModel.ThreeEqualRefsKeepOne` | apm-sniffer/apm-agent-core/src/main/java/org/skywalking/apm/agent/core/context/trace/EntrySpan.java:148-155 | three `ref` calls with equal refs on a span with no refs store exactly one |
| `EntrySpanModel.StoredRefsAreDistinctRefs` | apm-sniffer/apm-agent-core/src/main/java/org/skywalking/apm/agent/core/context/trace/EntrySpan.java:148-155 | from construction, the stored refs are duplicate-free, are exactly the refs passed to `ref`, and number as many as the distinct ones |

## Left out

- `EntrySpans.EntrySpan.Leave`: the superclass's finish (`StackBasedTracingSpan`) is not part of this model. Leave only decrements the depth, so that the state after an inner boundary has returned can be reached. End time, segment completion and depth-zero behaviour are not modelled.
- The superclass's own `start`, `tag`, `log`, setters and `transform` are not part of this model:
  - its start is modelled as recording `now` as the start time;
  - its setters are modelled as plain field assignments;
  - its tag and log calls are modelled as appends;
  - its transform is modelled as a copy of the base fields (`SpanFields`), not the protobuf `SpanObject.Builder` layout.
- The superclass constructors' initial attribute values are not shown. The model starts a span with the values `clearWhenRestart` writes. The name constructor leaves the operation id at the null sentinel, and the id constructor leaves the operation name absent.
- Tags and logs that the source leaves null are modelled as empty sequences. The reference list keeps the null/allocated distinction as `Option`.
- `DictionaryUtil` is not part of this model. Its null value is the constant `NullValue`, and no property depends on its value.
- `TraceSegmentRef` is not part of this model. References are values of a type parameter, compared with Dafny equality (for `equals`), and turned into wire form by a caller-supplied function (for `TraceSegmentRef.transform`).
- The contents of a `Throwable` and the timestamps the superclass attaches to a log are reduced to a kind and a message.
- Java's 32-bit `int` wrap-around of `stackDepth` is not modelled: the depth is an unbounded integer, since nesting never approaches 2^31.
- `RemoteDownstreamConfig`: a holder of process-wide volatile globals whose only content is their initial values (sentinel ids, an empty server list). Its point is cross-thread visibility, which is out of scope here.
- The bytecode-interception plugin definitions (`UnaryServerCallListenerInstrumentation`, `TraceAnnotationActivation`, `ResponseExtractorFutureInstrumentation`) are matcher tables that name interceptor classes, with no behaviour to specify.
- The collector-side `GCMetricPersistenceWorker`, the worker queues and the dictionary service are not part of this model.
