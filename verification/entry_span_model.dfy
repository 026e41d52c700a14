/** The state of an entry span as a value, one step function per call the
    instrumentation makes on it, and what those calls guarantee over any run.

    An entry span marks a service boundary. When several instrumented
    boundaries are nested inside one segment (a servlet container handing off
    to an RPC framework, say), the same span object is started again by each
    of them. `stackDepth` counts the nesting; `currentMaxDepth` remembers the
    depth reached by the most recent `start`. The attribute mutators take
    effect only while the two are equal, so the deepest (most recent) start
    owns the span's visible attributes. */
module EntrySpanModel {
  import opened DictionaryUtil
  import opened SegmentRefs

  datatype Option<+T> = None | Some(value: T)

  /** The layer of the component a span belongs to. */
  datatype SpanLayer = Database | RpcFramework | Http | MQ | Cache

  /** A known component: its dictionary id and its name. */
  datatype Component = Component(id: int, name: string)

  /** One tag of a span. */
  datatype KeyValuePair = KeyValuePair(key: string, value: string)

  /** The error a traced call raised, as a log records it. */
  datatype Throwable = Throwable(kind: string, message: string)

  /** Every field of an entry span. `startTime == None` means the start time
      has not been recorded; a `refs` of `None` is the list not yet allocated
      (no `ref` call so far); a list the source leaves null is empty here. */
  datatype SpanState<R> = SpanState(
    spanId: int,
    parentSpanId: int,
    operationName: Option<string>,
    operationId: int,
    startTime: Option<int>,
    componentId: int,
    componentName: Option<string>,
    layer: Option<SpanLayer>,
    tags: seq<KeyValuePair>,
    logs: seq<Throwable>,
    stackDepth: int,
    currentMaxDepth: int,
    refs: Option<seq<R>>)

  /** The calls the instrumentation makes on an entry span. `Left` is a stand-in
      for the superclass's finish, modelled only as the depth decrement it does. */
  datatype Event<R> =
    | Started(now: int)
    | Tagged(tag: KeyValuePair)
    | LayerSet(layer: SpanLayer)
    | ComponentSet(component: Component)
    | ComponentNameSet(componentName: string)
    | OperationNameSet(operationName: string)
    | OperationIdSet(operationId: int)
    | Logged(error: Throwable)
    | Referenced(ref: R)
    | Left

  /** The calls that are gated on the depth. */
  predicate IsMutator<R>(e: Event<R>) {
    e.Tagged? || e.LayerSet? || e.ComponentSet? || e.ComponentNameSet? ||
    e.OperationNameSet? || e.OperationIdSet?
  }

  /** The attributes the gated calls write, as observers see them. */
  datatype Attributes = Attributes(
    operationName: Option<string>,
    operationId: int,
    componentId: int,
    componentName: Option<string>,
    layer: Option<SpanLayer>,
    tags: seq<KeyValuePair>)

  function Visible<R>(s: SpanState<R>): Attributes {
    Attributes(s.operationName, s.operationId, s.componentId, s.componentName, s.layer, s.tags)
  }

  /** The stored references; an unallocated list holds none. */
  function RefList<R>(s: SpanState<R>): seq<R> {
    if s.refs.Some? then s.refs.value else []
  }

  /** The base span fields the wire object carries before the references. */
  datatype SpanFields = SpanFields(
    spanId: int,
    parentSpanId: int,
    operationName: Option<string>,
    operationId: int,
    startTime: Option<int>,
    componentId: int,
    componentName: Option<string>,
    layer: Option<SpanLayer>,
    tags: seq<KeyValuePair>,
    logs: seq<Throwable>)

  function Fields<R>(s: SpanState<R>): SpanFields {
    SpanFields(s.spanId, s.parentSpanId, s.operationName, s.operationId, s.startTime,
               s.componentId, s.componentName, s.layer, s.tags, s.logs)
  }

  /** The wire object `transform` builds: the base fields, then one wire
      reference per stored reference. */
  datatype SpanObject<W> = SpanObject(fields: SpanFields, refs: seq<W>)

  /** A freshly constructed span: depth and maximum depth zero, no references,
      the attributes as `clearWhenRestart` leaves them. */
  function Created<R>(spanId: int, parentSpanId: int, operationName: Option<string>, operationId: int): SpanState<R> {
    SpanState(spanId, parentSpanId, operationName, operationId, None,
              NullValue, None, None, [], [], 0, 0, None)
  }

  /** The mutators apply only when the depth equals the maximum depth. */
  predicate GateOpen<R>(s: SpanState<R>) {
    s.stackDepth == s.currentMaxDepth
  }

  /** `clearWhenRestart`: component, layer, logs and tags are wiped. */
  function Cleared<R>(s: SpanState<R>): SpanState<R> {
    s.(componentId := NullValue, componentName := None, layer := None, logs := [], tags := [])
  }

  /** The effect of one call. */
  function Step<R(==)>(s: SpanState<R>, e: Event<R>): SpanState<R> {
    match e
    case Started(now) =>
      var depth := s.stackDepth + 1;
      Cleared(s.(stackDepth := depth, currentMaxDepth := depth,
                 startTime := if depth == 1 then Some(now) else s.startTime))
    case Tagged(tag) => if GateOpen(s) then s.(tags := s.tags + [tag]) else s
    case LayerSet(layer) => if GateOpen(s) then s.(layer := Some(layer)) else s
    case ComponentSet(component) => if GateOpen(s) then s.(componentId := component.id) else s
    case ComponentNameSet(name) => if GateOpen(s) then s.(componentName := Some(name)) else s
    case OperationNameSet(name) => if GateOpen(s) then s.(operationName := Some(name)) else s
    case OperationIdSet(id) => if GateOpen(s) then s.(operationId := id) else s
    case Logged(error) => s.(logs := s.logs + [error])
    case Referenced(r) => s.(refs := Some(InsertIfAbsent(RefList(s), r)))
    case Left => s.(stackDepth := s.stackDepth - 1)
  }

  /** The effect of a sequence of calls, in order. */
  function Run<R(==)>(s: SpanState<R>, es: seq<Event<R>>): SpanState<R>
    decreases |es|
  {
    if es == [] then s else Run(Step(s, es[0]), es[1..])
  }

  /** What holds of every reachable state: the depth never exceeds the maximum
      depth, an allocated reference list is never empty, and no reference is
      stored twice. */
  ghost predicate Inv<R>(s: SpanState<R>) {
    s.stackDepth <= s.currentMaxDepth &&
    (s.refs.Some? ==> |s.refs.value| > 0) &&
    NoDuplicates(RefList(s))
  }

  // ---------------------------------------------------------------------------
  // One call

  /** Both constructors leave the span satisfying the invariant, at depth 0 with
      the gate open. */
  lemma CreatedIsValid<R>(spanId: int, parentSpanId: int, operationName: Option<string>, operationId: int)
    ensures var s := Created<R>(spanId, parentSpanId, operationName, operationId);
      Inv(s) && s.currentMaxDepth == 0 && s.stackDepth == 0 && GateOpen(s) && RefList(s) == []
  {
  }

  /** After any `start` the depth has grown by one and the gate is open. */
  lemma StartOpensGate<R>(s: SpanState<R>, now: int)
    ensures var t := Step(s, Started(now));
      t.stackDepth == s.stackDepth + 1 && t.currentMaxDepth == t.stackDepth && GateOpen(t)
  {
  }

  /** Only the `start` that brings the depth to 1 records the start time. */
  lemma StartTimeOnlyAtDepthOne<R>(s: SpanState<R>, now: int)
    ensures var t := Step(s, Started(now));
      (s.stackDepth == 0 ==> t.startTime == Some(now)) &&
      (s.stackDepth != 0 ==> t.startTime == s.startTime)
  {
  }

  /** Every `start`, at any depth, wipes component, layer, logs and tags; the
      operation name and id, the ids and the references survive. */
  lemma StartClearsAttributes<R>(s: SpanState<R>, now: int)
    ensures var t := Step(s, Started(now));
      t.componentId == NullValue && t.componentName == None && t.layer == None &&
      t.logs == [] && t.tags == [] &&
      t.operationName == s.operationName && t.operationId == s.operationId &&
      t.spanId == s.spanId && t.parentSpanId == s.parentSpanId && t.refs == s.refs
  {
  }

  /** A gated call on a span whose depth differs from its maximum depth
      changes nothing. */
  lemma ClosedGateIgnoresMutator<R>(s: SpanState<R>, e: Event<R>)
    requires IsMutator(e) && !GateOpen(s)
    ensures Step(s, e) == s
  {
  }

  /** A gated call on an open gate writes its own attribute and nothing else:
      every other field, the depth counters, logs, start time, span ids and
      references included, is untouched, and the gate stays open. */
  lemma OpenGateAppliesMutator<R>(s: SpanState<R>, e: Event<R>)
    requires IsMutator(e) && GateOpen(s)
    ensures var t := Step(s, e);
      (e.Tagged? ==> t.(tags := s.tags) == s && t.tags == s.tags + [e.tag]) &&
      (e.LayerSet? ==> t.(layer := s.layer) == s && t.layer == Some(e.layer)) &&
      (e.ComponentSet? ==> t.(componentId := s.componentId) == s && t.componentId == e.component.id) &&
      (e.ComponentNameSet? ==> t.(componentName := s.componentName) == s &&
                               t.componentName == Some(e.componentName)) &&
      (e.OperationNameSet? ==> t.(operationName := s.operationName) == s &&
                               t.operationName == Some(e.operationName)) &&
      (e.OperationIdSet? ==> t.(operationId := s.operationId) == s && t.operationId == e.operationId) &&
      GateOpen(t)
  {
  }

  /** `log` is recorded whatever the depth, and changes nothing else. */
  lemma LogAlwaysRecorded<R>(s: SpanState<R>, error: Throwable)
    ensures var t := Step(s, Logged(error));
      t.logs == s.logs + [error] && t.(logs := s.logs) == s
  {
  }

  /** `ref(r)` stores `r` exactly once, keeps the earlier references in their
      order, and changes nothing else. */
  lemma RefStoresOnce<R>(s: SpanState<R>, r: R)
    ensures var t := Step(s, Referenced(r));
      r in RefList(t) && RefList(s) <= RefList(t) &&
      |RefList(t)| == |RefList(s)| + (if r in RefList(s) then 0 else 1) &&
      (NoDuplicates(RefList(s)) ==> NoDuplicates(RefList(t))) &&
      t.(refs := s.refs) == s
  {
  }

  // ---------------------------------------------------------------------------
  // Runs of calls

  lemma StepPreservesInv<R>(s: SpanState<R>, e: Event<R>)
    requires Inv(s)
    ensures Inv(Step(s, e))
  {
  }

  /** Every run keeps the invariant: in particular the stored references never
      contain duplicates. */
  lemma {:induction false} RunPreservesInv<R>(s: SpanState<R>, es: seq<Event<R>>)
    requires Inv(s)
    ensures Inv(Run(s, es))
    decreases |es|
  {
    if es != [] {
      StepPreservesInv(s, es[0]);
      RunPreservesInv(Step(s, es[0]), es[1..]);
    }
  }

  /** Once an inner boundary has returned (the depth is below the maximum),
      no gated call changes the visible attributes until the next `start`:
      later mutations by the outer boundaries are ignored. */
  lemma {:induction false} ClosedGateFreezesAttributes<R>(s: SpanState<R>, es: seq<Event<R>>)
    requires s.stackDepth < s.currentMaxDepth
    requires forall i :: 0 <= i < |es| ==> !es[i].Started?
    ensures Visible(Run(s, es)) == Visible(s)
    ensures Run(s, es).stackDepth < Run(s, es).currentMaxDepth
    decreases |es|
  {
    if es != [] {
      var t := Step(s, es[0]);
      assert Visible(t) == Visible(s) && t.stackDepth < t.currentMaxDepth;
      assert forall i :: 0 <= i < |es[1..]| ==> es[1..][i] == es[i + 1];
      ClosedGateFreezesAttributes(t, es[1..]);
    }
  }

  /** While the depth is at least 1, no call changes the recorded start time. */
  lemma StepKeepsStartTime<R>(s: SpanState<R>, e: Event<R>)
    requires s.stackDepth >= 1
    ensures Step(s, e).startTime == s.startTime
  {
  }

  /** While the span stays started (the depth is at least 1 before and after
      every call), nested `start`s, inner boundaries' finishes and every other
      call leave the recorded start time as it was. */
  lemma {:induction false} StartTimeFixedWhileNested<R>(s: SpanState<R>, es: seq<Event<R>>)
    requires forall i :: 0 <= i <= |es| ==> Run(s, es[..i]).stackDepth >= 1
    ensures Run(s, es).startTime == s.startTime
    decreases |es|
  {
    assert es[..0] == [];
    assert es[..|es|] == es;
    if es != [] {
      var t := Step(s, es[0]);
      StepKeepsStartTime(s, es[0]);
      forall i | 0 <= i <= |es[1..]| ensures Run(t, es[1..][..i]).stackDepth >= 1 {
        var p := es[..i + 1];
        assert p[0] == es[0] && p[1..] == es[1..][..i];
        assert Run(s, p) == Run(t, es[1..][..i]);
      }
      StartTimeFixedWhileNested(t, es[1..]);
    }
  }

  /** Running one more call after a run is one more step. */
  lemma {:induction false} RunSnoc<R>(s: SpanState<R>, es: seq<Event<R>>, e: Event<R>)
    ensures Run(s, es + [e]) == Step(Run(s, es), e)
    decreases |es|
  {
    if es == [] {
      assert es + [e] == [e] && [e][1..] == [];
    } else {
      assert (es + [e])[0] == es[0] && (es + [e])[1..] == es[1..] + [e];
      RunSnoc(Step(s, es[0]), es[1..], e);
    }
  }

  /** An inner boundary that starts and finishes inside an outer one, followed
      by a third boundary, leaves the outer start's time in place. */
  lemma InnerFinishKeepsStartTime<R>(s: SpanState<R>, a: int, b: int, c: int)
    requires s.stackDepth == 0
    ensures Run(s, [Started(a), Started(b), Left, Started(c)]).startTime == Some(a)
  {
    var es: seq<Event<R>> := [Started(a), Started(b), Left, Started(c)];
    var first := Step(s, es[0]);
    assert first.startTime == Some(a) && first.stackDepth == 1;
    var rest := es[1..];
    var s1 := Step(first, rest[0]);
    var s2 := Step(s1, rest[1]);
    var s3 := Step(s2, rest[2]);
    assert s1.stackDepth == 2 && s2.stackDepth == 1 && s3.stackDepth == 2;
    assert rest[..0] == [] && rest[..1] == [] + [rest[0]];
    assert rest[..2] == rest[..1] + [rest[1]] && rest[..3] == rest[..2] + [rest[2]];
    RunSnoc(first, [], rest[0]);
    RunSnoc(first, rest[..1], rest[1]);
    RunSnoc(first, rest[..2], rest[2]);
    StartTimeFixedWhileNested(first, rest);
    assert Run(s, es) == Run(first, rest);
  }

  /** One `start` per time stamp, in order. */
  function Starts<R>(times: seq<int>): (es: seq<Event<R>>)
    ensures |es| == |times|
    ensures forall i :: 0 <= i < |es| ==> es[i] == Started(times[i])
  {
    if times == [] then [] else [Started(times[0])] + Starts(times[1..])
  }

  lemma {:induction false} StartsDeepen<R>(s: SpanState<R>, times: seq<int>)
    requires |times| > 0
    ensures var t := Run(s, Starts<R>(times));
      t.stackDepth == s.stackDepth + |times| && GateOpen(t) &&
      t.componentId == NullValue && t.tags == [] && t.logs == []
    decreases |times|
  {
    var es := Starts<R>(times);
    assert es[1..] == Starts<R>(times[1..]);
    if |times| > 1 {
      StartsDeepen(Step(s, es[0]), times[1..]);
    }
  }

  /** N nested `start`s on a span at rest: the depth and the maximum depth are
      both N, and the start time is the first start's. */
  lemma NestedStarts<R>(s: SpanState<R>, times: seq<int>)
    requires s.stackDepth == 0 && |times| > 0
    ensures var t := Run(s, Starts<R>(times));
      t.stackDepth == |times| && t.currentMaxDepth == |times| &&
      t.startTime == Some(times[0])
  {
    var es := Starts<R>(times);
    var first := Step(s, es[0]);
    assert first.startTime == Some(times[0]) && first.stackDepth == 1;
    var rest := times[1..];
    assert es[1..] == Starts<R>(rest);
    forall i | 0 <= i <= |es[1..]| ensures Run(first, es[1..][..i]).stackDepth >= 1 {
      if i > 0 {
        assert es[1..][..i] == Starts<R>(rest[..i]);
        StartsDeepen(first, rest[..i]);
      } else {
        assert es[1..][..i] == [];
      }
    }
    StartTimeFixedWhileNested(first, es[1..]);
    StartsDeepen(s, times);
  }

  /** The deepest start owns the tags: a tag written by the outer boundary
      before the inner start is wiped, the inner boundary's tag is kept, and
      the outer boundary's tag after the inner one returns is ignored. */
  lemma InnermostStartOwnsTags<R>(s: SpanState<R>, outer: int, inner: int, before: KeyValuePair,
                                   owned: KeyValuePair, after: KeyValuePair)
    ensures Run(s, [Started(outer), Tagged(before), Started(inner), Tagged(owned), Left, Tagged(after)]).tags == [owned]
  {
    var es: seq<Event<R>> := [Started(outer), Tagged(before), Started(inner), Tagged(owned), Left, Tagged(after)];
    var s1 := Step(s, es[0]);
    var s2 := Step(s1, es[1]);
    var s3 := Step(s2, es[2]);
    var s4 := Step(s3, es[3]);
    var s5 := Step(s4, es[4]);
    var s6 := Step(s5, es[5]);
    assert s4.tags == [owned] && s5.stackDepth < s5.currentMaxDepth;
    assert s6.tags == [owned];
    assert Run(s5, es[5..]) == s6;
    assert Run(s4, es[4..]) == Run(s5, es[5..]);
    assert Run(s3, es[3..]) == Run(s4, es[4..]);
    assert Run(s2, es[2..]) == Run(s3, es[3..]);
    assert Run(s1, es[1..]) == Run(s2, es[2..]);
  }

  lemma OnlyRefTouchesRefs<R>(s: SpanState<R>, e: Event<R>)
    requires !e.Referenced?
    ensures Step(s, e).refs == s.refs
  {
  }

  /** The references in a run's `ref` calls, in order. */
  function RefsIn<R>(es: seq<Event<R>>): (rs: seq<R>)
    ensures forall j :: 0 <= j < |rs| ==> exists i :: 0 <= i < |es| && es[i] == Referenced(rs[j])
    ensures forall i :: 0 <= i < |es| && es[i].Referenced? ==> es[i].ref in rs
    decreases |es|
  {
    if es == [] then []
    else (if es[0].Referenced? then [es[0].ref] else []) + RefsIn(es[1..])
  }

  /** The stored references after a run are those before it with the run's
      references inserted one by one: earlier ones keep their place, duplicates
      are dropped. */
  lemma {:induction false} RunRefs<R>(s: SpanState<R>, es: seq<Event<R>>)
    ensures RefList(Run(s, es)) == InsertAll(RefList(s), RefsIn(es))
    ensures RefList(s) <= RefList(Run(s, es))
    decreases |es|
  {
    if es != [] {
      var t := Step(s, es[0]);
      assert Run(s, es) == Run(t, es[1..]);
      RunRefs(t, es[1..]);
      var rest := RefsIn(es[1..]);
      if es[0].Referenced? {
        var xs := [es[0].ref] + rest;
        assert RefsIn(es) == xs;
        assert xs[0] == es[0].ref && xs[1..] == rest;
        assert RefList(t) == InsertIfAbsent(RefList(s), es[0].ref);
        assert InsertAll(RefList(s), xs) == InsertAll(RefList(t), rest);
      } else {
        assert RefsIn(es) == [] + rest == rest;
        OnlyRefTouchesRefs(s, es[0]);
      }
    }
  }

  /** Three `ref` calls with the same reference on a span with no references
      leave exactly that one reference stored. */
  lemma ThreeEqualRefsKeepOne<R>(s: SpanState<R>, r: R)
    requires s.refs == None
    ensures RefList(Run(s, [Referenced(r), Referenced(r), Referenced(r)])) == [r]
  {
    var es := [Referenced(r), Referenced(r), Referenced(r)];
    RunRefs(s, es);
    assert RefsIn(es) == Repeat(r, 3) by {
      var e: Event<R> := Referenced(r);
      assert es[1..] == [e, e] && es[2..] == [e] && [e, e][1..] == [e] && [e][1..] == [];
      assert RefsIn<R>([]) == [];
      assert RefsIn([e]) == [r] + RefsIn<R>([]) == [r];
      assert RefsIn([e, e]) == [r] + RefsIn([e]) == [r, r];
      assert RefsIn(es) == [r] + RefsIn([e, e]) == [r, r, r];
      assert Repeat(r, 3) == [r, r, r];
    }
    RepeatedRefKeepsOne([], r, 3);
  }

  /** Whatever the calls, a span built by a constructor stores exactly one
      reference per distinct reference passed to `ref`. */
  lemma StoredRefsAreDistinctRefs<R>(s: SpanState<R>, es: seq<Event<R>>)
    requires s.refs == None
    ensures NoDuplicates(RefList(Run(s, es)))
    ensures Elements(RefList(Run(s, es))) == Elements(RefsIn(es))
    ensures |RefList(Run(s, es))| == |Elements(RefsIn(es))|
  {
    RunRefs(s, es);
    StoredRefsCount(RefsIn(es));
  }
}
