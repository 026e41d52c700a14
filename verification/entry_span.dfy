/** The entry span object: its fields are updated in place by the calls the
    instrumentation makes, and every state-changing call is proved to have the
    effect `EntrySpanModel.Step` gives it (`ClearWhenRestart` the effect of
    `EntrySpanModel.Cleared`). `R` is the type of parent-segment
    references; the wire form of a reference is supplied by the caller of
    `Transform`. */
module EntrySpans {
  import opened DictionaryUtil
  import opened SegmentRefs
  import opened EntrySpanModel

  class EntrySpan<R(==)> {
    // Fields of the superclass, as the entry span uses them.
    var spanId: int
    var parentSpanId: int
    var operationName: Option<string>
    var operationId: int
    var startTime: Option<int>
    var componentId: int
    var componentName: Option<string>
    var layer: Option<SpanLayer>
    var tags: seq<KeyValuePair>
    var logs: seq<Throwable>
    var stackDepth: int

    // Fields of the entry span itself.
    /** Parent segments other than the primary one; `None` until the first `Ref`. */
    var refs: Option<seq<R>>
    var currentMaxDepth: int

    /** The span's fields as one value. */
    ghost function State(): SpanState<R>
      reads this
    {
      SpanState(spanId, parentSpanId, operationName, operationId, startTime,
                componentId, componentName, layer, tags, logs,
                stackDepth, currentMaxDepth, refs)
    }

    ghost predicate Valid()
      reads this
    {
      Inv(State())
    }

    /** A span named by its operation name. */
    constructor WithOperationName(spanId: int, parentSpanId: int, operationName: string)
      ensures Valid()
      ensures State() == Created(spanId, parentSpanId, Some(operationName), NullValue)
      ensures currentMaxDepth == 0 && stackDepth == 0
    {
      this.spanId := spanId;
      this.parentSpanId := parentSpanId;
      this.operationName := Some(operationName);
      this.operationId := NullValue;
      this.startTime := None;
      this.componentId := NullValue;
      this.componentName := None;
      this.layer := None;
      this.tags := [];
      this.logs := [];
      this.stackDepth := 0;
      this.refs := None;
      this.currentMaxDepth := 0;
    }

    /** A span named by its interned operation id. */
    constructor WithOperationId(spanId: int, parentSpanId: int, operationId: int)
      ensures Valid()
      ensures State() == Created(spanId, parentSpanId, None, operationId)
      ensures currentMaxDepth == 0 && stackDepth == 0
    {
      this.spanId := spanId;
      this.parentSpanId := parentSpanId;
      this.operationName := None;
      this.operationId := operationId;
      this.startTime := None;
      this.componentId := NullValue;
      this.componentName := None;
      this.layer := None;
      this.tags := [];
      this.logs := [];
      this.stackDepth := 0;
      this.refs := None;
      this.currentMaxDepth := 0;
    }

    /** Enter the boundary once more: one level deeper, the gate open at the new
        depth, the start time recorded only on reaching depth 1, and the
        attributes wiped at every depth. `now` is the clock reading. */
    method Start(now: int) returns (span: EntrySpan<R>)
      requires Valid()
      modifies this
      ensures Valid() && span == this
      ensures State() == Step(old(State()), Started(now))
      ensures stackDepth == old(stackDepth) + 1 && currentMaxDepth == stackDepth
      ensures startTime == if stackDepth == 1 then Some(now) else old(startTime)
    {
      stackDepth := stackDepth + 1;
      currentMaxDepth := stackDepth;
      if currentMaxDepth == 1 {
        startTime := Some(now);
      }
      ClearWhenRestart();
      span := this;
    }

    method Tag(key: string, value: string) returns (span: EntrySpan<R>)
      requires Valid()
      modifies this
      ensures Valid() && span == this
      ensures State() == Step(old(State()), Tagged(KeyValuePair(key, value)))
      ensures old(stackDepth != currentMaxDepth) ==> unchanged(this)
    {
      if stackDepth == currentMaxDepth {
        tags := tags + [KeyValuePair(key, value)];
      }
      span := this;
    }

    method SetLayer(layer: SpanLayer) returns (span: EntrySpan<R>)
      requires Valid()
      modifies this
      ensures Valid() && span == this
      ensures State() == Step(old(State()), LayerSet(layer))
      ensures old(stackDepth != currentMaxDepth) ==> unchanged(this)
    {
      if stackDepth == currentMaxDepth {
        this.layer := Some(layer);
      }
      span := this;
    }

    method SetComponent(component: Component) returns (span: EntrySpan<R>)
      requires Valid()
      modifies this
      ensures Valid() && span == this
      ensures State() == Step(old(State()), ComponentSet(component))
      ensures old(stackDepth != currentMaxDepth) ==> unchanged(this)
    {
      if stackDepth == currentMaxDepth {
        componentId := component.id;
      }
      span := this;
    }

    /** `setComponent(String)`: the component given by name only. */
    method SetComponentName(componentName: string) returns (span: EntrySpan<R>)
      requires Valid()
      modifies this
      ensures Valid() && span == this
      ensures State() == Step(old(State()), ComponentNameSet(componentName))
      ensures old(stackDepth != currentMaxDepth) ==> unchanged(this)
    {
      if stackDepth == currentMaxDepth {
        this.componentName := Some(componentName);
      }
      span := this;
    }

    method SetOperationName(operationName: string) returns (span: EntrySpan<R>)
      requires Valid()
      modifies this
      ensures Valid() && span == this
      ensures State() == Step(old(State()), OperationNameSet(operationName))
      ensures old(stackDepth != currentMaxDepth) ==> unchanged(this)
    {
      if stackDepth == currentMaxDepth {
        this.operationName := Some(operationName);
      }
      span := this;
    }

    method SetOperationId(operationId: int) returns (span: EntrySpan<R>)
      requires Valid()
      modifies this
      ensures Valid() && span == this
      ensures State() == Step(old(State()), OperationIdSet(operationId))
      ensures old(stackDepth != currentMaxDepth) ==> unchanged(this)
    {
      if stackDepth == currentMaxDepth {
        this.operationId := operationId;
      }
      span := this;
    }

    /** An error is recorded at any depth. */
    method Log(error: Throwable) returns (span: EntrySpan<R>)
      requires Valid()
      modifies this
      ensures Valid() && span == this
      ensures State() == Step(old(State()), Logged(error))
      ensures logs == old(logs) + [error]
    {
      logs := logs + [error];
      span := this;
    }

    /** Stand-in for the superclass's finish, which is not part of this model:
        only the depth decrement it performs, so that the state after an inner
        boundary has returned can be reached. */
    method Leave()
      requires Valid()
      modifies this
      ensures Valid()
      ensures State() == Step(old(State()), Left)
    {
      stackDepth := stackDepth - 1;
    }

    function IsEntry(): (r: bool)
      ensures r
    {
      true
    }

    function IsExit(): (r: bool)
      ensures !r
    {
      false
    }

    /** Link one more parent segment: stored only if no equal reference is. */
    method Ref(ref: R)
      requires Valid()
      modifies this
      ensures Valid()
      ensures State() == Step(old(State()), Referenced(ref))
      ensures refs == Some(InsertIfAbsent(old(RefList(State())), ref))
    {
      if refs.None? {
        refs := Some([]);
      }
      if ref !in refs.value {
        refs := Some(refs.value + [ref]);
      }
    }

    /** The wire object: the base fields, then the wire form of every stored
        reference, in the order they were stored. */
    method Transform<W>(toWire: R -> W) returns (obj: SpanObject<W>)
      ensures obj.fields == Fields(State())
      ensures |obj.refs| == |RefList(State())|
      ensures forall i :: 0 <= i < |obj.refs| ==> obj.refs[i] == toWire(RefList(State())[i])
      ensures refs == None ==> obj.refs == []
    {
      var fields := SpanFields(spanId, parentSpanId, operationName, operationId, startTime,
                               componentId, componentName, layer, tags, logs);
      var wire: seq<W> := [];
      if refs.Some? {
        var list := refs.value;
        for i := 0 to |list|
          invariant |wire| == i
          invariant forall j :: 0 <= j < i ==> wire[j] == toWire(list[j])
        {
          wire := wire + [toWire(list[i])];
        }
      }
      obj := SpanObject(fields, wire);
    }

    /** `clearWhenRestart`. */
    method ClearWhenRestart()
      modifies this
      ensures State() == Cleared(old(State()))
    {
      componentId := NullValue;
      componentName := None;
      layer := None;
      logs := [];
      tags := [];
    }
  }
}
