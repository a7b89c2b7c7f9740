/**
 * `withContext` and `getContext`: tag a payload, or each element of an array
 * payload, with a `__context` attribute on a shallow copy, and read it back.
 *
 * Values are immutable here, so the original payload is never changed; what is
 * proved is that each copy differs from what it was copied from in
 * `__context` alone, and that `getContext` reads back the context that was set.
 */
module Context {
  import opened Wrappers

  /**
   * The JavaScript values a payload can be. Booleans, numbers and strings are
   * `Scalar`s: they have no own attributes and cannot be given any. Arrays
   * carry named attributes beside their elements.
   */
  datatype Value =
    | Undefined
    | Null
    | Scalar(text: string)
    | Obj(attrs: map<string, Value>)
    | Arr(elems: seq<Value>, attrs: map<string, Value>)

  /** The second argument of `withContext`: a context, or a function from payload to context. */
  datatype ContextArg = Constant(context: Value) | Derive(fn: Value -> Value)

  /** The TypeErrors that strict-mode JavaScript throws here. */
  datatype TypeError =
    | CannotSetProperty   // assigning a property to a primitive, null or undefined
    | CannotReadProperty  // reading a property of null or undefined

  const CONTEXT_KEY := "__context"

  /** Objects and arrays can hold attributes; primitives, null and undefined cannot. */
  predicate HoldsAttributes(v: Value)
  {
    v.Obj? || v.Arr?
  }

  /** Lines 21-25: a context that is not a function becomes a function returning it. */
  function ContextFn(arg: ContextArg): (f: Value -> Value)
    ensures arg.Constant? ==> forall v :: f(v) == arg.context
    ensures arg.Derive? ==> forall v :: f(v) == arg.fn(v)
  {
    match arg
    case Constant(c) => (_ => c)
    case Derive(f) => f
  }

  /**
   * lodash `clone`: an object's own attributes are copied by reference; an
   * array's elements are copied and its named attributes are not; a primitive
   * is returned as it is.
   */
  function Clone(v: Value): (r: Value)
    ensures r.Obj? == v.Obj? && r.Arr? == v.Arr?
    ensures v.Obj? ==> r.attrs == v.attrs
    ensures v.Arr? ==> r.elems == v.elems && r.attrs == map[]
    ensures !HoldsAttributes(v) ==> r == v
  {
    match v
    case Arr(elems, _) => Arr(elems, map[])
    case _ => v
  }

  /** `v.__context = c`, which throws on a value that cannot hold attributes. */
  function SetContext(v: Value, c: Value): (r: Result<Value, TypeError>)
    ensures r.Success? <==> HoldsAttributes(v)
    ensures r.Failure? ==> r.error == CannotSetProperty
    ensures r.Success? ==> TaggedCopyOf(r.value, v, c) && GetContext(r.value) == Success(c)
  {
    match v
    case Obj(attrs) => Success(Obj(attrs[CONTEXT_KEY := c]))
    case Arr(elems, attrs) => Success(Arr(elems, attrs[CONTEXT_KEY := c]))
    case _ => Failure(CannotSetProperty)
  }

  /** `getContext(source)`: `source.__context`, undefined when the attribute is absent. */
  function GetContext(source: Value): (r: Result<Value, TypeError>)
    ensures r.Failure? <==> source.Undefined? || source.Null?
    ensures r.Success? && r.value != Undefined ==>
              HoldsAttributes(source) && CONTEXT_KEY in source.attrs && source.attrs[CONTEXT_KEY] == r.value
    ensures HoldsAttributes(source) && CONTEXT_KEY !in source.attrs ==> r == Success(Undefined)
  {
    match source
    case Undefined => Failure(CannotReadProperty)
    case Null => Failure(CannotReadProperty)
    case Scalar(_) => Success(Undefined)
    case Obj(attrs) => Success(if CONTEXT_KEY in attrs then attrs[CONTEXT_KEY] else Undefined)
    case Arr(_, attrs) => Success(if CONTEXT_KEY in attrs then attrs[CONTEXT_KEY] else Undefined)
  }

  /** A value with its `__context` attribute deleted. */
  function Strip(v: Value): Value
  {
    match v
    case Obj(attrs) => Obj(attrs - {CONTEXT_KEY})
    case Arr(elems, attrs) => Arr(elems, attrs - {CONTEXT_KEY})
    case _ => v
  }

  /** `t` is `v` with `__context` set to `c`, and no other difference. */
  predicate TaggedCopyOf(t: Value, v: Value, c: Value)
  {
    && HoldsAttributes(t)
    && t.Obj? == v.Obj?
    && CONTEXT_KEY in t.attrs && t.attrs[CONTEXT_KEY] == c
    && Strip(t) == Strip(v)
  }

  /**
   * The body of the `forEach` over the first `|es|` elements: each is cloned,
   * tagged with the context computed from the clone, and pushed.
   */
  function TagElements(es: seq<Value>, f: Value -> Value): (r: Result<seq<Value>, TypeError>)
    ensures r.Success? <==> forall i :: 0 <= i < |es| ==> HoldsAttributes(es[i])
    ensures r.Failure? ==> r.error == CannotSetProperty
    ensures r.Success? ==>
              && |r.value| == |es|
              && forall i :: 0 <= i < |es| ==> TaggedCopyOf(r.value[i], Clone(es[i]), f(Clone(es[i])))
    decreases |es|
  {
    if es == [] then Success([])
    else
      var init := es[..|es| - 1];
      var last := es[|es| - 1];
      match TagElements(init, f)
      case Failure(e) => Failure(e)
      case Success(done) =>
        var o := Clone(last);
        match SetContext(o, f(o))
        case Failure(e) => Failure(e)
        case Success(t) => Success(done + [t])
  }

  /**
   * `withContext(payload, arg)` as a value. An array payload yields a fresh
   * array, itself untagged, of tagged copies of its elements; any other payload
   * yields a tagged copy of itself, with the context computed from the
   * original. Throws when something to be tagged cannot hold attributes.
   */
  function Tagged(payload: Value, arg: ContextArg): (r: Result<Value, TypeError>)
    ensures !payload.Arr? ==>
              (r.Success? <==> payload.Obj?) &&
              (r.Success? ==> TaggedCopyOf(r.value, payload, ContextFn(arg)(payload)))
    ensures payload.Arr? ==>
              (r.Success? <==> forall i :: 0 <= i < |payload.elems| ==> HoldsAttributes(payload.elems[i])) &&
              (r.Success? ==>
                 && r.value.Arr? && r.value.attrs == map[]
                 && |r.value.elems| == |payload.elems|
                 && forall i :: 0 <= i < |payload.elems| ==>
                      var copy := Clone(payload.elems[i]);
                      TaggedCopyOf(r.value.elems[i], copy, ContextFn(arg)(copy)))
  {
    var f := ContextFn(arg);
    if payload.Arr? then
      match TagElements(payload.elems, f)
      case Success(tagged) => Success(Arr(tagged, map[]))
      case Failure(e) => Failure(e)
    else
      SetContext(Clone(payload), f(payload))
  }

  /**
   * Lines 20-41, step by step: the context function is fixed first, then an
   * array payload is cloned and tagged element by element into a new array.
   * Nothing is modified.
   */
  method WithContext(payload: Value, arg: ContextArg) returns (r: Result<Value, TypeError>)
    ensures r == Tagged(payload, arg)
  {
    var contextFn := ContextFn(arg);
    if payload.Arr? {
      var resultPayload: seq<Value> := [];
      var i := 0;
      while i < |payload.elems|
        invariant 0 <= i <= |payload.elems|
        invariant TagElements(payload.elems[..i], contextFn) == Success(resultPayload)
      {
        assert payload.elems[..i + 1][..i] == payload.elems[..i];
        var o := Clone(payload.elems[i]);
        var tagged := SetContext(o, contextFn(o));
        if tagged.Failure? {
          assert !HoldsAttributes(payload.elems[i]);
          return Failure(tagged.error);
        }
        resultPayload := resultPayload + [tagged.value];
        i := i + 1;
      }
      assert payload.elems[..i] == payload.elems;
      r := Success(Arr(resultPayload, map[]));
    } else {
      var copy := Clone(payload);
      r := SetContext(copy, contextFn(payload));
    }
  }

  /**
   * The reader inverts the tagger: with a fixed context `c`, a tagged object
   * reads back `c`; for an array payload each element reads back `c` and the
   * array itself reads back nothing.
   */
  lemma ContextRoundTrip(payload: Value, c: Value)
    requires Tagged(payload, Constant(c)).Success?
    ensures var t := Tagged(payload, Constant(c)).value;
            if payload.Arr?
            then GetContext(t) == Success(Undefined) &&
                 forall i :: 0 <= i < |t.elems| ==> GetContext(t.elems[i]) == Success(c)
            else GetContext(t) == Success(c)
  {
  }

  /** An object element keeps every attribute but `__context`; an array element keeps its elements. */
  lemma ElementsKeepTheirData(payload: Value, arg: ContextArg, i: nat)
    requires payload.Arr? && Tagged(payload, arg).Success? && i < |payload.elems|
    ensures var t := Tagged(payload, arg).value.elems[i];
            var e := payload.elems[i];
            && (e.Obj? ==> t.Obj? && t.attrs - {CONTEXT_KEY} == e.attrs - {CONTEXT_KEY})
            && (e.Arr? ==> t.Arr? && t.elems == e.elems && t.attrs.Keys == {CONTEXT_KEY})
  {
    var t := Tagged(payload, arg).value.elems[i];
    if payload.elems[i].Arr? {
      assert Strip(t) == Arr(payload.elems[i].elems, map[]);
      assert t.attrs - {CONTEXT_KEY} == map[];
      assert t.attrs.Keys - {CONTEXT_KEY} == (t.attrs - {CONTEXT_KEY}).Keys == {};
    }
  }
}
