/** The payloads of the tagger's test suite and what the suite expects of them. */
module ContextTests {
  import opened Wrappers
  import opened Context

  /** `{the: 'context'}` */
  const CTX := Obj(map["the" := Scalar("context")])

  /** `withContext({the: 'data'}, context)`: the copy reads back the context and, without it, equals the original. */
  lemma AssignsContextToObject()
    ensures var original := Obj(map["the" := Scalar("data")]);
            var r := Tagged(original, Constant(CTX));
            r.Success? && GetContext(r.value) == Success(CTX) && Strip(r.value) == original
  {
    var original := Obj(map["the" := Scalar("data")]);
    assert original.attrs - {CONTEXT_KEY} == original.attrs;
  }

  /**
   * `withContext([{a: 10}, [{b: 20}]], context)`: both the object and the
   * nested array are tagged as a whole, and each equals its original once the
   * tag is deleted.
   */
  lemma AssignsContextToAllElements()
    ensures var original := Arr([Obj(map["a" := Scalar("10")]), Arr([Obj(map["b" := Scalar("20")])], map[])], map[]);
            var r := Tagged(original, Constant(CTX));
            && r.Success? && |r.value.elems| == 2
            && forall i :: 0 <= i < 2 ==>
                 GetContext(r.value.elems[i]) == Success(CTX) && Strip(r.value.elems[i]) == original.elems[i]
  {
    var original := Arr([Obj(map["a" := Scalar("10")]), Arr([Obj(map["b" := Scalar("20")])], map[])], map[]);
    assert forall i :: 0 <= i < 2 ==> HoldsAttributes(original.elems[i]);
    assert original.elems[0].attrs - {CONTEXT_KEY} == original.elems[0].attrs;
    var none: map<string, Value> := map[];
    assert none - {CONTEXT_KEY} == none;
  }

  /** `getContext({__context: context})` is the context. */
  lemma ReadsContext()
    ensures GetContext(Obj(map[CONTEXT_KEY := CTX])) == Success(CTX)
  {
  }
}
