/**
 * The queries of the flattener's test suite, as selection trees and fragment
 * maps, with the key orders the suite expects.
 */
module FieldsTests {
  import opened Wrappers
  import opened Selections

  const ONE: FieldNode := Field("one", None)
  const TWO: FieldNode := Field("two", None)
  const FOUR: FieldNode := Field("four", None)
  const THREE: FieldNode := Field("three", Some([FOUR]))

  /** `{ metric { one, two } }` */
  const ROOT_FIELDS := Info([Field("metric", Some([ONE, TWO]))], map[])

  /** `{ metric { one, ...a } }` with `fragment a on Metric { two }` */
  const ONE_FRAGMENT := Info([Field("metric", Some([ONE, FragmentSpread("a")]))], map["a" := [TWO]])

  /** `{ metric { one, ...a } }` with `a { two, ...b }` and `b { three { four } }` */
  const NESTED_FRAGMENTS := Info([Field("metric", Some([ONE, FragmentSpread("a")]))],
                                 map["a" := [TWO, FragmentSpread("b")], "b" := [THREE]])
  const NESTED_RANK: map<string, nat> := map["a" := 1, "b" := 0]

  lemma RootLevelFields()
    ensures WellFounded(ROOT_FIELDS.fragments, map[])
    ensures var run := FieldsFromInfo(ROOT_FIELDS, map[]);
            run.error == None && run.fields.keys == ["one", "two"]
  {
    var b := Ceiling(map[]);
    OneTwo();
    var f1 := Put(EMPTY, ONE);
    assert [ONE, TWO][1..] == [TWO];
    assert Collect(map[], map[], [TWO], f1, b) == Run(Put(f1, TWO), None);
  }

  /** The same query through `getFieldsFromAst(info, info.fieldASTs[0])`, with no accumulator. */
  lemma RootLevelFieldsFromAst()
    ensures WellFounded(ROOT_FIELDS.fragments, map[])
    ensures var run := FieldsFromAst(ROOT_FIELDS, map[], ROOT_FIELDS.fieldASTs[0], EMPTY);
            run.error == None && run.fields.keys == ["one", "two"]
  {
    RootLevelFields();
  }

  lemma FieldsInFragments()
    ensures WellFounded(ONE_FRAGMENT.fragments, map["a" := 0])
    ensures var run := FieldsFromInfo(ONE_FRAGMENT, map["a" := 0]);
            run.error == None && run.fields.keys == ["one", "two"]
  {
    var rank := map["a" := 0];
    OneFragmentWellFounded();
    OneTwo();
    var b := Ceiling(rank);
    assert b > 0 by {
      assert "a" in rank;
    }
    WalkOneFragment(Put(EMPTY, ONE), b);
    assert [ONE, FragmentSpread("a")][1..] == [FragmentSpread("a")];
  }

  lemma OneTwo()
    ensures Put(Put(EMPTY, ONE), TWO).keys == ["one", "two"]
  {
    assert Put(EMPTY, ONE).keys == ["one"];
  }

  lemma OneFragmentWellFounded()
    ensures WellFounded(ONE_FRAGMENT.fragments, map["a" := 0])
  {
    assert ONE_FRAGMENT.fragments.Keys == {"a"};
  }

  lemma WalkOneFragment(acc: Fields, bound: nat)
    requires Valid(acc) && bound > 0
    ensures WellFounded(ONE_FRAGMENT.fragments, map["a" := 0])
    ensures Collect(ONE_FRAGMENT.fragments, map["a" := 0], [FragmentSpread("a")], acc, bound)
            == Run(Put(acc, TWO), None)
  {
    OneFragmentWellFounded();
    var frags := ONE_FRAGMENT.fragments;
    assert frags["a"] == [TWO];
    assert Collect(frags, map["a" := 0], [TWO], acc, 0) == Run(Put(acc, TWO), None);
  }

  lemma FieldsInNestedFragments()
    ensures WellFounded(NESTED_FRAGMENTS.fragments, NESTED_RANK)
    ensures var run := FieldsFromInfo(NESTED_FRAGMENTS, NESTED_RANK);
            && run.error == None && run.fields.keys == ["one", "two", "three"]
            && run.fields.nodes["three"] == THREE
            && var sub := FieldsFromAst(NESTED_FRAGMENTS, NESTED_RANK, run.fields.nodes["three"], EMPTY);
               sub.error == None && sub.fields.keys == ["four"]
  {
    var f3 := NestedWalk();
    var b := Ceiling(NESTED_RANK);
    var g := Put(EMPTY, FOUR);
    assert g.keys == ["four"];
    assert Collect(NESTED_FRAGMENTS.fragments, NESTED_RANK, [FOUR], EMPTY, b) == Run(g, None);
  }

  lemma NestedWellFounded()
    ensures WellFounded(NESTED_FRAGMENTS.fragments, NESTED_RANK)
  {
    var frags := NESTED_FRAGMENTS.fragments;
    assert frags.Keys == {"a", "b"};
    assert SpreadsBelow(frags, NESTED_RANK, frags["b"], 0);
    assert SpreadsBelow(frags, NESTED_RANK, frags["a"], 1) by {
      assert frags["a"][1].fragmentName == "b";
    }
  }

  /** The walk of the nested-fragments query, one fragment at a time. */
  lemma NestedWalk() returns (f3: Fields)
    ensures WellFounded(NESTED_FRAGMENTS.fragments, NESTED_RANK)
    ensures f3.keys == ["one", "two", "three"] && "three" in f3.nodes && f3.nodes["three"] == THREE
    ensures Collect(NESTED_FRAGMENTS.fragments, NESTED_RANK, [ONE, FragmentSpread("a")], EMPTY,
                    Ceiling(NESTED_RANK)) == Run(f3, None)
  {
    NestedWellFounded();
    var f1 := Put(EMPTY, ONE);
    f3 := Put(Put(f1, TWO), THREE);
    OneTwoThree();
    var b := Ceiling(NESTED_RANK);
    assert b > 1 by {
      assert "a" in NESTED_RANK && NESTED_RANK["a"] == 1;
    }
    WalkFragmentA(f1, b);
    assert [ONE, FragmentSpread("a")][1..] == [FragmentSpread("a")];
  }

  lemma OneTwoThree()
    ensures var f := Put(Put(Put(EMPTY, ONE), TWO), THREE);
            f.keys == ["one", "two", "three"] && "three" in f.nodes && f.nodes["three"] == THREE
  {
    OneTwo();
    var f2 := Put(Put(EMPTY, ONE), TWO);
    assert "three" !in f2.keys by {
      assert "three"[1] != "one"[1] && "three"[1] != "two"[1];
    }
  }

  lemma WalkFragmentB(acc: Fields, bound: nat)
    requires Valid(acc) && bound > 0
    ensures WellFounded(NESTED_FRAGMENTS.fragments, NESTED_RANK)
    ensures Collect(NESTED_FRAGMENTS.fragments, NESTED_RANK, [FragmentSpread("b")], acc, bound)
            == Run(Put(acc, THREE), None)
  {
    NestedWellFounded();
    var frags := NESTED_FRAGMENTS.fragments;
    assert frags["b"] == [THREE];
    assert Collect(frags, NESTED_RANK, [THREE], acc, 0) == Run(Put(acc, THREE), None);
  }

  lemma WalkFragmentA(acc: Fields, bound: nat)
    requires Valid(acc) && bound > 1
    ensures WellFounded(NESTED_FRAGMENTS.fragments, NESTED_RANK)
    ensures Collect(NESTED_FRAGMENTS.fragments, NESTED_RANK, [FragmentSpread("a")], acc, bound)
            == Run(Put(Put(acc, TWO), THREE), None)
  {
    NestedWellFounded();
    var frags := NESTED_FRAGMENTS.fragments;
    assert frags["a"] == [TWO, FragmentSpread("b")];
    WalkFragmentB(Put(acc, TWO), 1);
    assert [TWO, FragmentSpread("b")][1..] == [FragmentSpread("b")];
    assert Collect(frags, NESTED_RANK, [TWO, FragmentSpread("b")], acc, 1) == Run(Put(Put(acc, TWO), THREE), None);
  }
}
