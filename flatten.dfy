/**
 * `getFieldsFromAst` and `getFieldsFromInfo`: the walk over a selection set
 * that writes every field, by name, into a shared accumulator object, inlining
 * fragment spreads at their position. Each method is proved to compute the
 * reference `Selections.Collect` (and hence, by
 * `Selections.CollectIsPutAllOfExpansion`, the depth-first expansion written in
 * order).
 */
module Flatten {
  import opened Wrappers
  import opened Selections

  /** The `fields` accumulator object: its keys in insertion order and a node per key. */
  class FieldMap {
    var keys: seq<string>
    var nodes: map<string, FieldNode>

    function Value(): Fields
      reads this
    {
      Fields(keys, nodes)
    }

    ghost predicate Valid()
      reads this
    {
      Selections.Valid(Value())
    }

    /** `{}` */
    constructor ()
      ensures Valid() && Value() == EMPTY
    {
      keys := [];
      nodes := map[];
    }

    /** `fields[f.name] = f` */
    method Set(f: FieldNode)
      requires Valid()
      modifies this
      ensures Valid() && Value() == Put(old(Value()), f)
    {
      if f.name !in keys {
        keys := keys + [f.name];
      }
      nodes := nodes[f.name := f];
    }
  }

  /**
   * The loop over one selection set (`ast.selectionSet.selections.map(...)`),
   * recursing into a spread's fragment with the same accumulator. Returns the
   * error thrown, if any; the accumulator then holds the writes made before it.
   */
  method CollectInto(info: Info, ghost rank: map<string, nat>, sels: seq<Selection>,
                     fields: FieldMap, ghost bound: nat)
    returns (error: Option<FlattenError>)
    requires WellFounded(info.fragments, rank) && SpreadsBelow(info.fragments, rank, sels, bound)
    requires fields.Valid()
    modifies fields
    ensures fields.Valid()
    ensures Run(fields.Value(), error) == Collect(info.fragments, rank, sels, old(fields.Value()), bound)
    decreases bound
  {
    var i := 0;
    while i < |sels|
      invariant 0 <= i <= |sels|
      invariant fields.Valid()
      invariant SpreadsBelow(info.fragments, rank, sels[i..], bound)
      invariant Collect(info.fragments, rank, sels, old(fields.Value()), bound)
                == Collect(info.fragments, rank, sels[i..], fields.Value(), bound)
    {
      TailSpreadsBelow(info.fragments, rank, sels[i..], bound);
      assert sels[i..][0] == sels[i] && sels[i..][1..] == sels[i + 1..];
      var selection := sels[i];
      match selection {
        case Field(_, _) =>
          fields.Set(selection);
        case FragmentSpread(name) =>
          if name !in info.fragments {
            return Some(UnknownFragment(name));
          }
          var fragment := info.fragments[name];
          error := CollectInto(info, rank, fragment, fields, rank[name]);
          if error.Some? {
            return;
          }
        case InlineFragment(_) =>
      }
      i := i + 1;
    }
    return None;
  }

  /**
   * `getFieldsFromAst(info, ast, fields = {})`: walks `ast`'s selection set
   * into `fields`, or into a fresh object when none is given, and returns that
   * same object. Throws when `ast` has no selection set.
   */
  method GetFieldsFromAst(info: Info, ghost rank: map<string, nat>, ast: Selection, fields: FieldMap?)
    returns (result: FieldMap, error: Option<FlattenError>)
    requires WellFounded(info.fragments, rank)
    requires fields != null ==> fields.Valid()
    modifies fields
    ensures fields != null ==> result == fields
    ensures fields == null ==> fresh(result)
    ensures result.Valid()
    ensures Run(result.Value(), error)
            == FieldsFromAst(info, rank, ast, if fields == null then EMPTY else old(fields.Value()))
  {
    if fields == null {
      result := new FieldMap();
    } else {
      result := fields;
    }
    match SelectionSetOf(ast) {
      case None =>
        error := Some(NoSelectionSet);
      case Some(sels) =>
        RootSpreadsBelowCeiling(info.fragments, rank, sels);
        error := CollectInto(info, rank, sels, result, Ceiling(rank));
    }
  }

  /** `getFieldsFromInfo(info)`: the first field node's selection set, into a fresh object. */
  method GetFieldsFromInfo(info: Info, ghost rank: map<string, nat>)
    returns (result: FieldMap, error: Option<FlattenError>)
    requires WellFounded(info.fragments, rank)
    ensures fresh(result) && result.Valid()
    ensures Run(result.Value(), error) == FieldsFromInfo(info, rank)
  {
    if info.fieldASTs == [] {
      // `info.fieldASTs[0]` is undefined, and reading its selection set throws.
      result := new FieldMap();
      error := Some(NoSelectionSet);
    } else {
      result, error := GetFieldsFromAst(info, rank, info.fieldASTs[0], null);
    }
  }
}
