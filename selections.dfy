/**
 * The selection-set AST that `getFieldsFromAst` walks, the ordered field map it
 * fills, and a pure reference for the walk (`Collect`) together with an
 * independent characterisation of it: the depth-first expansion of the
 * selection set (`Expand`) written into the map one field at a time (`PutAll`).
 */
module Selections {
  import opened Wrappers

  /**
   * The selection kinds of a GraphQL selection set. Only the kind, the field's
   * `name.value`, the spread's fragment name and the selection sets are read.
   * A field's selection set is absent for a leaf field.
   */
  datatype Selection =
    | Field(name: string, selectionSet: Option<seq<Selection>>)
    | FragmentSpread(fragmentName: string)
    | InlineFragment(selections: seq<Selection>)

  /** The nodes the field map stores: always `Field` selections. */
  type FieldNode = s: Selection | s.Field? witness Field("", None)

  /**
   * The part of the resolve info that is read: the field nodes of the field
   * being resolved, and the fragment definitions by name (each given by its
   * selection set, which a fragment definition always has).
   */
  datatype Info = Info(fieldASTs: seq<Selection>, fragments: map<string, seq<Selection>>)

  /** The two ways the walk throws (both are a JavaScript TypeError). */
  datatype FlattenError =
    | NoSelectionSet               // `ast` or `ast.selectionSet` is undefined
    | UnknownFragment(name: string) // `info.fragments[name]` is undefined

  /**
   * A JavaScript object used as an ordered map: its own keys in insertion
   * order and the node stored under each.
   */
  datatype Fields = Fields(keys: seq<string>, nodes: map<string, FieldNode>)

  const EMPTY := Fields([], map[])

  /** Keys are unique and are exactly the names that hold a node. */
  ghost predicate Valid(f: Fields)
  {
    && (forall i, j :: 0 <= i < j < |f.keys| ==> f.keys[i] != f.keys[j])
    && (forall k :: k in f.nodes <==> k in f.keys)
  }

  /** The names of a sequence of field nodes, in order. */
  function Names(ns: seq<FieldNode>): (r: seq<string>)
    ensures |r| == |ns|
    ensures forall i :: 0 <= i < |ns| ==> r[i] == ns[i].name
  {
    if ns == [] then [] else [ns[0].name] + Names(ns[1..])
  }

  /**
   * `fields[f.name] = f`: a new name is appended at the end of the key order,
   * a name already present keeps its position and only its node changes.
   */
  function Put(acc: Fields, f: FieldNode): (r: Fields)
    requires Valid(acc)
    ensures Valid(r)
    ensures acc.keys <= r.keys && |r.keys| <= |acc.keys| + 1
    ensures f.name in r.nodes && r.nodes[f.name] == f
    ensures forall k :: k != f.name ==> (k in r.nodes <==> k in acc.nodes)
    ensures forall k :: k != f.name && k in acc.nodes ==> r.nodes[k] == acc.nodes[k]
  {
    Fields(if f.name in acc.keys then acc.keys else acc.keys + [f.name], acc.nodes[f.name := f])
  }

  /** The field nodes written one after the other, left to right. */
  function PutAll(acc: Fields, ns: seq<FieldNode>): (r: Fields)
    requires Valid(acc)
    ensures Valid(r)
    ensures acc.keys <= r.keys
    ensures forall k :: k in r.nodes <==> k in acc.nodes || k in Names(ns)
    decreases |ns|
  {
    if ns == [] then acc else PutAll(Put(acc, ns[0]), ns[1..])
  }

  /**
   * Every spread in `sels` that names a known fragment names one ranked below
   * `bound`.
   */
  ghost predicate SpreadsBelow(frags: map<string, seq<Selection>>, rank: map<string, nat>,
                               sels: seq<Selection>, bound: nat)
  {
    forall i :: 0 <= i < |sels| && sels[i].FragmentSpread? && sels[i].fragmentName in frags ==>
      sels[i].fragmentName in rank && rank[sels[i].fragmentName] < bound
  }

  /**
   * The fragment-reference graph is well founded: every fragment spreads only
   * fragments of a lower rank. Without this the walk does not terminate.
   */
  ghost predicate WellFounded(frags: map<string, seq<Selection>>, rank: map<string, nat>)
  {
    forall n :: n in frags ==> n in rank && SpreadsBelow(frags, rank, frags[n], rank[n])
  }

  /** A number above every rank. */
  ghost function Ceiling(rank: map<string, nat>): (c: nat)
    ensures forall n :: n in rank ==> rank[n] < c
    decreases |rank|
  {
    if rank == map[] then 0
    else
      var n :| n in rank;
      var rest := rank - {n};
      assert |rest| < |rank| by {
        assert rest.Keys == rank.Keys - {n};
      }
      var c := Ceiling(rest);
      assert forall m :: m in rank ==> m == n || m in rest;
      if rank[n] < c then c else rank[n] + 1
  }

  lemma RootSpreadsBelowCeiling(frags: map<string, seq<Selection>>, rank: map<string, nat>,
                                sels: seq<Selection>)
    requires WellFounded(frags, rank)
    ensures SpreadsBelow(frags, rank, sels, Ceiling(rank))
  {
  }

  lemma TailSpreadsBelow(frags: map<string, seq<Selection>>, rank: map<string, nat>,
                         sels: seq<Selection>, bound: nat)
    requires sels != [] && SpreadsBelow(frags, rank, sels, bound)
    ensures SpreadsBelow(frags, rank, sels[1..], bound)
  {
    forall i | 0 <= i < |sels| - 1 && sels[1..][i].FragmentSpread? && sels[1..][i].fragmentName in frags
      ensures sels[1..][i].fragmentName in rank && rank[sels[1..][i].fragmentName] < bound
    {
      assert sels[1..][i] == sels[i + 1];
    }
  }

  /** The outcome of a walk: the accumulator as it stands, and what was thrown, if anything. */
  datatype Run = Run(fields: Fields, error: Option<FlattenError>)

  /**
   * The walk over one selection set, step by step as the code does it: a field
   * is written, a spread is walked recursively into the same accumulator, any
   * other selection is skipped. An unknown fragment throws, leaving the writes
   * made so far in the accumulator.
   */
  ghost function Collect(frags: map<string, seq<Selection>>, rank: map<string, nat>,
                         sels: seq<Selection>, acc: Fields, bound: nat): (r: Run)
    requires WellFounded(frags, rank) && SpreadsBelow(frags, rank, sels, bound) && Valid(acc)
    ensures Valid(r.fields)
    decreases bound, |sels|
  {
    if sels == [] then Run(acc, None)
    else
      TailSpreadsBelow(frags, rank, sels, bound);
      match sels[0]
      case Field(_, _) => Collect(frags, rank, sels[1..], Put(acc, sels[0]), bound)
      case FragmentSpread(n) =>
        if n !in frags then Run(acc, Some(UnknownFragment(n)))
        else
          var inner := Collect(frags, rank, frags[n], acc, rank[n]);
          if inner.error.Some? then inner
          else Collect(frags, rank, sels[1..], inner.fields, bound)
      case InlineFragment(_) => Collect(frags, rank, sels[1..], acc, bound)
  }

  /** The selection set an AST node carries, if any. */
  function SelectionSetOf(ast: Selection): (r: Option<seq<Selection>>)
    ensures r.None? <==> ast.FragmentSpread? || (ast.Field? && ast.selectionSet.None?)
    ensures ast.Field? && ast.selectionSet.Some? ==> r == ast.selectionSet
    ensures ast.InlineFragment? ==> r == Some(ast.selections)
  {
    match ast
    case Field(_, selectionSet) => selectionSet
    case FragmentSpread(_) => None
    case InlineFragment(selections) => Some(selections)
  }

  /** `getFieldsFromAst(info, ast, acc)` as a value. */
  ghost function FieldsFromAst(info: Info, rank: map<string, nat>, ast: Selection, acc: Fields): Run
    requires WellFounded(info.fragments, rank) && Valid(acc)
  {
    match SelectionSetOf(ast)
    case None => Run(acc, Some(NoSelectionSet))
    case Some(sels) =>
      RootSpreadsBelowCeiling(info.fragments, rank, sels);
      Collect(info.fragments, rank, sels, acc, Ceiling(rank))
  }

  /** `getFieldsFromInfo(info)` as a value: the first field node, into a fresh map. */
  ghost function FieldsFromInfo(info: Info, rank: map<string, nat>): Run
    requires WellFounded(info.fragments, rank)
  {
    if info.fieldASTs == [] then Run(EMPTY, Some(NoSelectionSet))
    else FieldsFromAst(info, rank, info.fieldASTs[0], EMPTY)
  }

  // ---------------------------------------------------------------------------
  // The independent characterisation: depth-first expansion, then PutAll.
  // ---------------------------------------------------------------------------

  /** The fields a walk meets, in depth-first, left-to-right order, up to the first unknown fragment. */
  datatype Expansion = Expansion(nodes: seq<FieldNode>, error: Option<FlattenError>)

  /**
   * The depth-first, left-to-right expansion of a selection set: each spread is
   * replaced by its fragment's expansion at the spread's position; inline
   * fragments and the sub-selections of fields contribute nothing.
   */
  ghost function Expand(frags: map<string, seq<Selection>>, rank: map<string, nat>,
                        sels: seq<Selection>, bound: nat): Expansion
    requires WellFounded(frags, rank) && SpreadsBelow(frags, rank, sels, bound)
    decreases bound, |sels|
  {
    if sels == [] then Expansion([], None)
    else
      TailSpreadsBelow(frags, rank, sels, bound);
      var rest := Expand(frags, rank, sels[1..], bound);
      match sels[0]
      case Field(_, _) => Expansion([sels[0]] + rest.nodes, rest.error)
      case FragmentSpread(n) =>
        if n !in frags then Expansion([], Some(UnknownFragment(n)))
        else
          var inner := Expand(frags, rank, frags[n], rank[n]);
          if inner.error.Some? then inner
          else Expansion(inner.nodes + rest.nodes, rest.error)
      case InlineFragment(_) => rest
  }

  lemma {:induction false} PutAllAppend(acc: Fields, a: seq<FieldNode>, b: seq<FieldNode>)
    requires Valid(acc)
    ensures PutAll(acc, a + b) == PutAll(PutAll(acc, a), b)
    decreases |a|
  {
    if a == [] {
      assert a + b == b;
    } else {
      assert (a + b)[0] == a[0];
      assert (a + b)[1..] == a[1..] + b;
      PutAllAppend(Put(acc, a[0]), a[1..], b);
    }
  }

  /**
   * The walk writes exactly the expansion's fields, in order, into the
   * accumulator, and throws exactly when the expansion meets an unknown
   * fragment (having written the fields met before it).
   */
  lemma {:induction false} CollectIsPutAllOfExpansion(frags: map<string, seq<Selection>>,
                                                      rank: map<string, nat>,
                                                      sels: seq<Selection>, acc: Fields, bound: nat)
    requires WellFounded(frags, rank) && SpreadsBelow(frags, rank, sels, bound) && Valid(acc)
    ensures var e := Expand(frags, rank, sels, bound);
            Collect(frags, rank, sels, acc, bound) == Run(PutAll(acc, e.nodes), e.error)
    decreases bound, |sels|
  {
    if sels != [] {
      TailSpreadsBelow(frags, rank, sels, bound);
      var rest := Expand(frags, rank, sels[1..], bound);
      match sels[0]
      case Field(_, _) =>
        CollectIsPutAllOfExpansion(frags, rank, sels[1..], Put(acc, sels[0]), bound);
        assert ([sels[0]] + rest.nodes)[1..] == rest.nodes;
      case FragmentSpread(n) =>
        if n in frags {
          var inner := Expand(frags, rank, frags[n], rank[n]);
          CollectIsPutAllOfExpansion(frags, rank, frags[n], acc, rank[n]);
          if inner.error.None? {
            var mid := PutAll(acc, inner.nodes);
            CollectIsPutAllOfExpansion(frags, rank, sels[1..], mid, bound);
            PutAllAppend(acc, inner.nodes, rest.nodes);
          }
        }
      case InlineFragment(_) =>
        CollectIsPutAllOfExpansion(frags, rank, sels[1..], acc, bound);
    }
  }

  /**
   * Key order: the keys already in the accumulator stay first and in place;
   * the new keys follow in order of their first occurrence in `ns`, that is,
   * wherever a later key occurs in `ns`, every earlier key has occurred before it.
   */
  lemma {:induction false} PutAllKeyOrder(acc: Fields, ns: seq<FieldNode>)
    requires Valid(acc)
    ensures var r := PutAll(acc, ns);
            forall i, j, q :: |acc.keys| <= i < j < |r.keys| && 0 <= q < |ns| && ns[q].name == r.keys[j] ==>
              r.keys[i] in Names(ns[..q])
    decreases |ns|
  {
    if ns != [] {
      var acc' := Put(acc, ns[0]);
      var r := PutAll(acc, ns);
      assert r == PutAll(acc', ns[1..]);
      PutAllKeyOrder(acc', ns[1..]);
      forall i, j, q | |acc.keys| <= i < j < |r.keys| && 0 <= q < |ns| && ns[q].name == r.keys[j]
        ensures r.keys[i] in Names(ns[..q])
      {
        KeyOrderStep(acc.keys, acc'.keys, r.keys, ns, i, j, q);
      }
    }
  }

  /**
   * One instance of the induction step of PutAllKeyOrder: `keys` extends
   * `mid`, which is `prior` with the first name appended if it was new.
   */
  lemma KeyOrderStep(prior: seq<string>, mid: seq<string>, keys: seq<string>, ns: seq<FieldNode>,
                     i: int, j: int, q: int)
    requires ns != [] && mid <= keys
    requires mid == if ns[0].name in prior then prior else prior + [ns[0].name]
    requires forall a, b :: 0 <= a < b < |keys| ==> keys[a] != keys[b]
    requires forall a, b, c :: |mid| <= a < b < |keys| && 0 <= c < |ns| - 1 && ns[1..][c].name == keys[b] ==>
               keys[a] in Names(ns[1..][..c])
    requires |prior| <= i < j < |keys| && 0 <= q < |ns| && ns[q].name == keys[j]
    ensures keys[i] in Names(ns[..q])
  {
    var n0 := ns[0].name;
    // A key past the prior ones is not ns[0]'s name, so q is not 0.
    if n0 in prior {
      var m :| 0 <= m < |prior| && prior[m] == n0;
      assert keys[m] == n0;
    } else {
      assert keys[|prior|] == n0;
    }
    assert keys[j] != n0;
    assert q >= 1;
    assert ns[..q][1..] == ns[1..][..q - 1];
    assert Names(ns[..q]) == [n0] + Names(ns[1..][..q - 1]);
    if n0 !in prior && i == |prior| {
      assert keys[i] == n0;
    } else {
      assert ns[1..][q - 1].name == keys[j];
    }
  }

  /**
   * Values: a name's node is that of its last occurrence in `ns`; a name that
   * does not occur in `ns` keeps the accumulator's node.
   */
  lemma {:induction false} PutAllLastOccurrence(acc: Fields, ns: seq<FieldNode>)
    requires Valid(acc)
    ensures var r := PutAll(acc, ns);
            && (forall p :: 0 <= p < |ns| && ns[p].name !in Names(ns[p + 1..]) ==> r.nodes[ns[p].name] == ns[p])
            && (forall k :: k in acc.nodes && k !in Names(ns) ==> r.nodes[k] == acc.nodes[k])
    decreases |ns|
  {
    if ns != [] {
      var acc' := Put(acc, ns[0]);
      var r := PutAll(acc, ns);
      assert r == PutAll(acc', ns[1..]);
      PutAllLastOccurrence(acc', ns[1..]);
      forall p | 0 <= p < |ns| && ns[p].name !in Names(ns[p + 1..])
        ensures r.nodes[ns[p].name] == ns[p]
      {
        if p == 0 {
          assert ns[1..] == ns[p + 1..];
        } else {
          assert ns[1..][p - 1] == ns[p];
          assert ns[1..][p - 1 + 1..] == ns[p + 1..];
        }
      }
      forall k | k in acc.nodes && k !in Names(ns)
        ensures r.nodes[k] == acc.nodes[k]
      {
      }
    }
  }
}
