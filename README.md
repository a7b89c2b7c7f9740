# graphql-utils: selection flattening and context tagging, in Dafny

This project models the four exported functions of `src/index.js` in
graphql-utils and proves what they promise.

- **`getFieldsFromAst(info, ast, fields = {})`** walks the selection set of a
  GraphQL AST node. Each `Field` is written into the `fields` object under its
  name. Each `FragmentSpread` is resolved through `info.fragments` and walked
  into the same object. Any other selection, such as an inline fragment, is
  skipped. The function returns the object it filled. The object's key order is
  its insertion order. A field name met again overwrites the stored node but
  keeps the name's first position.
- **`getFieldsFromInfo(info)`** does the same for `info.fieldASTs[0]`, starting
  from a fresh object.
- **`withContext(payload, context)`** returns a shallow copy of the payload with
  a `__context` attribute set on it. The context is either a value or a function
  of the payload. For an array payload, each element is copied and tagged on its
  own, and the new array is left untagged.
- **`getContext(source)`** reads `source.__context`.

Modules:

- `Wrappers` (`wrappers.dfy`): `Option` and `Result`.
- `Selections` (`selections.dfy`): the AST. Also the ordered field map as a
  value (`Fields`), the reference walk `Collect`, and an independent
  characterisation of it: the depth-first expansion `Expand`, written in order
  by `PutAll`. The lemmas state key order and stored values.
- `Flatten` (`flatten.dfy`): the accumulator object as a class, `FieldMap`.
  The walk is a method with a loop that updates that object in place and
  recurses into fragments. Each method is proved to compute `Collect`.
- `FieldsTests` (`fields_tests.dfy`): the queries of the flattener's test
  suite, with the key orders the suite expects.
- `Context` (`context.dfy`): JavaScript values, lodash `clone`, the tagger as
  a spec function (`Tagged`) and as a loop method (`WithContext`), and the
  reader.
- `ContextTests` (`context_tests.dfy`): the payloads of the tagger's test suite.

Modelling choices:

- Both failure paths of the walk are JavaScript TypeErrors. One is a selection
  set that is missing (`ast` has none, or `info.fieldASTs` is empty). The other
  is a spread that names an unknown fragment: the recursive call then reads
  `undefined.selectionSet`. Both are modelled as a `FlattenError`. Writes made
  before the throw stay in the accumulator, and `Run` records both.
- The code has no guard against cyclic fragments. A self-referential fragment
  recurses until the stack overflows. So every operation of the walk requires
  `WellFounded(fragments, rank)`: a rank on fragment names under which each
  fragment only spreads fragments of lower rank. The rank is ghost.
- The module is strict-mode code (ES module syntax). So assigning `__context`
  to a primitive throws, as does reading a property of `null` or `undefined`.
  lodash `clone` copies an object's own attributes. For an array it copies only
  the elements, not the named attributes.

The array branch calls the context function on the clone (`src/index.js:32`);
the object branch calls it on the original (`src/index.js:37`). The two differ
for an array element with named attributes, whose clone drops them.

## Model

| member | source | states |
|---|---|---|
| `Selections.Put` | src/index.js:6 | Writing a field keeps the map well formed and stores the node under its name. A new name is appended. An existing name keeps its position. Every other name keeps its node. |
| `Selections.PutAll` | src/index.js:4-6 | Writing fields in sequence keeps the existing keys as a prefix and keeps keys unique. The resulting names are the old names together with the written ones. |
| `Selections.Collect` | src/index.js:3-14 | The reference walk keeps the accumulator a well-formed ordered map: unique keys, and one node per key. This holds on the error path too. |
| `Selections.CollectIsPutAllOfExpansion` | src/index.js:4-11 | The walk writes exactly the fields of the depth-first, left-to-right expansion, in order. Each fragment's fields sit at the position of its spread. The walk throws exactly when the expansion meets an unknown fragment, having written the fields before it. |
| `Selections.PutAllKeyOrder` | src/index.js:4-10 | New keys follow the old ones in first-occurrence order. Wherever a later key occurs, every earlier new key has already occurred. |
| `Selections.PutAllLastOccurrence` | src/index.js:6 | The node stored under a name is that name's last occurrence. A name never written keeps the accumulator's node. |
| `Selections.SelectionSetOf` | src/index.js:4 | Reading `ast.selectionSet` finds nothing exactly for a fragment spread or a leaf field, and the walk then throws a TypeError. A field yields its own selection set and an inline fragment its selections. |
| `Flatten.FieldMap.constructor` | src/index.js:3 | The default accumulator `{}` is the empty ordered map. |
| `Flatten.FieldMap.Set` | src/index.js:6 | `fields[name] = selection` changes the object exactly as `Put` does, and keeps it well formed. |
| `Flatten.CollectInto` | src/index.js:4-11 | The in-place loop and recursion leave the accumulator and the thrown error exactly as `Collect` computes from the accumulator's old value. |
| `Flatten.GetFieldsFromAst` | src/index.js:3-14 | Returns the supplied accumulator object itself, or a fresh one when none is given. Its new contents and the error match `FieldsFromAst`. A node without a selection set throws. |
| `Flatten.GetFieldsFromInfo` | src/index.js:16-18 | Walks `info.fieldASTs[0]` into a fresh object, which is `FieldsFromAst` from an empty map. Throws when there is no field node. |
| `FieldsTests.RootLevelFields` | src/__tests__/fields.js:106-120 | Through `getFieldsFromInfo`, `{ metric { one, two } }` yields keys `[one, two]`. |
| `FieldsTests.RootLevelFieldsFromAst` | src/__tests__/fields.js:18-31 | Through `getFieldsFromAst` on the first field node, `{ metric { one, two } }` yields keys `[one, two]`. |
| `FieldsTests.FieldsInFragments` | src/__tests__/fields.js:33-50 | `{ metric { one, ...a } }` with `a { two }` yields keys `[one, two]`. |
| `FieldsTests.FieldsInNestedFragments` | src/__tests__/fields.js:52-103 | Nested fragments yield keys `[one, two, three]`. The node stored under `three` is the field itself, and walking it yields `[four]`. |
| `Context.ContextFn` | src/index.js:21-25 | A non-function argument becomes a function returning that value for every input. A function argument is used as given. |
| `Context.Clone` | src/index.js:31-36 | lodash `clone` keeps the kind of its argument. An object keeps all its attributes. An array keeps its elements and drops its named attributes. A primitive is returned as is. |
| `Context.SetContext` | src/index.js:32-37 | Assigning `__context` succeeds exactly when the target can hold attributes, and otherwise throws a TypeError. On success the value differs only in `__context`, and `getContext` reads back the assigned context. |
| `Context.TagElements` | src/index.js:28-34 | The element loop succeeds exactly when every element can hold attributes. Each result is the element's clone with `__context` set to the context computed from the clone, and no other difference. |
| `Context.Tagged` | src/index.js:20-41 | A non-array payload succeeds exactly when it is an object. Its copy has `__context` equal to the context of the original and no other difference. An array payload yields an untagged array of the same length whose elements are tagged clones. It throws exactly when some element cannot hold attributes. |
| `Context.WithContext` | src/index.js:20-41 | The step-by-step tagging, which pushes one clone per element, returns exactly `Tagged`. |
| `Context.ContextRoundTrip` | src/index.js:43-45 | With a fixed context `c`, `getContext` of a tagged object is `c`. Every element of a tagged array reads back `c`, and the array itself reads back `undefined`. |
| `Context.ElementsKeepTheirData` | src/index.js:30-33 | A tagged object element keeps every attribute but `__context`. A tagged array element keeps its elements and has `__context` as its only attribute. |
| `Context.GetContext` | src/index.js:43-45 | Reading `__context` throws exactly for `null` and `undefined`. Any other result is `undefined` or the value's own `__context` attribute. An object or array without that attribute yields `undefined`. |
| `ContextTests.AssignsContextToObject` | src/__tests__/index.js:29-37 | `withContext({the: 'data'}, ctx)` reads back `ctx`. With the tag deleted, it equals the original. |
| `ContextTests.AssignsContextToAllElements` | src/__tests__/index.js:39-49 | `withContext([{a: 10}, [{b: 20}]], ctx)` tags the object and the nested array, each as a whole. Each equals its original once the tag is deleted. |
| `ContextTests.ReadsContext` | src/__tests__/index.js:53-58 | `getContext({__context: ctx})` is `ctx`. |

## Left out

- The test helper `getInfo`, which builds a schema and runs the GraphQL engine asynchronously. The test queries are given here as selection trees and fragment maps.
- Cyclic fragment references. Their unbounded recursion is excluded by the `WellFounded` precondition, not modelled as a stack overflow.
- AST details other than the kind, the field name, the fragment name and the selection sets: aliases, arguments, directives and locations.
- JavaScript object details: prototypes, enumerability, symbol keys, and the placement of integer-like keys before other keys. GraphQL names cannot be integer-like. A field named `__proto__` would set the prototype instead of a key; GraphQL reserves names starting with `__`.
- Object identity. The tests compare the context with `===`; the model uses structural equality. The model also does not capture that a shallow copy shares nested values with the original.
- Non-mutation of the payload is not a separate lemma. Values here are immutable and `WithContext` modifies nothing, so the original, and each original element, keeps whatever `__context` it had.
- lodash `clone` special cases: dates, maps, sets, typed arrays, the `index` and `input` attributes of regular-expression match arrays, functions, and holes in sparse arrays.
- Primitive values are opaque `Scalar`s, so booleans, numbers and strings are not told apart. A function cannot be given as a constant context, because the code would treat it as a context function.
- A context function that throws or has side effects. Context functions are total and pure here.
