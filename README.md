# JSON path viewer: path engine model

The application shows a JSON document (`test`) as a tree. Next to every
scalar member of a mapping it offers a path such as `res.fields.1.prop`, and it has an
input box that resolves a typed path against the same document and displays
what it finds. This project models the engine behind those two features in
Dafny and proves what it does:

- **Classifiers**: `isObject`, `isArray` and `isString`, over a JSON value
  or `undefined` (module `Json`).
- **Resolver**: `getIndexValueFromObject`.
  - It tokenizes the path with the regular expression `[^[\].]+`
    (module `Tokens`).
  - It walks the tokens from the wrapper `{res: tree}`, and stops when the
    tokens run out or the current value is falsy.
  - It formats the result. A container displays as `""`, a string as
    `"…"` in quotes, and anything else as `String(v)` (modules `Paths`
    and `Json`).
  - The resolver appears twice in the model. `Paths.IndexValueFromObject`
    is the `while` loop itself, proved equal to the functional
    `Paths.Resolve`, and the lemmas are stated about `Resolve`.
- **Builder**: `getIndexFromKey(keyName.join("."))`, which makes the path a
  member offers (module `Paths`).
- **Enumeration**: `processObject` and `processValue` inside `JsonParser`.
  The rendering is left out. The walk is kept as the ordered list of
  visits. Each visit records:
  - the component used;
  - the key chain (`keyName`);
  - the value;
  - the last-child flag (`isLastIndex`);
  - the indentation level (`deep`).

  (module `Traversal`)
- **Numerals**: `String(index)` and the canonical index keys an array
  answers to (module `Numerals`).
- **The `test` document**: what the resolver displays for a few paths typed
  against it (module `Example`).

Points of the code's behaviour that a reader might not expect:

- **Index segments are joined with `.`, not bracketed.** The builder joins
  every key of the chain with `.` (src/App.tsx:66), index keys included
  (src/App.tsx:203), so paths look like
  `res.fields.1.prop`, never `res.fields[1].prop`. The tokenizer still
  reads both forms the same way: the dotted form the builder emits by
  `Paths.BuildPathTokenizes`, the bracket form by
  `Example.TokenizeMemberIndexPath`.
- **Every path starts with `res`.** The builder prefixes `res.`
  (src/App.tsx:44-46) and the resolver starts from `{res: tree}`
  (src/App.tsx:50). A path whose first token is not `res` therefore
  displays `undefined` (`Paths.ResolveFirstToken`,
  `Example.ResolveWithoutRoot`), and a path with no token at all displays
  `""` (`Paths.ResolveNoTokens`).
- **A missing key displays `undefined`, not an empty string.** The
  resolver formats the `undefined` it reaches with `String`
  (src/App.tsx:59).
- **A falsy value stops the walk.** The walk stops on any falsy value, not
  only on a missing key, and the rest of the path is ignored
  (`Paths.ResolveStopsAtFalsy`, `Example.ResolveStopsAtZero`).

## Model

| member | source | states |
|---|---|---|
| Json.ClassifiersPartition | src/App.tsx:32-42 | `isArray` holds exactly for arrays, `isObject` exactly for mappings (never for `null`), `isString` exactly for strings; no value is both an array and an object, and a string is neither |
| Json.LookupField | src/App.tsx:223 | the lookup in a mapping is defined exactly when some member has the key, and then it returns the value of a member with that key |
| Json.LookupFieldAt | src/App.tsx:216-223 | with distinct keys, `jsonObj[key]` for the key of any member returns that member's value |
| Json.TypeOf | src/App.tsx:33 | `typeof v`; its contract is stated through the classifiers in Json.ClassifiersPartition |
| Json.IsArray | src/App.tsx:36-38 | `Array.isArray`; see Json.ClassifiersPartition |
| Json.IsObject | src/App.tsx:32-34 | not `null`, of type `object`, not an array; see Json.ClassifiersPartition |
| Json.IsString | src/App.tsx:40-42 | of type `string`; see Json.ClassifiersPartition |
| Json.Truthy | src/App.tsx:51 | the loop condition on `result`: containers are truthy even when empty; `""`, `0`, `false`, `null` and `undefined` are falsy; its consequences are stated in Paths.ResolveStopsAtFalsy and Paths.WalkReachesLocated |
| Json.Lookup | src/App.tsx:53 | `result[currentKey]` finds something only in an array or a mapping; in an array exactly for a canonical index key below the length, and then the element at that index; in a mapping, the own-member lookup |
| Json.ArrayLookupAt | src/App.tsx:53 | every element of an array is found under the key `String(index)` of its index |
| Json.ArrayLookupOnlyIndexKeys | src/App.tsx:53 | whatever an array yields under a key is the element whose `String(index)` that key is |
| Json.ToJsString | src/App.tsx:59 | `String(v)` of a scalar or `undefined`; its contract is stated through Json.Format and Json.FormatInjective |
| Json.Format | src/App.tsx:55-59 | the display is empty exactly for arrays and mappings, and starts with a double quote exactly for strings; Json.FormatQuoted gives a string's display in full |
| Json.FormatQuoted | src/App.tsx:57-58 | a string is displayed as itself between double quotes, nothing escaped |
| Json.FormatInjective | src/App.tsx:55-59 | two non-container values display alike exactly when they are equal (the string `"1"` and the number `1` are told apart) |
| Numerals.NatToString | src/App.tsx:196 | `String(index)` is a non-empty run of decimal digits |
| Numerals.ParseNatToString | src/App.tsx:196 | reading back `String(n)` gives `n` |
| Numerals.NatToStringLeadingDigit | src/App.tsx:196 | `String(n)` starts with `0` exactly when `n` is 0 |
| Numerals.NatToStringIsIndexKey | src/App.tsx:196-203 | the key given to an array element is a canonical index key, and it denotes that very index |
| Numerals.IndexKeyRoundTrip | src/App.tsx:53 | every canonical index key is `String` of the index it denotes |
| Numerals.NatToStringInjective | src/App.tsx:196 | distinct indices get distinct keys, and equal keys mean equal indices |
| Numerals.IntToString | src/App.tsx:59 | `String(n)` of an integer is non-empty and starts with a sign or a digit; its value is stated by Numerals.IntToStringValue |
| Numerals.IntToStringValue | src/App.tsx:59 | `String(n)` is the canonical decimal digits of `n` for `n >= 0`, and a minus sign followed by the canonical digits of `-n` otherwise |
| Numerals.IntToStringInjective | src/App.tsx:59 | two integers display alike exactly when they are equal |
| Tokens.Tokenize | src/App.tsx:49 | `index.match(/([^[\].]+)/g)`, with `null` read as no tokens; its contract is stated by Tokens.TokensAreNonEmptyPieces, Tokens.TokensAreRuns, Tokens.NoTokensIffOnlySeps and Tokens.TokensCoverInput |
| Tokens.RunLength | src/App.tsx:49 | the run taken as a token is free of separators and ends at a separator or at the end of the input |
| Tokens.TokensAreRuns | src/App.tsx:49 | every token the pattern yields is non-empty and holds no `.`, `[` or `]` |
| Tokens.NoTokensIffOnlySeps | src/App.tsx:49 | there is no token (the match is `null`) exactly when the path holds only separators |
| Tokens.TokensCoverInput | src/App.tsx:49 | the tokens, concatenated, are the path with its separators deleted: no character other than a separator is lost |
| Tokens.TokensAreNonEmptyPieces | src/App.tsx:49 | the tokens are exactly the non-empty pieces between separators, in order (an independent reading of the pattern) |
| Tokens.TokenizeSkipSep | src/App.tsx:49 | a leading separator yields no token |
| Tokens.TokenizeTokenThen | src/App.tsx:49 | a token followed by a separator or by nothing is read off whole |
| Paths.RootWrapper | src/App.tsx:50 | the walk starts from the one-member mapping `{res: tree}`; stated by Paths.ResolveFirstToken and Paths.ResolveNoTokens |
| Paths.IndexFromKey | src/App.tsx:44-46 | `getIndexFromKey`: `res.` before the key; its contract is stated by Paths.BuildPathTokenizes |
| Paths.JoinKeys | src/App.tsx:66 | `keyName.join(".")`; its contract is stated by Paths.TokenizeJoinKeys |
| Paths.BuildPath | src/App.tsx:66-72 | `getIndexFromKey(keyName.join("."))`; its contract is stated by Paths.BuildPathTokenizes and Paths.ResolveBuiltPath |
| Paths.Walk | src/App.tsx:50-54 | the lookups of the loop, stopping when the tokens run out or the value is falsy; its contract is stated by Paths.WalkConcat, Paths.WalkReachesLocated and Paths.IndexValueFromObject |
| Paths.Resolve | src/App.tsx:48-60 | what `getIndexValueFromObject` returns; its contract is stated by Paths.ResolveFirstToken, Paths.ResolveAlong, Paths.ResolveStopsAtFalsy and Paths.ResolveBuiltPath |
| Paths.TokenizeJoinKeys | src/App.tsx:66 | tokenizing `keyName.join(".")` gives the chain back when its keys are tokens |
| Paths.BuildPathTokenizes | src/App.tsx:44-46 | the path built for a chain of tokens tokenizes to `res` followed by the chain |
| Paths.RootKeyIsToken | src/App.tsx:45 | the prefix `res` is a single token |
| Paths.IndexValueFromObject | src/App.tsx:48-60 | the loop that shifts a token and looks it up while tokens remain and the value is truthy, then formats, computes `Resolve` |
| Paths.WalkConcat | src/App.tsx:51-54 | walking two token lists in turn is walking their concatenation |
| Paths.ResolveNoTokens | src/App.tsx:49-51 | a path of separators only (or empty) displays `""`, the wrapper being a container |
| Paths.ResolveFirstToken | src/App.tsx:50-53 | a path whose first token is `res` continues from the tree itself; any other first token displays `undefined` |
| Paths.ResolveAlong | src/App.tsx:50-54 | a path tokenizing to `res` and a chain displays the format of walking that chain from the tree |
| Paths.ResolveRoot | src/App.tsx:50-59 | the path `res` displays the tree itself |
| Paths.ResolveStopsAtFalsy | src/App.tsx:51 | once the walk reaches a falsy value, tokens after it are ignored and that value is displayed |
| Paths.WalkReachesLocated | src/App.tsx:51-54 | along a chain that reaches an existing node, the early stop never fires and the walk arrives at that node |
| Paths.LocatedChainIsPlain | src/App.tsx:194-223 | in a tree with plain keys, every key of a chain that reaches a node is a token |
| Paths.ResolveBuiltPath | src/App.tsx:72 | resolving the path built for any chain that reaches a node displays that node, when the tree's keys are plain |
| Paths.SeparatorInKeyBreaksRoundTrip | src/App.tsx:44-53 | for a key `a.b` the built path `res.a.b` displays `undefined` although the key reaches its value |
| Traversal.JsonParser | src/App.tsx:238 | the walk yields nothing exactly when the document is not a container |
| Traversal.ProcessValue | src/App.tsx:149-180 | `processValue`; its contract is stated by Traversal.ProcessValueSound, Traversal.ProcessValueExtends and Traversal.ProcessValueOnce |
| Traversal.ProcessObject | src/App.tsx:182-236 | `processObject`; its contract is stated by Traversal.ProcessObjectSound, Traversal.ProcessObjectComplete, Traversal.ProcessObjectExtends and Traversal.ProcessObjectOnce |
| Traversal.ArrayChildren | src/App.tsx:191-211 | the `jsonObj.map` over an array; its contract is stated by Traversal.ArrayChildrenSound, Traversal.ArrayChildrenInclude, Traversal.ArrayChildrenOnce and Traversal.ArrayChildrenOrdered |
| Traversal.ObjectChildren | src/App.tsx:213-233 | the `Object.keys(jsonObj).map` over a mapping; its contract is stated by Traversal.ObjectChildrenSound, Traversal.ObjectChildrenInclude, Traversal.ObjectChildrenOnce and Traversal.ObjectChildrenOrdered |
| Traversal.ProcessValueSound | src/App.tsx:149-180 | each visit from `processValue` describes the tree at its chain: its value, component, last flag and depth |
| Traversal.ProcessObjectSound | src/App.tsx:182-236 | each visit from `processObject` describes the tree at its chain |
| Traversal.ArrayChildrenSound | src/App.tsx:191-211 | array children carry the key `String(index)`, the same depth, and the last flag exactly for the final element |
| Traversal.ArrayChildFacts | src/App.tsx:194-206 | an array element reached by `String(index)` keeps the array's depth and is last exactly when it is the final element |
| Traversal.ObjectChildFacts | src/App.tsx:213-232 | a mapping child reached by its key is at depth `deep + 1` and is last exactly when it is the final key |
| Traversal.ObjectChildrenSound | src/App.tsx:213-232 | each visit below a mapping's children describes the tree at its chain |
| Traversal.JsonParserSound | src/App.tsx:148-238 | every visit of the walk carries the chain that reaches its value, the component for it, a last flag true exactly for the root and final children, and the count of mappings above it as depth |
| Traversal.ArrayChildrenInclude | src/App.tsx:194-210 | the visits of each array element are among the visits of its array |
| Traversal.ObjectChildrenInclude | src/App.tsx:216-232 | the visits of each mapping member are among the visits of its mapping |
| Traversal.NothingBelowScalar | src/App.tsx:168-179 | no chain reaches below a scalar, which is where `processValue` stops |
| Traversal.ProcessObjectComplete | src/App.tsx:182-236 | every node below a container is visited with its chain |
| Traversal.JsonParserComplete | src/App.tsx:238 | every node of a container document, the root included, is visited |
| Traversal.ProcessValueExtends | src/App.tsx:156-177 | every visit produced for a child carries the child's chain `parentKey + [key]` as a prefix |
| Traversal.ProcessObjectExtends | src/App.tsx:191-235 | a container's visits start with its wrapper at its own chain, with its depth and last flag, and every later visit lies strictly below it (pre-order) |
| Traversal.ArrayChildrenExtends | src/App.tsx:194-210 | every visit among the array children from position `index` on lies below the element whose index key is at `index` or later |
| Traversal.ObjectChildrenExtends | src/App.tsx:216-232 | every visit among the mapping children from position `index` on lies below a member at `index` or later |
| Traversal.ProcessValueOnce | src/App.tsx:149-180 | no two visits from `processValue` share a chain |
| Traversal.ProcessObjectOnce | src/App.tsx:182-236 | no two visits from `processObject` share a chain |
| Traversal.ArrayChildrenOnce | src/App.tsx:194-210 | no two visits among an array's children share a chain |
| Traversal.ObjectChildrenOnce | src/App.tsx:216-232 | no two visits among a mapping's children share a chain, its keys being distinct |
| Traversal.DistinctConcat | src/App.tsx:192-233 | joining two visit lists without a shared chain keeps every chain unique |
| Traversal.JsonParserVisitsOnce | src/App.tsx:238 | each node of a well-formed document is visited exactly once: no two visits carry the same chain |
| Traversal.ArrayChildrenOrdered | src/App.tsx:194-210 | elements come in index order: every visit below element `i` precedes every visit below a later element `j` |
| Traversal.ObjectChildrenOrdered | src/App.tsx:216-232 | members come in stored order: every visit below member `i` precedes every visit below a later member `j` |
| Traversal.EnumeratedPathsResolve | src/App.tsx:64-72 | the path offered for any visit, resolved against the same document, displays that visit's value |
| Example.TokenizeIndexThenKey | src/App.tsx:49 | `b[c].d` tokenizes to `b`, `c`, `d` |
| Example.TokenizeMemberIndexPath | src/App.tsx:49 | `a.b[c].d` tokenizes to `a`, `b`, `c`, `d` |
| Example.TokenizeDotted | src/App.tsx:49 | `a.b.c` tokenizes to `a`, `b`, `c` |
| Example.ResolveMember | src/App.tsx:50-59 | `res.key` displays the tree's own member `key` |
| Example.WalkThree | src/App.tsx:51-54 | three keys over truthy values are all looked up |
| Example.LookupFields | src/App.tsx:243-260 | `test.fields` is the array of the two fields |
| Example.LookupHasError | src/App.tsx:243-260 | `test.hasError` is `false` |
| Example.LookupSecondField | src/App.tsx:246-258 | `fields[1]` is the second field |
| Example.LookupProp | src/App.tsx:253-258 | a field's `prop` is `"iban"` |
| Example.FormatFieldProp | src/App.tsx:243-260 | walking `fields`, `1`, `prop` through `test` displays `"iban"` |
| Example.ResolveFieldProp | src/App.tsx:269 | `res.fields[1].prop` displays `"iban"` with its quotes |
| Example.ResolveWithoutRoot | src/App.tsx:269 | `fields[1].prop`, without the leading `res`, displays `undefined` |
| Example.ResolveHasError | src/App.tsx:269 | `res.hasError` displays `false` |
| Example.ResolveFieldsIsComposite | src/App.tsx:269 | `res.fields` displays nothing: it is an array |
| Example.ResolveStopsAtZero | src/App.tsx:51 | in `{a: 0}` the path `res.a.b` displays `0`: the walk stops at the falsy `0` |
| Example.ResolveEmptyPath | src/App.tsx:265-269 | the initial empty path displays nothing |

## Left out

- Rendering: the JSX markup, CSS classes, margins computed from `deep`, the printed commas, the brackets, the key labels and React's `key` attributes are not modelled. The model keeps only the data each component receives.
- The state wiring of `App` (src/App.tsx:264-271): `useState` and `useEffect` re-run the resolver when the input changes. The model resolves one path against one document per call.
- The second input box (src/App.tsx:286) has no behaviour and is not modelled.
- Json.Lookup: returns `undefined` for every key except an array's canonical index keys and a mapping's own keys. JavaScript also answers inherited and built-in members (`res.fields.length` gives `2`, `res.date.0` gives a character of the string, `res.toString` gives a function). JavaScript's object model is not part of this model.
- Looking up a key in `null` or `undefined` throws in JavaScript. The model needs no case for it: the walk stops on falsy values before it could look one up.
- Numbers are integers. Fractions, `NaN`, `-0`, exponent notation and the rest of `String(number)` are floating point and are not modelled.
- Object.keys ordering: JavaScript lists integer-like keys first, in ascending order. The model visits a mapping's members in the order they are stored.
- JavaScript values that JSON cannot hold (functions, symbols, members explicitly set to `undefined`) are not in the data model.
- Only `ValueObjectElement` attaches the click handler (src/App.tsx:72). Traversal.EnumeratedPathsResolve states the round trip for every visit, which also covers chains the interface does not offer.
- Keys that are empty or contain `.`, `[` or `]` are not escaped by the builder. The round trip is stated only for plain keys. Paths.SeparatorInKeyBreaksRoundTrip shows how such a key fails.
