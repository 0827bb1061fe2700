/**
  The tree walk of `JsonParser` without its markup: `processObject` and
  `processValue` visit the document in order and hand each container to a
  wrapper component and each scalar to an element component, together
  with its key chain (`keyName`), whether it is the last child of its
  container (`isLastIndex`, which decides the trailing comma) and its
  indentation level (`deep`). Each visit is recorded as an Entry.
 */
module Traversal {
  import opened Numerals
  import opened Json
  import opened Paths

  /** The component an entry is handed to. */
  datatype Render = ArrayWrapper | ObjectWrapper | ValueArrayElement | ValueObjectElement

  datatype Entry = Entry(render: Render, keyName: seq<string>, value: Json, isLastIndex: bool, deep: nat)

  /**
    `processValue`: the child's chain is the parent's chain plus its own
    key; a container is passed on to ProcessObject with the same flags,
    a scalar becomes one element.
   */
  function ProcessValue(value: Json, parentKey: seq<string>, key: string, element: Render,
                        deep: nat, isLastIndex: bool): seq<Entry>
    decreases value, 2, 0
  {
    var composedKey := parentKey + [key];
    if value.Arr? || value.Obj? then ProcessObject(value, composedKey, deep, isLastIndex)
    else [Entry(element, composedKey, value, isLastIndex, deep)]
  }

  /**
    `processObject`: a container gives its wrapper, then its children in
    order; anything else gives nothing.
   */
  function ProcessObject(json: Json, keyName: seq<string>, deep: nat, isLastIndex: bool): seq<Entry>
    decreases json, 1, 0
  {
    match json
    case Arr(_) => [Entry(ArrayWrapper, keyName, json, isLastIndex, deep)] + ArrayChildren(json, 0, keyName, deep)
    case Obj(_) => [Entry(ObjectWrapper, keyName, json, isLastIndex, deep)] + ObjectChildren(json, 0, keyName, deep)
    case _ => []
  }

  /** The `jsonObj.map` over an array: keys `String(index)`, the same `deep`. */
  function ArrayChildren(json: Json, index: nat, keyName: seq<string>, deep: nat): seq<Entry>
    requires json.Arr?
    decreases json, 0, |json.items| - index
  {
    if index >= |json.items| then []
    else
      ProcessValue(json.items[index], keyName, NatToString(index), ValueArrayElement, deep,
                   index == |json.items| - 1)
      + ArrayChildren(json, index + 1, keyName, deep)
  }

  /** The `Object.keys(jsonObj).map` over a mapping: its keys in order, `deep + 1`. */
  function ObjectChildren(json: Json, index: nat, keyName: seq<string>, deep: nat): seq<Entry>
    requires json.Obj?
    decreases json, 0, |json.fields| - index
  {
    if index >= |json.fields| then []
    else
      assert json.fields[index] in json.fields;
      ProcessValue(json.fields[index].1, keyName, json.fields[index].0, ValueObjectElement, deep + 1,
                   index == |json.fields| - 1)
      + ObjectChildren(json, index + 1, keyName, deep)
  }

  /**
    `JsonParser`: the walk from the root with the defaults of
    `processObject` (empty chain, depth 0, last). A scalar document
    shows nothing.
   */
  function JsonParser(tree: Json): (entries: seq<Entry>)
    ensures entries == [] <==> !(tree.Arr? || tree.Obj?)
  {
    ProcessObject(tree, [], 0, true)
  }

  // An independent description of what each entry should carry, read off
  // the tree at the entry's chain.

  function Parent(chain: seq<string>): seq<string>
    requires chain != []
  {
    chain[..|chain| - 1]
  }

  /** `key` is the key of the final child of `container`. */
  predicate IsLastKey(container: Value, key: string) {
    match container
    case Def(Arr(items)) => |items| > 0 && key == NatToString(|items| - 1)
    case Def(Obj(fields)) => |fields| > 0 && key == fields[|fields| - 1].0
    case _ => false
  }

  /** The node at `chain` is the root or the final child of its container. */
  predicate IsLastChild(tree: Json, chain: seq<string>) {
    chain == [] || IsLastKey(Locate(Def(tree), Parent(chain)), chain[|chain| - 1])
  }

  /** How many mappings the chain steps out of: only mapping children are indented further. */
  function ObjectDepth(tree: Json, chain: seq<string>): nat
    decreases |chain|
  {
    if chain == [] then 0
    else ObjectDepth(tree, Parent(chain)) + (if IsObject(Locate(Def(tree), Parent(chain))) then 1 else 0)
  }

  /** Containers go to their wrapper; a scalar goes to the element of its parent's kind. */
  function RenderFor(tree: Json, chain: seq<string>, value: Json): Render {
    if value.Arr? then ArrayWrapper
    else if value.Obj? then ObjectWrapper
    else if chain != [] && IsArray(Locate(Def(tree), Parent(chain))) then ValueArrayElement
    else ValueObjectElement
  }

  predicate Describes(tree: Json, e: Entry) {
    && Locate(Def(tree), e.keyName) == Def(e.value)
    && e.render == RenderFor(tree, e.keyName, e.value)
    && e.isLastIndex == IsLastChild(tree, e.keyName)
    && e.deep == ObjectDepth(tree, e.keyName)
  }

  lemma {:induction false} ProcessValueSound(tree: Json, value: Json, parentKey: seq<string>, key: string,
                                             element: Render, deep: nat, isLastIndex: bool)
    requires WellFormed(value)
    requires Locate(Def(tree), parentKey + [key]) == Def(value)
    requires element == if IsArray(Locate(Def(tree), parentKey)) then ValueArrayElement else ValueObjectElement
    requires isLastIndex == IsLastChild(tree, parentKey + [key])
    requires deep == ObjectDepth(tree, parentKey + [key])
    ensures forall e :: e in ProcessValue(value, parentKey, key, element, deep, isLastIndex) ==> Describes(tree, e)
    decreases value, 2, 0
  {
    var chain := parentKey + [key];
    if value.Arr? || value.Obj? {
      ProcessObjectSound(tree, value, chain, deep, isLastIndex);
    } else {
      assert Parent(chain) == parentKey;
    }
  }

  lemma {:induction false} ProcessObjectSound(tree: Json, json: Json, keyName: seq<string>, deep: nat, isLastIndex: bool)
    requires WellFormed(json)
    requires Locate(Def(tree), keyName) == Def(json)
    requires isLastIndex == IsLastChild(tree, keyName)
    requires deep == ObjectDepth(tree, keyName)
    ensures forall e :: e in ProcessObject(json, keyName, deep, isLastIndex) ==> Describes(tree, e)
    decreases json, 1, 0
  {
    match json {
      case Arr(_) => ArrayChildrenSound(tree, json, 0, keyName, deep);
      case Obj(_) => ObjectChildrenSound(tree, json, 0, keyName, deep);
      case _ =>
    }
  }

  /** What the reference definitions say about the element of an array at `index`. */
  lemma ArrayChildFacts(tree: Json, json: Json, index: nat, keyName: seq<string>)
    requires json.Arr? && index < |json.items|
    requires Locate(Def(tree), keyName) == Def(json)
    ensures Locate(Def(tree), keyName + [NatToString(index)]) == Def(json.items[index])
    ensures IsLastChild(tree, keyName + [NatToString(index)]) == (index == |json.items| - 1)
    ensures ObjectDepth(tree, keyName + [NatToString(index)]) == ObjectDepth(tree, keyName)
  {
    var key := NatToString(index);
    var chain := keyName + [key];
    assert Parent(chain) == keyName && chain[|chain| - 1] == key;
    NatToStringIsIndexKey(index);
    LocateSnoc(Def(tree), keyName, key);
    NatToStringInjective(index, |json.items| - 1);
  }

  lemma {:induction false} ArrayChildrenSound(tree: Json, json: Json, index: nat, keyName: seq<string>, deep: nat)
    requires json.Arr? && WellFormed(json)
    requires Locate(Def(tree), keyName) == Def(json)
    requires deep == ObjectDepth(tree, keyName)
    ensures forall e :: e in ArrayChildren(json, index, keyName, deep) ==> Describes(tree, e)
    decreases json, 0, |json.items| - index
  {
    var items := json.items;
    if index < |items| {
      ArrayChildFacts(tree, json, index, keyName);
      ProcessValueSound(tree, items[index], keyName, NatToString(index), ValueArrayElement, deep,
                        index == |items| - 1);
      ArrayChildrenSound(tree, json, index + 1, keyName, deep);
    }
  }

  /** What the reference definitions say about the child of a mapping at `index`. */
  lemma ObjectChildFacts(tree: Json, json: Json, index: nat, keyName: seq<string>, deep: nat)
    requires json.Obj? && WellFormed(json) && index < |json.fields|
    requires Locate(Def(tree), keyName) == Def(json)
    requires deep == ObjectDepth(tree, keyName)
    ensures Locate(Def(tree), keyName + [json.fields[index].0]) == Def(json.fields[index].1)
    ensures IsLastChild(tree, keyName + [json.fields[index].0]) == (index == |json.fields| - 1)
    ensures ObjectDepth(tree, keyName + [json.fields[index].0]) == deep + 1
    ensures WellFormed(json.fields[index].1)
  {
    var fields := json.fields;
    assert fields[index] in fields;
    var key := fields[index].0;
    var chain := keyName + [key];
    assert Parent(chain) == keyName && chain[|chain| - 1] == key;
    assert IsLastKey(Def(json), key) <==> index == |fields| - 1 by {
      if index < |fields| - 1 {
        assert fields[index].0 != fields[|fields| - 1].0;
      }
    }
    LookupFieldAt(fields, index);
    LocateSnoc(Def(tree), keyName, key);
  }

  lemma {:induction false} ObjectChildrenSound(tree: Json, json: Json, index: nat, keyName: seq<string>, deep: nat)
    requires json.Obj? && WellFormed(json)
    requires Locate(Def(tree), keyName) == Def(json)
    requires deep == ObjectDepth(tree, keyName)
    ensures forall e :: e in ObjectChildren(json, index, keyName, deep) ==> Describes(tree, e)
    decreases json, 0, |json.fields| - index
  {
    var fields := json.fields;
    if index < |fields| {
      ObjectChildFacts(tree, json, index, keyName, deep);
      ProcessValueSound(tree, fields[index].1, keyName, fields[index].0, ValueObjectElement, deep + 1,
                        index == |fields| - 1);
      ObjectChildrenSound(tree, json, index + 1, keyName, deep);
    }
  }

  /**
    Every entry the walk produces carries the chain that reaches its value
    in the tree, the component for that value, a last flag that is true
    exactly for the root and for the final child of a container, and a
    depth that counts the mappings above it.
   */
  lemma JsonParserSound(tree: Json)
    requires WellFormed(tree)
    ensures forall e :: e in JsonParser(tree) ==> Describes(tree, e)
  {
    ProcessObjectSound(tree, tree, [], 0, true);
  }

  lemma {:induction false} ArrayChildrenInclude(json: Json, from: nat, index: nat, keyName: seq<string>, deep: nat)
    requires json.Arr? && from <= index < |json.items|
    ensures forall e :: e in ProcessValue(json.items[index], keyName, NatToString(index), ValueArrayElement, deep,
                                          index == |json.items| - 1)
                        ==> e in ArrayChildren(json, from, keyName, deep)
    decreases index - from
  {
    if from < index {
      ArrayChildrenInclude(json, from + 1, index, keyName, deep);
    }
  }

  lemma {:induction false} ObjectChildrenInclude(json: Json, from: nat, index: nat, keyName: seq<string>, deep: nat)
    requires json.Obj? && from <= index < |json.fields|
    ensures forall e :: e in ProcessValue(json.fields[index].1, keyName, json.fields[index].0, ValueObjectElement,
                                          deep + 1, index == |json.fields| - 1)
                        ==> e in ObjectChildren(json, from, keyName, deep)
    decreases index - from
  {
    if from < index {
      ObjectChildrenInclude(json, from + 1, index, keyName, deep);
    }
  }

  /** A chain that reaches a node below a scalar does not exist. */
  lemma NothingBelowScalar(j: Json, chain: seq<string>)
    requires !(j.Arr? || j.Obj?) && chain != []
    ensures Locate(Def(j), chain) == Undefined
  {
    LocateUndefined(chain[1..]);
  }

  lemma {:induction false} ProcessObjectComplete(json: Json, keyName: seq<string>, deep: nat, isLastIndex: bool,
                                                 rest: seq<string>)
    requires json.Arr? || json.Obj?
    requires Locate(Def(json), rest).Def?
    ensures exists e :: e in ProcessObject(json, keyName, deep, isLastIndex) && e.keyName == keyName + rest
    decreases |rest|
  {
    var entries := ProcessObject(json, keyName, deep, isLastIndex);
    if rest == [] {
      assert entries[0] in entries && entries[0].keyName == keyName + rest;
    } else {
      var key := rest[0];
      var next := Lookup(Def(json), key);
      if next == Undefined {
        LocateUndefined(rest[1..]);
        assert false;
      }
      var child := next.json;
      var chain := keyName + [key];
      assert chain + rest[1..] == keyName + rest;
      var element, childDeep, isLast;
      if json.Arr? {
        var index := ParseDigits(key);
        IndexKeyRoundTrip(key);
        element, childDeep, isLast := ValueArrayElement, deep, index == |json.items| - 1;
        ArrayChildrenInclude(json, 0, index, keyName, deep);
        assert entries == [entries[0]] + ArrayChildren(json, 0, keyName, deep);
      } else {
        var index :| 0 <= index < |json.fields| && json.fields[index] == (key, child);
        element, childDeep, isLast := ValueObjectElement, deep + 1, index == |json.fields| - 1;
        ObjectChildrenInclude(json, 0, index, keyName, deep);
        assert entries == [entries[0]] + ObjectChildren(json, 0, keyName, deep);
      }
      var childEntries := ProcessValue(child, keyName, key, element, childDeep, isLast);
      assert forall e :: e in childEntries ==> e in entries;
      if child.Arr? || child.Obj? {
        ProcessObjectComplete(child, chain, childDeep, isLast, rest[1..]);
      } else {
        if rest[1..] != [] {
          NothingBelowScalar(child, rest[1..]);
          assert false;
        }
        assert childEntries[0] in childEntries && childEntries[0].keyName == keyName + rest;
      }
    }
  }

  /** Nothing is skipped: every node of a container document, the root included, gets an entry. */
  lemma JsonParserComplete(tree: Json, chain: seq<string>)
    requires tree.Arr? || tree.Obj?
    requires Locate(Def(tree), chain).Def?
    ensures exists e :: e in JsonParser(tree) && e.keyName == chain
  {
    ProcessObjectComplete(tree, [], 0, true, chain);
    assert [] + chain == chain;
  }

  // Order and uniqueness: the walk is a pre-order listing of the tree,
  // children in document order, every node exactly once.

  /** Every visit below a child carries that child's chain as a prefix. */
  lemma {:induction false} ProcessValueExtends(value: Json, parentKey: seq<string>, key: string, element: Render,
                                               deep: nat, isLastIndex: bool)
    ensures forall e :: e in ProcessValue(value, parentKey, key, element, deep, isLastIndex) ==>
      parentKey + [key] <= e.keyName
    decreases value, 2, 0
  {
    if value.Arr? || value.Obj? {
      ProcessObjectExtends(value, parentKey + [key], deep, isLastIndex);
    }
  }

  /**
    A container's visits start with its wrapper at its own chain; every
    later visit lies strictly below it.
   */
  lemma {:induction false} ProcessObjectExtends(json: Json, keyName: seq<string>, deep: nat, isLastIndex: bool)
    ensures forall e :: e in ProcessObject(json, keyName, deep, isLastIndex) ==> keyName <= e.keyName
    ensures json.Arr? || json.Obj? ==>
      && |ProcessObject(json, keyName, deep, isLastIndex)| > 0
      && ProcessObject(json, keyName, deep, isLastIndex)[0] ==
           Entry(if json.Arr? then ArrayWrapper else ObjectWrapper, keyName, json, isLastIndex, deep)
      && forall p :: 0 < p < |ProcessObject(json, keyName, deep, isLastIndex)| ==>
           keyName < ProcessObject(json, keyName, deep, isLastIndex)[p].keyName
    decreases json, 1, 0
  {
    var es := ProcessObject(json, keyName, deep, isLastIndex);
    match json {
      case Arr(_) =>
        ArrayChildrenExtends(json, 0, keyName, deep);
        assert es == [es[0]] + ArrayChildren(json, 0, keyName, deep);
        assert forall p :: 0 < p < |es| ==> es[p] in ArrayChildren(json, 0, keyName, deep);
      case Obj(_) =>
        ObjectChildrenExtends(json, 0, keyName, deep);
        assert es == [es[0]] + ObjectChildren(json, 0, keyName, deep);
        assert forall p :: 0 < p < |es| ==> es[p] in ObjectChildren(json, 0, keyName, deep);
      case _ =>
    }
  }

  /** A visit among the array children from `index` on lies below the child at some position `index` or later. */
  lemma {:induction false} ArrayChildrenExtends(json: Json, index: nat, keyName: seq<string>, deep: nat)
    requires json.Arr?
    ensures forall e :: e in ArrayChildren(json, index, keyName, deep) ==>
      && |keyName| < |e.keyName| && keyName <= e.keyName
      && IsIndexKey(e.keyName[|keyName|])
      && index <= ParseDigits(e.keyName[|keyName|]) < |json.items|
    decreases json, 0, |json.items| - index
  {
    if index < |json.items| {
      var key := NatToString(index);
      NatToStringIsIndexKey(index);
      ProcessValueExtends(json.items[index], keyName, key, ValueArrayElement, deep, index == |json.items| - 1);
      ArrayChildrenExtends(json, index + 1, keyName, deep);
      forall e | e in ProcessValue(json.items[index], keyName, key, ValueArrayElement, deep, index == |json.items| - 1)
        ensures e.keyName[|keyName|] == key
      {
        assert (keyName + [key])[|keyName|] == key;
      }
    }
  }

  /** A visit among the mapping children from `index` on lies below the member at some position `index` or later. */
  lemma {:induction false} ObjectChildrenExtends(json: Json, index: nat, keyName: seq<string>, deep: nat)
    requires json.Obj?
    ensures forall e :: e in ObjectChildren(json, index, keyName, deep) ==>
      && |keyName| < |e.keyName| && keyName <= e.keyName
      && exists j :: index <= j < |json.fields| && e.keyName[|keyName|] == json.fields[j].0
    decreases json, 0, |json.fields| - index
  {
    var fields := json.fields;
    if index < |fields| {
      assert fields[index] in fields;
      var key := fields[index].0;
      ProcessValueExtends(fields[index].1, keyName, key, ValueObjectElement, deep + 1, index == |fields| - 1);
      ObjectChildrenExtends(json, index + 1, keyName, deep);
      forall e | e in ProcessValue(fields[index].1, keyName, key, ValueObjectElement, deep + 1, index == |fields| - 1)
        ensures e.keyName[|keyName|] == fields[index].0
      {
        assert (keyName + [key])[|keyName|] == key;
      }
    }
  }

  /** No two visits in the list share a chain. */
  predicate DistinctChains(es: seq<Entry>) {
    forall p, q :: 0 <= p < q < |es| ==> es[p].keyName != es[q].keyName
  }

  lemma DistinctConcat(xs: seq<Entry>, ys: seq<Entry>)
    requires DistinctChains(xs) && DistinctChains(ys)
    requires forall a, b :: a in xs && b in ys ==> a.keyName != b.keyName
    ensures DistinctChains(xs + ys)
  {
    var zs := xs + ys;
    forall p, q | 0 <= p < q < |zs| ensures zs[p].keyName != zs[q].keyName {
      if q < |xs| {
        assert zs[p] == xs[p] && zs[q] == xs[q];
      } else if p >= |xs| {
        assert zs[p] == ys[p - |xs|] && zs[q] == ys[q - |xs|];
      } else {
        assert zs[p] in xs && zs[q] in ys;
      }
    }
  }

  lemma {:induction false} ProcessValueOnce(value: Json, parentKey: seq<string>, key: string, element: Render,
                                            deep: nat, isLastIndex: bool)
    requires WellFormed(value)
    ensures DistinctChains(ProcessValue(value, parentKey, key, element, deep, isLastIndex))
    decreases value, 2, 0
  {
    if value.Arr? || value.Obj? {
      ProcessObjectOnce(value, parentKey + [key], deep, isLastIndex);
    }
  }

  lemma {:induction false} ProcessObjectOnce(json: Json, keyName: seq<string>, deep: nat, isLastIndex: bool)
    requires WellFormed(json)
    ensures DistinctChains(ProcessObject(json, keyName, deep, isLastIndex))
    decreases json, 1, 0
  {
    var es := ProcessObject(json, keyName, deep, isLastIndex);
    if json.Arr? || json.Obj? {
      var children := if json.Arr? then ArrayChildren(json, 0, keyName, deep) else ObjectChildren(json, 0, keyName, deep);
      if json.Arr? {
        ArrayChildrenOnce(json, 0, keyName, deep);
        ArrayChildrenExtends(json, 0, keyName, deep);
      } else {
        ObjectChildrenOnce(json, 0, keyName, deep);
        ObjectChildrenExtends(json, 0, keyName, deep);
      }
      assert es == [es[0]] + children;
      DistinctConcat([es[0]], children);
    }
  }

  lemma {:induction false} ArrayChildrenOnce(json: Json, index: nat, keyName: seq<string>, deep: nat)
    requires json.Arr? && WellFormed(json)
    ensures DistinctChains(ArrayChildren(json, index, keyName, deep))
    decreases json, 0, |json.items| - index
  {
    var items := json.items;
    if index < |items| {
      var key := NatToString(index);
      var isLast := index == |items| - 1;
      var head := ProcessValue(items[index], keyName, key, ValueArrayElement, deep, isLast);
      var tail := ArrayChildren(json, index + 1, keyName, deep);
      ProcessValueOnce(items[index], keyName, key, ValueArrayElement, deep, isLast);
      ArrayChildrenOnce(json, index + 1, keyName, deep);
      ProcessValueExtends(items[index], keyName, key, ValueArrayElement, deep, isLast);
      ArrayChildrenExtends(json, index + 1, keyName, deep);
      ParseNatToString(index);
      forall a, b | a in head && b in tail ensures a.keyName != b.keyName {
        assert a.keyName[|keyName|] == key by {
          assert (keyName + [key])[|keyName|] == key;
        }
      }
      DistinctConcat(head, tail);
    }
  }

  lemma {:induction false} ObjectChildrenOnce(json: Json, index: nat, keyName: seq<string>, deep: nat)
    requires json.Obj? && WellFormed(json)
    ensures DistinctChains(ObjectChildren(json, index, keyName, deep))
    decreases json, 0, |json.fields| - index
  {
    var fields := json.fields;
    if index < |fields| {
      assert fields[index] in fields;
      var key := fields[index].0;
      var isLast := index == |fields| - 1;
      var head := ProcessValue(fields[index].1, keyName, key, ValueObjectElement, deep + 1, isLast);
      var tail := ObjectChildren(json, index + 1, keyName, deep);
      ProcessValueOnce(fields[index].1, keyName, key, ValueObjectElement, deep + 1, isLast);
      ObjectChildrenOnce(json, index + 1, keyName, deep);
      ProcessValueExtends(fields[index].1, keyName, key, ValueObjectElement, deep + 1, isLast);
      ObjectChildrenExtends(json, index + 1, keyName, deep);
      forall a, b | a in head && b in tail ensures a.keyName != b.keyName {
        assert a.keyName[|keyName|] == key by {
          assert (keyName + [key])[|keyName|] == key;
        }
        var j :| index + 1 <= j < |fields| && b.keyName[|keyName|] == fields[j].0;
      }
      DistinctConcat(head, tail);
    }
  }

  /** Each node of the document is visited once: no two visits carry the same chain. */
  lemma JsonParserVisitsOnce(tree: Json)
    requires WellFormed(tree)
    ensures forall p, q :: 0 <= p < q < |JsonParser(tree)| ==> JsonParser(tree)[p].keyName != JsonParser(tree)[q].keyName
  {
    ProcessObjectOnce(tree, [], 0, true);
  }

  /**
    Array children come in index order: every visit below element `i`
    comes before every visit below a later element `j`.
   */
  lemma {:induction false} ArrayChildrenOrdered(json: Json, from: nat, keyName: seq<string>, deep: nat,
                                                i: nat, j: nat, p: nat, q: nat)
    requires json.Arr? && from <= i < j < |json.items|
    requires p < |ArrayChildren(json, from, keyName, deep)| && q < |ArrayChildren(json, from, keyName, deep)|
    requires keyName + [NatToString(i)] <= ArrayChildren(json, from, keyName, deep)[p].keyName
    requires keyName + [NatToString(j)] <= ArrayChildren(json, from, keyName, deep)[q].keyName
    ensures p < q
    decreases j - from
  {
    var items := json.items;
    var es := ArrayChildren(json, from, keyName, deep);
    var head := ProcessValue(items[from], keyName, NatToString(from), ValueArrayElement, deep, from == |items| - 1);
    var tail := ArrayChildren(json, from + 1, keyName, deep);
    assert es == head + tail;
    ProcessValueExtends(items[from], keyName, NatToString(from), ValueArrayElement, deep, from == |items| - 1);
    ArrayChildrenExtends(json, from + 1, keyName, deep);
    NatToStringIsIndexKey(i);
    NatToStringIsIndexKey(j);
    NatToStringIsIndexKey(from);
    assert es[q].keyName[|keyName|] == NatToString(j) by {
      assert (keyName + [NatToString(j)])[|keyName|] == NatToString(j);
    }
    assert es[p].keyName[|keyName|] == NatToString(i) by {
      assert (keyName + [NatToString(i)])[|keyName|] == NatToString(i);
    }
    if q < |head| {
      assert false;
    }
    if from < i {
      if p < |head| {
        assert false;
      }
      assert tail[p - |head|] == es[p] && tail[q - |head|] == es[q];
      ArrayChildrenOrdered(json, from + 1, keyName, deep, i, j, p - |head|, q - |head|);
    } else {
      if p >= |head| {
        assert false;
      }
    }
  }

  /**
    Mapping children come in the order the mapping stores its members:
    every visit below member `i` comes before every visit below a later
    member `j`.
   */
  lemma {:induction false} ObjectChildrenOrdered(json: Json, from: nat, keyName: seq<string>, deep: nat,
                                                 i: nat, j: nat, p: nat, q: nat)
    requires json.Obj? && WellFormed(json) && from <= i < j < |json.fields|
    requires p < |ObjectChildren(json, from, keyName, deep)| && q < |ObjectChildren(json, from, keyName, deep)|
    requires keyName + [json.fields[i].0] <= ObjectChildren(json, from, keyName, deep)[p].keyName
    requires keyName + [json.fields[j].0] <= ObjectChildren(json, from, keyName, deep)[q].keyName
    ensures p < q
    decreases j - from
  {
    var fields := json.fields;
    var es := ObjectChildren(json, from, keyName, deep);
    assert fields[from] in fields;
    var key := fields[from].0;
    var head := ProcessValue(fields[from].1, keyName, key, ValueObjectElement, deep + 1, from == |fields| - 1);
    var tail := ObjectChildren(json, from + 1, keyName, deep);
    assert es == head + tail;
    ProcessValueExtends(fields[from].1, keyName, key, ValueObjectElement, deep + 1, from == |fields| - 1);
    ObjectChildrenExtends(json, from + 1, keyName, deep);
    assert es[q].keyName[|keyName|] == fields[j].0 by {
      assert (keyName + [fields[j].0])[|keyName|] == fields[j].0;
    }
    assert es[p].keyName[|keyName|] == fields[i].0 by {
      assert (keyName + [fields[i].0])[|keyName|] == fields[i].0;
    }
    if q < |head| {
      assert false;
    }
    if from < i {
      if p < |head| {
        assert false;
      }
      assert tail[p - |head|] == es[p] && tail[q - |head|] == es[q];
      ObjectChildrenOrdered(json, from + 1, keyName, deep, i, j, p - |head|, q - |head|);
    } else {
      if p >= |head| {
        assert false;
      }
    }
  }

  /**
    The round trip between the walk and the resolver: the path offered
    for any entry, resolved against the same document, displays exactly
    that entry's value, as long as no key is empty or contains `.`, `[`
    or `]`.
   */
  lemma EnumeratedPathsResolve(tree: Json)
    requires WellFormed(tree) && PlainKeys(tree)
    ensures forall e :: e in JsonParser(tree) ==> Resolve(BuildPath(e.keyName), tree) == Format(Def(e.value))
  {
    JsonParserSound(tree);
    forall e | e in JsonParser(tree)
      ensures Resolve(BuildPath(e.keyName), tree) == Format(Def(e.value))
    {
      ResolveBuiltPath(tree, e.keyName);
    }
  }
}
