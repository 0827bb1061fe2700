/**
  The path engine: the builder that turns a key chain into a path
  (`getIndexFromKey` applied to `keyName.join(".")`) and the resolver
  `getIndexValueFromObject`, which tokenizes a path, walks it from the
  wrapper `{res: tree}` and formats what it reaches.
 */
module Paths {
  import opened Numerals
  import opened Json
  import opened Tokens

  /** The name under which the resolver wraps the tree, and so the first token of every built path. */
  const RootKey: string := "res"

  /** `getIndexFromKey`: prefixes the joined chain with the wrapper's key. */
  function IndexFromKey(key: string): string {
    RootKey + "." + key
  }

  /** `keyName.join(".")`. */
  function JoinKeys(chain: seq<string>): string {
    if chain == [] then ""
    else if |chain| == 1 then chain[0]
    else chain[0] + "." + JoinKeys(chain[1..])
  }

  /** The path a leaf offers for copying: `getIndexFromKey(keyName.join("."))`. */
  function BuildPath(chain: seq<string>): string {
    IndexFromKey(JoinKeys(chain))
  }

  predicate AllTokens(chain: seq<string>) {
    forall k :: 0 <= k < |chain| ==> IsToken(chain[k])
  }

  lemma {:induction false} TokenizeJoinKeys(chain: seq<string>)
    requires AllTokens(chain)
    ensures Tokenize(JoinKeys(chain)) == chain
    decreases |chain|
  {
    if |chain| == 1 {
      TokenizeTokenThen(chain[0], "");
      assert chain[0] + "" == chain[0];
    } else if |chain| > 1 {
      var rest := JoinKeys(chain[1..]);
      assert JoinKeys(chain) == chain[0] + ("." + rest);
      TokenizeJoinKeys(chain[1..]);
      TokenizeSkipSep("." + rest);
      assert ("." + rest)[1..] == rest;
      TokenizeTokenThen(chain[0], "." + rest);
      assert chain == [chain[0]] + chain[1..];
    }
  }

  /**
    Builder and tokenizer round-trip: when no key is empty or holds `.`,
    `[` or `]`, the tokens of a built path are the wrapper key followed by
    the chain itself.
   */
  lemma BuildPathTokenizes(chain: seq<string>)
    requires AllTokens(chain)
    ensures Tokenize(BuildPath(chain)) == [RootKey] + chain
  {
    var joined := JoinKeys(chain);
    var rest := "." + joined;
    TokenizeJoinKeys(chain);
    assert rest[1..] == joined;
    TokenizeSkipSep(rest);
    RootKeyIsToken();
    TokenizeTokenThen(RootKey, rest);
    assert BuildPath(chain) == RootKey + rest;
  }

  lemma RootKeyIsToken()
    ensures IsToken(RootKey)
  {
  }

  /** The value the walk starts from: `{res: tree}`. */
  function RootWrapper(tree: Json): Value {
    Def(Obj([(RootKey, tree)]))
  }

  /**
    The walk of the resolver's loop, as a function: take the next token
    and look it up, until the tokens run out or the current value is
    falsy; whatever tokens are left then are ignored.
   */
  function Walk(keys: seq<string>, current: Value): Value
    decreases |keys|
  {
    if keys == [] || !Truthy(current) then current else Walk(keys[1..], Lookup(current, keys[0]))
  }

  /** What `getIndexValueFromObject(index, tree)` returns. */
  function Resolve(index: string, tree: Json): string {
    Format(Walk(Tokenize(index), RootWrapper(tree)))
  }

  /**
    `getIndexValueFromObject`: the token list is consumed from the front,
    one lookup per token, while tokens remain and the current value is
    truthy; then the current value is formatted.
   */
  method IndexValueFromObject(index: string, tree: Json) returns (display: string)
    ensures display == Resolve(index, tree)
  {
    var setOfKeys := Tokenize(index);
    var result := RootWrapper(tree);
    while |setOfKeys| > 0 && Truthy(result)
      invariant Walk(setOfKeys, result) == Walk(Tokenize(index), RootWrapper(tree))
      decreases |setOfKeys|
    {
      var currentKey := setOfKeys[0];
      setOfKeys := setOfKeys[1..];
      result := Lookup(result, currentKey);
    }
    display := Format(result);
  }

  /**
    Walking two token lists one after the other is walking their
    concatenation: once the walk stops on a falsy value it stays there,
    whatever tokens follow.
   */
  lemma {:induction false} WalkConcat(ks1: seq<string>, ks2: seq<string>, v: Value)
    ensures Walk(ks1 + ks2, v) == Walk(ks2, Walk(ks1, v))
    decreases |ks1|
  {
    if ks1 != [] && Truthy(v) {
      assert (ks1 + ks2)[0] == ks1[0] && (ks1 + ks2)[1..] == ks1[1..] + ks2;
      WalkConcat(ks1[1..], ks2, Lookup(v, ks1[0]));
    } else if ks1 == [] {
      assert ks1 + ks2 == ks2;
    }
  }

  /** A path with no tokens (empty, or separators only) displays as the empty string. */
  lemma ResolveNoTokens(index: string, tree: Json)
    requires forall i :: 0 <= i < |index| ==> IsSep(index[i])
    ensures Resolve(index, tree) == ""
  {
    NoTokensIffOnlySeps(index);
  }

  /**
    The first token decides everything: `res` continues from the root of
    the tree, and any other first token finds nothing in the wrapper and
    displays `undefined`.
   */
  lemma ResolveFirstToken(index: string, tree: Json)
    requires Tokenize(index) != []
    ensures Tokenize(index)[0] == RootKey ==>
      Resolve(index, tree) == Format(Walk(Tokenize(index)[1..], Def(tree)))
    ensures Tokenize(index)[0] != RootKey ==> Resolve(index, tree) == "undefined"
  {
    var ks := Tokenize(index);
    if ks[0] != RootKey {
      assert Lookup(RootWrapper(tree), ks[0]) == Undefined;
      assert Walk(ks[1..], Undefined) == Undefined;
      assert Walk(ks, RootWrapper(tree)) == Undefined;
    } else {
      assert Walk(ks, RootWrapper(tree)) == Walk(ks[1..], Def(tree));
    }
  }

  /** A path whose tokens are `res` and then `chain` displays what walking `chain` from the root gives. */
  lemma ResolveAlong(index: string, tree: Json, chain: seq<string>)
    requires Tokenize(index) == [RootKey] + chain
    ensures Resolve(index, tree) == Format(Walk(chain, Def(tree)))
  {
    ResolveFirstToken(index, tree);
    assert Tokenize(index)[1..] == chain;
  }

  /** The path `res` addresses the root of the tree itself. */
  lemma ResolveRoot(tree: Json)
    ensures Resolve(RootKey, tree) == Format(Def(tree))
  {
    RootKeyIsToken();
    TokenizeTokenThen(RootKey, "");
    assert RootKey + "" == RootKey;
    assert Tokenize(RootKey) == [RootKey];
    assert Walk([RootKey], RootWrapper(tree)) == Walk([], Def(tree));
  }

  /**
    Once the walk reaches a falsy value the rest of the path is ignored:
    a path that extends one ending on a falsy value displays that value.
   */
  lemma ResolveStopsAtFalsy(index: string, tree: Json, ks1: seq<string>, ks2: seq<string>)
    requires Tokenize(index) == [RootKey] + ks1 + ks2
    requires !Truthy(Walk(ks1, Def(tree)))
    ensures Resolve(index, tree) == Format(Walk(ks1, Def(tree)))
  {
    assert [RootKey] + ks1 + ks2 == [RootKey] + (ks1 + ks2);
    ResolveAlong(index, tree, ks1 + ks2);
    WalkConcat(ks1, ks2, Def(tree));
    var w := Walk(ks1, Def(tree));
    assert Walk(ks2, w) == w;
  }

  /**
    The node a key chain addresses in a value, looking each key up in turn
    with no early stop: `undefined` once a key is missing.
   */
  function Locate(v: Value, chain: seq<string>): Value
    decreases |chain|
  {
    if chain == [] then v else Locate(Lookup(v, chain[0]), chain[1..])
  }

  lemma {:induction false} LocateUndefined(chain: seq<string>)
    ensures Locate(Undefined, chain) == Undefined
    decreases |chain|
  {
    if chain != [] {
      LocateUndefined(chain[1..]);
    }
  }

  /** Extending a chain by one key is one more lookup from the node the chain reaches. */
  lemma {:induction false} LocateSnoc(v: Value, chain: seq<string>, key: string)
    ensures Locate(v, chain + [key]) == Lookup(Locate(v, chain), key)
    decreases |chain|
  {
    if chain == [] {
      assert [] + [key] == [key];
    } else {
      assert (chain + [key])[0] == chain[0] && (chain + [key])[1..] == chain[1..] + [key];
      LocateSnoc(Lookup(v, chain[0]), chain[1..], key);
    }
  }

  /**
    When a chain addresses an existing node, every node passed on the way
    is a container (so truthy), and the resolver's walk, early stop and
    all, arrives at that same node.
   */
  lemma {:induction false} WalkReachesLocated(chain: seq<string>, v: Value)
    requires Locate(v, chain).Def?
    ensures Walk(chain, v) == Locate(v, chain)
    decreases |chain|
  {
    if chain != [] {
      var next := Lookup(v, chain[0]);
      if next == Undefined {
        LocateUndefined(chain[1..]);
        assert false;
      }
      WalkReachesLocated(chain[1..], next);
    }
  }

  /** Every mapping key in the tree is non-empty and free of `.`, `[` and `]`. */
  predicate PlainKeys(j: Json) {
    match j
    case Arr(items) => forall i :: 0 <= i < |items| ==> PlainKeys(items[i])
    case Obj(fields) => forall i :: 0 <= i < |fields| ==> IsToken(fields[i].0) && PlainKeys(fields[i].1)
    case _ => true
  }

  predicate PlainValue(v: Value) {
    v.Def? ==> PlainKeys(v.json)
  }

  lemma IndexKeyIsToken(key: string)
    requires IsIndexKey(key)
    ensures IsToken(key)
  {
    forall i | 0 <= i < |key| ensures !IsSep(key[i]) {
      assert IsDigit(key[i]);
    }
  }

  /** In a tree with plain keys, every step of a chain that reaches a node is a token. */
  lemma {:induction false} LocatedChainIsPlain(v: Value, chain: seq<string>)
    requires PlainValue(v)
    requires Locate(v, chain).Def?
    ensures AllTokens(chain)
    decreases |chain|
  {
    if chain != [] {
      var key := chain[0];
      var next := Lookup(v, key);
      if next == Undefined {
        LocateUndefined(chain[1..]);
        assert false;
      }
      match v.json {
        case Arr(items) =>
          IndexKeyIsToken(key);
          assert PlainKeys(items[ParseDigits(key)]);
        case Obj(fields) =>
          var i :| 0 <= i < |fields| && fields[i] == (key, next.json);
          assert IsToken(fields[i].0) && PlainKeys(fields[i].1);
      }
      LocatedChainIsPlain(next, chain[1..]);
      assert chain == [key] + chain[1..];
    }
  }

  /**
    Resolving the built path of any chain that reaches a node displays
    that node, provided the tree's keys are plain.
   */
  lemma ResolveBuiltPath(tree: Json, chain: seq<string>)
    requires PlainKeys(tree)
    requires Locate(Def(tree), chain).Def?
    ensures Resolve(BuildPath(chain), tree) == Format(Locate(Def(tree), chain))
  {
    LocatedChainIsPlain(Def(tree), chain);
    BuildPathTokenizes(chain);
    WalkReachesLocated(chain, Def(tree));
    assert ([RootKey] + chain)[1..] == chain;
    assert Lookup(RootWrapper(tree), RootKey) == Def(tree);
  }

  /**
    A key holding a separator does not survive the round trip: in
    `{"a.b": v}` the path built for the key `a.b` is `res.a.b`, which
    looks for a key `a` that is not there and displays `undefined`,
    whatever `v` is.
   */
  lemma SeparatorInKeyBreaksRoundTrip(a: string, b: string, v: Json)
    requires IsToken(a) && IsToken(b)
    ensures Locate(Def(Obj([(a + "." + b, v)])), [a + "." + b]) == Def(v)
    ensures Resolve(BuildPath([a + "." + b]), Obj([(a + "." + b, v)])) == "undefined"
  {
    var key := a + "." + b;
    var tree := Obj([(key, v)]);
    var path := BuildPath([key]);
    assert path == BuildPath([a, b]) by {
      assert [a, b][1..] == [b];
      assert JoinKeys([a, b]) == key;
    }
    assert Tokenize(path) == [RootKey, a, b] by {
      BuildPathTokenizes([a, b]);
    }
    ResolveFirstToken(path, tree);
    assert Walk([a, b], Def(tree)) == Undefined by {
      assert |key| > |a|;
      assert Lookup(Def(tree), a) == Undefined;
    }
    assert Tokenize(path)[1..] == [a, b];
  }
}
