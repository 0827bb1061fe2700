/**
  The document the application shows (`test` in src/App.tsx) and what
  the resolver displays for a few paths typed against it.
 */
module Example {
  import opened Numerals
  import opened Json
  import opened Tokens
  import opened Paths

  const Field: Json := Obj([
    ("id", Str("4c212130")),
    ("prop", Str("iban")),
    ("value", Str("DE81200505501265402568")),
    ("hasError", Bool(false))
  ])

  const Test: Json := Obj([
    ("date", Str("2021-10-27T07:49:14.896Z")),
    ("hasError", Bool(false)),
    ("fields", Arr([Field, Field]))
  ])

  /** The example paths, spelled out as the concatenations the lemmas below work with. */
  lemma Spellings()
    ensures "res" + ("." + ("fields" + ("[" + ("1" + ("]" + ("." + "prop")))))) == "res.fields[1].prop"
    ensures "fields" + ("[" + ("1" + ("]" + ("." + "prop")))) == "fields[1].prop"
    ensures RootKey + "." + "hasError" == "res.hasError"
    ensures RootKey + "." + "fields" == "res.fields"
    ensures "res" + ("." + ("a" + ("." + "b"))) == "res.a.b"
  {
  }

  /** An index in brackets followed by a key: `b[c].d` splits into three keys. */
  lemma TokenizeIndexThenKey(b: string, c: string, d: string)
    requires IsToken(b) && IsToken(c) && IsToken(d)
    ensures Tokenize(b + ("[" + (c + ("]" + ("." + d))))) == [b, c, d]
  {
    var p3 := "." + d;
    var p2 := "]" + p3;
    var p1 := "[" + (c + p2);
    assert Tokenize(p3) == [d] by {
      TokenizeTokenThen(d, "");
      assert d + "" == d;
      TokenizeSkipSep(p3);
      assert p3[1..] == d;
    }
    assert Tokenize(p2) == [d] by {
      TokenizeSkipSep(p2);
      assert p2[1..] == p3;
    }
    assert Tokenize(p1) == [c, d] by {
      TokenizeTokenThen(c, p2);
      TokenizeSkipSep(p1);
      assert p1[1..] == c + p2;
    }
    TokenizeTokenThen(b, p1);
  }

  /** A path in the usual `a.b[c].d` notation splits into its four keys. */
  lemma TokenizeMemberIndexPath(a: string, b: string, c: string, d: string)
    requires IsToken(a) && IsToken(b) && IsToken(c) && IsToken(d)
    ensures Tokenize(a + ("." + (b + ("[" + (c + ("]" + ("." + d))))))) == [a, b, c, d]
  {
    var p0 := "." + (b + ("[" + (c + ("]" + ("." + d)))));
    assert Tokenize(p0) == [b, c, d] by {
      TokenizeIndexThenKey(b, c, d);
      TokenizeSkipSep(p0);
      assert p0[1..] == b + ("[" + (c + ("]" + ("." + d))));
    }
    TokenizeTokenThen(a, p0);
  }

  /** Walking one key from a mapping that binds it. */
  lemma ResolveMember(tree: Json, key: string, v: Json)
    requires IsToken(key) && Lookup(Def(tree), key) == Def(v)
    ensures Resolve(RootKey + "." + key, tree) == Format(Def(v))
  {
    BuildPathTokenizes([key]);
    assert BuildPath([key]) == RootKey + "." + key;
    ResolveAlong(RootKey + "." + key, tree, [key]);
  }

  lemma LookupFields()
    ensures Lookup(Def(Test), "fields") == Def(Arr([Field, Field]))
  {
    LookupFieldAt(Test.fields, 2);
  }

  lemma LookupHasError()
    ensures Lookup(Def(Test), "hasError") == Def(Bool(false))
  {
    LookupFieldAt(Test.fields, 1);
  }

  lemma LookupSecondField()
    ensures Lookup(Def(Arr([Field, Field])), "1") == Def(Field)
  {
    assert IsIndexKey("1") && ParseDigits("1") == 1;
  }

  lemma LookupProp()
    ensures Lookup(Def(Field), "prop") == Def(Str("iban"))
  {
    LookupFieldAt(Field.fields, 1);
  }

  /** Three truthy steps: the walk takes every key. */
  lemma WalkThree(keys: seq<string>, v: Value)
    requires |keys| == 3 && Truthy(v)
    requires Truthy(Lookup(v, keys[0])) && Truthy(Lookup(Lookup(v, keys[0]), keys[1]))
    ensures Walk(keys, v) == Lookup(Lookup(Lookup(v, keys[0]), keys[1]), keys[2])
  {
    var u1 := Lookup(v, keys[0]);
    var u2 := Lookup(u1, keys[1]);
    assert keys[1..][1..][1..] == [];
    assert Walk(keys[1..][1..], u2) == Lookup(u2, keys[2]);
    assert Walk(keys[1..], u1) == Walk(keys[1..][1..], u2);
  }

  lemma TokenizeFieldProp()
    ensures Tokenize("res.fields[1].prop") == [RootKey, "fields", "1", "prop"]
  {
    TokenizeMemberIndexPath("res", "fields", "1", "prop");
    Spellings();
  }

  lemma FormatFieldProp()
    ensures Format(Walk(["fields", "1", "prop"], Def(Test))) == "\"iban\""
  {
    var chain := ["fields", "1", "prop"];
    LookupFields();
    LookupSecondField();
    LookupProp();
    WalkThree(chain, Def(Test));
    FormatQuoted(Walk(chain, Def(Test)), "iban");
  }

  lemma ResolveFieldPropAlong()
    ensures Resolve("res.fields[1].prop", Test) == Format(Walk(["fields", "1", "prop"], Def(Test)))
  {
    var chain := ["fields", "1", "prop"];
    TokenizeFieldProp();
    assert [RootKey] + chain == [RootKey, "fields", "1", "prop"];
    ResolveAlong("res.fields[1].prop", Test, chain);
  }

  /** The path of the second field's `prop`, in bracket notation, displays the quoted string. */
  lemma ResolveFieldProp()
    ensures Resolve("res.fields[1].prop", Test) == "\"iban\""
  {
    ResolveFieldPropAlong();
    FormatFieldProp();
  }

  lemma TokenizeNoRoot()
    ensures Tokenize("fields[1].prop") == ["fields", "1", "prop"]
  {
    TokenizeIndexThenKey("fields", "1", "prop");
    Spellings();
  }

  /** Without the leading `res` the same keys find nothing: the display is `undefined`. */
  lemma ResolveWithoutRoot()
    ensures Resolve("fields[1].prop", Test) == "undefined"
  {
    TokenizeNoRoot();
    ResolveFirstToken("fields[1].prop", Test);
  }

  /** `false` is falsy, but no token is left after it anyway: it is shown as `false`. */
  lemma ResolveHasError()
    ensures Resolve("res.hasError", Test) == "false"
  {
    LookupHasError();
    ResolveMember(Test, "hasError", Bool(false));
    Spellings();
  }

  /** A path that ends on an array displays nothing. */
  lemma ResolveFieldsIsComposite()
    ensures Resolve("res.fields", Test) == ""
  {
    LookupFields();
    ResolveMember(Test, "fields", Arr([Field, Field]));
    Spellings();
  }

  /** A dotted path of three tokens splits into the three. */
  lemma TokenizeDotted(a: string, b: string, c: string)
    requires IsToken(a) && IsToken(b) && IsToken(c)
    ensures Tokenize(a + ("." + (b + ("." + c)))) == [a, b, c]
  {
    var p1 := "." + c;
    var p0 := "." + (b + p1);
    assert Tokenize(p1) == [c] by {
      TokenizeTokenThen(c, "");
      assert c + "" == c;
      TokenizeSkipSep(p1);
      assert p1[1..] == c;
    }
    assert Tokenize(p0) == [b, c] by {
      TokenizeTokenThen(b, p1);
      TokenizeSkipSep(p0);
      assert p0[1..] == b + p1;
    }
    TokenizeTokenThen(a, p0);
  }

  lemma TokenizeAB()
    ensures Tokenize("res.a.b") == [RootKey, "a", "b"]
  {
    TokenizeDotted("res", "a", "b");
    Spellings();
  }

  lemma WalkToZero()
    ensures Walk(["a"], Def(Obj([("a", Num(0))]))) == Def(Num(0))
    ensures Format(Def(Num(0))) == "0"
  {
    assert ["a"][1..] == [];
  }

  /**
    The walk stops on the falsy `0` and ignores the key after it: in
    `{a: 0}` the path `res.a.b` displays `0`, not `undefined`.
   */
  lemma ResolveStopsAtZero()
    ensures Resolve("res.a.b", Obj([("a", Num(0))])) == "0"
  {
    TokenizeAB();
    WalkToZero();
    assert [RootKey, "a", "b"] == [RootKey] + ["a"] + ["b"];
    ResolveStopsAtFalsy("res.a.b", Obj([("a", Num(0))]), ["a"], ["b"]);
  }

  /** The empty path displays nothing. */
  lemma ResolveEmptyPath()
    ensures Resolve("", Test) == ""
  {
    ResolveNoTokens("", Test);
  }
}
