/**
  The tokenizer of the path resolver: `index.match(/([^[\].]+)/g)`, the
  maximal runs of characters other than `.`, `[` and `]`, left to right.
  A string with no such run gives no tokens (the match is `null`, which
  the resolver treats like an empty list).
 */
module Tokens {

  predicate IsSep(c: char) {
    c == '.' || c == '[' || c == ']'
  }

  /** What the pattern can match: a non-empty run free of separators. */
  predicate IsToken(t: string) {
    |t| > 0 && forall i :: 0 <= i < |t| ==> !IsSep(t[i])
  }

  /** The length of the longest separator-free prefix of `s`. */
  function RunLength(s: string): (n: nat)
    ensures n <= |s|
    ensures forall i :: 0 <= i < n ==> !IsSep(s[i])
    ensures n < |s| ==> IsSep(s[n])
  {
    if s == [] || IsSep(s[0]) then 0 else 1 + RunLength(s[1..])
  }

  /** The tokens of `s`, in order: each separator is skipped, each run is taken whole. */
  function Tokenize(s: string): seq<string>
    decreases |s|
  {
    if s == [] then []
    else if IsSep(s[0]) then Tokenize(s[1..])
    else
      var n := RunLength(s);
      [s[..n]] + Tokenize(s[n..])
  }

  /** Every token is a non-empty run free of separators. */
  lemma {:induction false} TokensAreRuns(s: string)
    ensures forall k :: 0 <= k < |Tokenize(s)| ==> IsToken(Tokenize(s)[k])
    decreases |s|
  {
    if s != [] {
      if IsSep(s[0]) {
        TokensAreRuns(s[1..]);
      } else {
        var n := RunLength(s);
        TokensAreRuns(s[n..]);
        var ts := Tokenize(s);
        assert ts == [s[..n]] + Tokenize(s[n..]);
        assert forall k :: 1 <= k < |ts| ==> ts[k] == Tokenize(s[n..])[k - 1];
      }
    }
  }

  /** There are no tokens exactly when the input holds nothing but separators. */
  lemma {:induction false} NoTokensIffOnlySeps(s: string)
    ensures Tokenize(s) == [] <==> forall i :: 0 <= i < |s| ==> IsSep(s[i])
    decreases |s|
  {
    if s != [] && IsSep(s[0]) {
      NoTokensIffOnlySeps(s[1..]);
      assert forall i :: 1 <= i < |s| ==> s[i] == s[1..][i - 1];
    }
  }

  /** `s` with every separator deleted. */
  function StripSeps(s: string): string {
    if s == [] then [] else (if IsSep(s[0]) then [] else [s[0]]) + StripSeps(s[1..])
  }

  function Concat(ts: seq<string>): string {
    if ts == [] then [] else ts[0] + Concat(ts[1..])
  }

  lemma {:induction false} StripSepsRun(s: string, n: nat)
    requires n <= |s| && forall i :: 0 <= i < n ==> !IsSep(s[i])
    ensures StripSeps(s) == s[..n] + StripSeps(s[n..])
  {
    if n > 0 {
      StripSepsRun(s[1..], n - 1);
      assert s[1..][n - 1..] == s[n..];
      assert s[..n] == [s[0]] + s[1..][..n - 1];
    }
  }

  /** The tokens, put back together, are the input without its separators: nothing else is lost. */
  lemma {:induction false} TokensCoverInput(s: string)
    ensures Concat(Tokenize(s)) == StripSeps(s)
    decreases |s|
  {
    if s != [] {
      if IsSep(s[0]) {
        TokensCoverInput(s[1..]);
      } else {
        var n := RunLength(s);
        TokensCoverInput(s[n..]);
        StripSepsRun(s, n);
        var ts := Tokenize(s);
        assert ts == [s[..n]] + Tokenize(s[n..]);
        assert ts[1..] == Tokenize(s[n..]);
      }
    }
  }

  /**
    A reference reading of the pattern: cut `s` at every separator,
    keeping the (possibly empty) pieces in between.
   */
  function Pieces(s: string): (ps: seq<string>)
    ensures |ps| >= 1
  {
    if s == [] then [""]
    else
      var rest := Pieces(s[1..]);
      if IsSep(s[0]) then [""] + rest else [[s[0]] + rest[0]] + rest[1..]
  }

  function NonEmpty(ps: seq<string>): seq<string> {
    if ps == [] then [] else (if ps[0] == "" then [] else [ps[0]]) + NonEmpty(ps[1..])
  }

  lemma {:induction false} PiecesOfRun(s: string, n: nat)
    requires n <= |s| && forall i :: 0 <= i < n ==> !IsSep(s[i])
    ensures Pieces(s) == [s[..n] + Pieces(s[n..])[0]] + Pieces(s[n..])[1..]
  {
    if n > 0 {
      PiecesOfRun(s[1..], n - 1);
      assert s[1..][n - 1..] == s[n..];
      var r, q := Pieces(s[1..]), Pieces(s[n..]);
      assert !IsSep(s[0]);
      assert Pieces(s) == [[s[0]] + r[0]] + r[1..];
      assert r[0] == s[1..][..n - 1] + q[0] && r[1..] == q[1..];
      assert [s[0]] + (s[1..][..n - 1] + q[0]) == s[..n] + q[0];
    } else {
      assert s[..n] == "" && s[n..] == s;
      var p := Pieces(s);
      assert "" + p[0] == p[0] && [p[0]] + p[1..] == p;
    }
  }

  lemma PiecesAroundSep(s: string, n: nat)
    requires n < |s| && IsSep(s[n]) && forall i :: 0 <= i < n ==> !IsSep(s[i])
    ensures Pieces(s) == [s[..n]] + Pieces(s[n + 1..])
  {
    PiecesOfRun(s, n);
    var t := s[n..];
    assert t[0] == s[n] && t[1..] == s[n + 1..];
    assert Pieces(t) == [""] + Pieces(s[n + 1..]);
    assert s[..n] + "" == s[..n];
  }

  lemma TokenizeAroundSep(s: string)
    requires s != [] && !IsSep(s[0]) && RunLength(s) < |s|
    ensures Tokenize(s) == [s[..RunLength(s)]] + Tokenize(s[RunLength(s) + 1..])
  {
    var n := RunLength(s);
    var t := s[n..];
    assert t[0] == s[n] && t[1..] == s[n + 1..];
  }

  lemma NonEmptyCons(p: string, ps: seq<string>)
    ensures NonEmpty([p] + ps) == (if p == "" then [] else [p]) + NonEmpty(ps)
  {
    assert ([p] + ps)[1..] == ps;
  }

  /**
    The tokens are exactly the non-empty pieces between separators: the
    runs are maximal, so no two tokens come from one piece and no piece
    is split.
   */
  lemma {:induction false} TokensAreNonEmptyPieces(s: string)
    ensures Tokenize(s) == NonEmpty(Pieces(s))
    decreases |s|
  {
    if s != [] {
      if IsSep(s[0]) {
        TokensAreNonEmptyPieces(s[1..]);
        NonEmptyCons("", Pieces(s[1..]));
      } else {
        var n := RunLength(s);
        if n == |s| {
          PiecesOfRun(s, n);
          assert s[..n] == s;
          assert s[n..] == [];
          assert Pieces(s[n..]) == [""];
          assert s[..n] + "" == s;
          assert Pieces(s) == [s];
          NonEmptyCons(s, []);
        } else {
          PiecesAroundSep(s, n);
          TokenizeAroundSep(s);
          TokensAreNonEmptyPieces(s[n + 1..]);
          NonEmptyCons(s[..n], Pieces(s[n + 1..]));
        }
      }
    }
  }

  /** A leading separator produces no token. */
  lemma TokenizeSkipSep(s: string)
    requires s != [] && IsSep(s[0])
    ensures Tokenize(s) == Tokenize(s[1..])
  {
  }

  /** A token followed by a separator (or by nothing) is read off as one token. */
  lemma TokenizeTokenThen(k: string, rest: string)
    requires IsToken(k)
    requires rest == [] || IsSep(rest[0])
    ensures Tokenize(k + rest) == [k] + Tokenize(rest)
  {
    var s := k + rest;
    var n := RunLength(s);
    assert forall i :: 0 <= i < |k| ==> s[i] == k[i];
    assert rest != [] ==> s[|k|] == rest[0];
    assert n == |k|;
    assert s[..n] == k && s[n..] == rest;
  }
}
