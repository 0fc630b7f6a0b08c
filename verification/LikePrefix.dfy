/**
 Literal prefix search through SQL LIKE: `escapeLike` (core/api/tasks.go) against
 the matching rules of SQLite's LIKE with ESCAPE '\'.
 */
module LikePrefix {

  type Text = seq<char>

  const ESCAPE := '\\'

  /** LIKE compares ASCII letters without case. */
  function Fold(c: char): char {
    if 'A' <= c <= 'Z' then c + ('a' - 'A') else c
  }

  /** x LIKE p ESCAPE '\'. */
  predicate Like(p: Text, x: Text)
    decreases |p|, |x|
  {
    if p == [] then x == []
    else if p[0] == '%' then Like(p[1..], x) || (x != [] && Like(p, x[1..]))
    else if p[0] == '_' then x != [] && Like(p[1..], x[1..])
    else if p[0] == ESCAPE then |p| > 1 && x != [] && Fold(p[1]) == Fold(x[0]) && Like(p[2..], x[1..])
    else x != [] && Fold(p[0]) == Fold(x[0]) && Like(p[1..], x[1..])
  }

  predicate Special(c: char) {
    c == ESCAPE || c == '%' || c == '_'
  }

  function EscapeLike(s: Text): Text {
    if s == [] then []
    else (if Special(s[0]) then [ESCAPE, s[0]] else [s[0]]) + EscapeLike(s[1..])
  }

  predicate PrefixUpToCase(s: Text, x: Text) {
    |s| <= |x| && forall i :: 0 <= i < |s| ==> Fold(s[i]) == Fold(x[i])
  }

  lemma {:induction false} PercentMatchesAll(x: Text)
    ensures Like(['%'], x)
  {
    if x != [] {
      PercentMatchesAll(x[1..]);
    }
  }

  /** An escaped character matches itself, whatever follows in the pattern. */
  lemma EscapedHead(c: char, p: Text, x: Text)
    ensures Like((if Special(c) then [ESCAPE, c] else [c]) + p, x) <==> x != [] && Fold(c) == Fold(x[0]) && Like(p, x[1..])
  {
    var q := (if Special(c) then [ESCAPE, c] else [c]) + p;
    if Special(c) {
      assert q[0] == ESCAPE && q[1] == c && q[2..] == p;
    } else {
      assert q[0] == c && q[1..] == p;
    }
  }

  /** The escaped pattern with a trailing '%' matches exactly the texts that start with s. */
  lemma {:induction false} EscapedPatternIsPrefix(s: Text, x: Text)
    ensures Like(EscapeLike(s) + ['%'], x) <==> PrefixUpToCase(s, x)
  {
    if s == [] {
      assert EscapeLike(s) + ['%'] == ['%'];
      PercentMatchesAll(x);
    } else {
      var head := if Special(s[0]) then [ESCAPE, s[0]] else [s[0]];
      var rest := EscapeLike(s[1..]) + ['%'];
      assert EscapeLike(s) + ['%'] == head + rest;
      EscapedHead(s[0], rest, x);
      if x != [] {
        EscapedPatternIsPrefix(s[1..], x[1..]);
        assert PrefixUpToCase(s, x) <==> Fold(s[0]) == Fold(x[0]) && PrefixUpToCase(s[1..], x[1..]) by {
          assert forall i :: 0 < i < |s| ==> s[i] == s[1..][i - 1];
          assert forall i :: 0 < i < |x| ==> x[i] == x[1..][i - 1];
          PrefixTail(s, x);
        }
      }
    }
  }

  lemma PrefixTail(s: Text, x: Text)
    requires s != [] && x != []
    ensures PrefixUpToCase(s, x) <==> Fold(s[0]) == Fold(x[0]) && PrefixUpToCase(s[1..], x[1..])
  {
    if PrefixUpToCase(s, x) {
      forall i | 0 <= i < |s| - 1 ensures Fold(s[1..][i]) == Fold(x[1..][i]) {
        assert s[1..][i] == s[i + 1] && x[1..][i] == x[i + 1];
      }
    }
    if Fold(s[0]) == Fold(x[0]) && PrefixUpToCase(s[1..], x[1..]) {
      forall i | 0 <= i < |s| ensures Fold(s[i]) == Fold(x[i]) {
        if i > 0 {
          assert s[i] == s[1..][i - 1] && x[i] == x[1..][i - 1];
        }
      }
    }
  }

  /** Without escaping, a kind such as "a_b" would also match "axb". */
  lemma UnescapedPatternIsNot()
    ensures Like("a_b" + ['%'], "axb") && !PrefixUpToCase("a_b", "axb")
  {
    PercentMatchesAll([]);
    var p, x := "a_b" + ['%'], "axb";
    assert p[1..] == "_b" + ['%'] && x[1..] == "xb";
    assert p[1..][1..] == "b" + ['%'] && x[1..][1..] == "b";
    assert p[1..][1..][1..] == ['%'] && x[1..][1..][1..] == [];
    assert Fold("a_b"[1]) != Fold(x[1]);
  }
}
