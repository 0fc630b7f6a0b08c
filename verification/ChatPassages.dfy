/**
 Turning an FTS highlight into a bounded passage (core/api/chat.go): the random
 markers around matches are stripped, the first match is located in the stripped
 text, and the text is clipped to a window around it. Text is a sequence of runes.
 */
module ChatPassages {
  import opened Options

  type Rune = nat

  const MARKER_BASE: Rune := 0xfdd0
  const MARKER_CHOICES := 32
  const MARKER_RUNES := 16

  predicate IsMarkerRune(r: Rune) {
    MARKER_BASE <= r < MARKER_BASE + MARKER_CHOICES
  }

  predicate OnlyMarkerRunes(s: seq<Rune>) {
    forall i :: 0 <= i < |s| ==> IsMarkerRune(s[i])
  }

  /** An empty marker turns matching off; otherwise the two are distinct. */
  datatype MarkerPair = MarkerPair(start: seq<Rune>, end: seq<Rune>)

  type Markers = m: MarkerPair |
    OnlyMarkerRunes(m.start) && OnlyMarkerRunes(m.end) && (m.start == m.end ==> m.start == [])
    witness MarkerPair([], [])

  function Encode(values: seq<nat>): (r: seq<Rune>)
    ensures |r| == |values| && OnlyMarkerRunes(r)
  {
    seq(|values|, i requires 0 <= i < |values| => MARKER_BASE + values[i] % MARKER_CHOICES)
  }

  /** Thirty-two random bytes give two distinct markers of sixteen runes. */
  function NewMarkers(entropy: seq<nat>): (m: Markers)
    requires |entropy| == 2 * MARKER_RUNES
    ensures |m.start| == |m.end| == MARKER_RUNES
    ensures m.start != m.end
  {
    var start, end := Encode(entropy[..MARKER_RUNES]), Encode(entropy[MARKER_RUNES..]);
    var last := MARKER_BASE + (end[MARKER_RUNES - 1] - MARKER_BASE + 1) % MARKER_CHOICES;
    if start != end then MarkerPair(start, end)
    else
      var bumped := end[MARKER_RUNES - 1 := last];
      assert bumped[MARKER_RUNES - 1] != start[MARKER_RUNES - 1];
      MarkerPair(start, bumped)
  }

  // ---------- stripping ----------

  /** The runes of s[lo..hi] outside the marker range, complete markers or not. */
  function Kept(s: seq<Rune>, lo: nat, hi: nat): seq<Rune>
    requires lo <= hi <= |s|
    decreases hi
  {
    if lo == hi then []
    else if IsMarkerRune(s[hi - 1]) then Kept(s, lo, hi - 1)
    else Kept(s, lo, hi - 1) + [s[hi - 1]]
  }

  function Unmarked(s: seq<Rune>): seq<Rune> {
    Kept(s, 0, |s|)
  }

  lemma {:induction false} KeptSplits(s: seq<Rune>, a: nat, b: nat, c: nat)
    requires a <= b <= c <= |s|
    ensures Kept(s, a, c) == Kept(s, a, b) + Kept(s, b, c)
    decreases c
  {
    if b < c {
      KeptSplits(s, a, b, c - 1);
    }
  }

  lemma {:induction false} MarkersVanish(s: seq<Rune>, a: nat, b: nat)
    requires a <= b <= |s| && forall i :: a <= i < b ==> IsMarkerRune(s[i])
    ensures Kept(s, a, b) == []
    decreases b
  {
    if a < b {
      MarkersVanish(s, a, b - 1);
    }
  }

  lemma {:induction false} PlainStays(s: seq<Rune>, a: nat, b: nat)
    requires a <= b <= |s| && forall i :: a <= i < b ==> !IsMarkerRune(s[i])
    ensures Kept(s, a, b) == s[a..b]
    decreases b
  {
    if a < b {
      PlainStays(s, a, b - 1);
      assert s[a..b] == s[a..b - 1] + [s[b - 1]];
    }
  }

  /** How often a rune occurs among the first n. */
  function Occurrences(s: seq<Rune>, n: nat, r: Rune): nat
    requires n <= |s|
  {
    if n == 0 then 0 else Occurrences(s, n - 1, r) + if s[n - 1] == r then 1 else 0
  }

  lemma OneMore(front: seq<Rune>, x: Rune, r: Rune)
    ensures multiset(front + [x])[r] == multiset(front)[r] + if x == r then 1 else 0
  {
  }

  lemma {:induction false} OccurrencesAreCounted(s: seq<Rune>, n: nat, r: Rune)
    requires n <= |s|
    ensures multiset(s[..n])[r] == Occurrences(s, n, r)
  {
    if n > 0 {
      OccurrencesAreCounted(s, n - 1, r);
      OneMore(s[..n - 1], s[n - 1], r);
      assert s[..n] == s[..n - 1] + [s[n - 1]];
    }
  }

  /** Of a rune outside the marker range every occurrence is kept, of one inside none. */
  lemma {:induction false} KeptCounts(s: seq<Rune>, n: nat, r: Rune)
    requires n <= |s|
    ensures multiset(Kept(s, 0, n))[r] == if IsMarkerRune(r) then 0 else Occurrences(s, n, r)
  {
    if n > 0 {
      KeptCounts(s, n - 1, r);
      if !IsMarkerRune(s[n - 1]) {
        OneMore(Kept(s, 0, n - 1), s[n - 1], r);
      }
    }
  }

  lemma UnmarkedKeepsTheRest(s: seq<Rune>, r: Rune)
    ensures multiset(Unmarked(s))[r] == if IsMarkerRune(r) then 0 else multiset(s)[r]
  {
    KeptCounts(s, |s|, r);
    OccurrencesAreCounted(s, |s|, r);
    assert s[..|s|] == s;
  }

  /** Writes a stretch of the text without marker runes. */
  method WriteText(out: seq<Rune>, s: seq<Rune>, lo: nat, hi: nat) returns (r: seq<Rune>, written: nat)
    requires lo <= hi <= |s|
    ensures r == out + Kept(s, lo, hi) && written == |Kept(s, lo, hi)|
  {
    r, written := out, 0;
    for i := lo to hi
      invariant r == out + Kept(s, lo, i) && written == |Kept(s, lo, i)|
    {
      if !IsMarkerRune(s[i]) {
        r := r + [s[i]];
        written := written + 1;
      }
    }
  }

  // ---------- the match ----------

  predicate OccursAt(s: seq<Rune>, p: seq<Rune>, i: nat) {
    i + |p| <= |s| && s[i..i + |p|] == p
  }

  lemma MarkerRunesThere(s: seq<Rune>, marker: seq<Rune>, k: nat)
    requires OnlyMarkerRunes(marker) && OccursAt(s, marker, k)
    ensures forall i :: k <= i < k + |marker| ==> IsMarkerRune(s[i])
    ensures Kept(s, k, k + |marker|) == []
  {
    forall i | k <= i < k + |marker| ensures IsMarkerRune(s[i]) {
      assert s[i] == s[k..k + |marker|][i - k];
    }
    MarkersVanish(s, k, k + |marker|);
  }

  /** The leftmost occurrence from a position on, or -1. */
  method IndexFrom(s: seq<Rune>, p: seq<Rune>, from: nat) returns (i: int)
    requires from <= |s|
    ensures i == -1 || i >= from
    ensures i >= 0 ==> OccursAt(s, p, i) && forall j: nat :: from <= j < i ==> !OccursAt(s, p, j)
    ensures i < 0 ==> forall j: nat :: from <= j ==> !OccursAt(s, p, j)
  {
    i := from;
    while i + |p| <= |s|
      invariant from <= i && forall j: nat :: from <= j < i ==> !OccursAt(s, p, j)
    {
      if s[i..i + |p|] == p {
        return;
      }
      i := i + 1;
    }
    i := -1;
  }

  predicate MatchingOn(m: Markers) {
    m.start != [] && m.end != []
  }

  datatype Kind = Opening | Closing

  function MarkerOf(m: Markers, kind: Kind): seq<Rune> {
    if kind == Opening then m.start else m.end
  }

  /** The marker that begins at a position; a start marker wins a tie. */
  function KindAt(s: seq<Rune>, m: Markers, i: nat): Option<Kind> {
    if OccursAt(s, m.start, i) then Some(Opening)
    else if OccursAt(s, m.end, i) then Some(Closing)
    else None
  }

  /** For each of the first n positions, the marker that begins there. */
  type Kinds = seq<Option<Kind>>

  function KindsOf(s: seq<Rune>, m: Markers, n: nat): (kinds: Kinds)
    ensures |kinds| == n
  {
    if n == 0 then [] else KindsOf(s, m, n - 1) + [KindAt(s, m, n - 1)]
  }

  lemma {:induction false} KindsIndex(s: seq<Rune>, m: Markers, n: nat, i: nat)
    requires i < n
    ensures KindsOf(s, m, n)[i] == KindAt(s, m, i)
  {
    if i < n - 1 {
      KindsIndex(s, m, n - 1, i);
    }
  }

  /** A marker the reading takes, and where. */
  datatype Token = Token(kind: Kind, at: nat)

  /** The leftmost reading from position d: a marker that begins there is taken whole, any other rune passed. */
  function Tokens(kinds: Kinds, m: Markers, d: nat): seq<Token>
    requires MatchingOn(m)
    decreases |kinds| - d
  {
    if d >= |kinds| then []
    else if kinds[d].None? then Tokens(kinds, m, d + 1)
    else [Token(kinds[d].value, d)] + Tokens(kinds, m, d + |MarkerOf(m, kinds[d].value)|)
  }

  function TokensOf(s: seq<Rune>, m: Markers): seq<Token>
    requires MatchingOn(m)
  {
    Tokens(KindsOf(s, m, |s|), m, 0)
  }

  /** The first start marker taken, and the first end marker taken behind it. */
  datatype Bounds = Bounds(start: Option<nat>, end: Option<nat>)

  function Note(b: Bounds, t: Token): Bounds {
    if t.kind == Opening && b.start.None? then b.(start := Some(t.at))
    else if t.kind == Closing && b.start.Some? && b.end.None? then b.(end := Some(t.at))
    else b
  }

  function Found(tokens: seq<Token>): Bounds {
    if tokens == [] then Bounds(None, None) else Note(Found(tokens[..|tokens| - 1]), tokens[|tokens| - 1])
  }

  lemma FoundSnoc(done: seq<Token>, t: Token)
    ensures Found(done + [t]) == Note(Found(done), t)
  {
    assert (done + [t])[..|done|] == done;
  }

  /** How many of the first i runes survive the stripping; of all of them, past the end. */
  function CleanLength(s: seq<Rune>, i: nat): nat {
    |Kept(s, 0, if i <= |s| then i else |s|)|
  }

  /** The highlighted stretch, in positions of the stripped text. */
  function MatchOf(marked: seq<Rune>, m: Markers): Option<(nat, nat)> {
    if !MatchingOn(m) then None
    else
      var b := Found(TokensOf(marked, m));
      if b.start.None? then None
      else Some((CleanLength(marked, b.start.value), CleanLength(marked, if b.end.Some? then b.end.value else |marked|)))
  }

  // ---------- what a match is ----------

  predicate Spans(m: Markers, t: Token, i: nat) {
    t.at <= i < t.at + |MarkerOf(m, t.kind)|
  }

  /** The markers taken follow each other without overlap, from position d on. */
  predicate InLine(m: Markers, tokens: seq<Token>, d: nat) {
    && (tokens != [] ==> d <= tokens[0].at)
    && forall i :: 0 <= i < |tokens| - 1 ==> tokens[i].at + |MarkerOf(m, tokens[i].kind)| <= tokens[i + 1].at
  }

  /** The reading is the leftmost one: every occurrence of a marker is taken, or begins inside one that is. */
  lemma {:induction false} TokensAreLeftmost(kinds: Kinds, m: Markers, d: nat)
    requires MatchingOn(m)
    ensures InLine(m, Tokens(kinds, m, d), d)
    ensures forall t :: t in Tokens(kinds, m, d) ==> t.at < |kinds| && kinds[t.at] == Some(t.kind)
    ensures forall i: nat :: d <= i < |kinds| && kinds[i].Some? ==> exists t :: t in Tokens(kinds, m, d) && Spans(m, t, i)
    decreases |kinds| - d
  {
    if d < |kinds| {
      if kinds[d].None? {
        TokensAreLeftmost(kinds, m, d + 1);
      } else {
        var first := Token(kinds[d].value, d);
        var next := d + |MarkerOf(m, first.kind)|;
        TokensAreLeftmost(kinds, m, next);
        var tokens, rest := Tokens(kinds, m, d), Tokens(kinds, m, next);
        assert tokens == [first] + rest;
        forall i: nat | d <= i < |kinds| && kinds[i].Some? ensures exists t :: t in tokens && Spans(m, t, i) {
          if i < next {
            assert first in tokens && Spans(m, first, i);
          } else {
            var t :| t in rest && Spans(m, t, i);
            assert t in tokens;
          }
        }
      }
    }
  }

  /** The first start marker among the tokens is number i. */
  predicate FirstStart(tokens: seq<Token>, i: nat) {
    i < |tokens| && tokens[i].kind == Opening && forall k :: 0 <= k < i ==> tokens[k].kind == Closing
  }

  /** The first end marker behind number i is number j. */
  predicate FirstEndAfter(tokens: seq<Token>, i: nat, j: nat) {
    i < j < |tokens| && tokens[j].kind == Closing && forall k :: i < k < j ==> tokens[k].kind == Opening
  }

  predicate NoEndAfter(tokens: seq<Token>, i: nat) {
    forall k :: i < k < |tokens| ==> tokens[k].kind == Opening
  }

  ghost predicate EndMeans(tokens: seq<Token>, i: nat, end: Option<nat>) {
    if end.None? then NoEndAfter(tokens, i)
    else exists j: nat :: FirstEndAfter(tokens, i, j) && end == Some(tokens[j].at)
  }

  ghost predicate BoundsMean(tokens: seq<Token>, b: Bounds) {
    if b.start.None? then b.end.None? && forall k :: 0 <= k < |tokens| ==> tokens[k].kind == Closing
    else exists i: nat :: FirstStart(tokens, i) && b.start == Some(tokens[i].at) && EndMeans(tokens, i, b.end)
  }

  lemma NoteMeans(front: seq<Token>, t: Token)
    requires BoundsMean(front, Found(front))
    ensures BoundsMean(front + [t], Note(Found(front), t))
  {
    var tokens, b := front + [t], Found(front);
    if b.start.None? {
      if t.kind == Opening {
        assert FirstStart(tokens, |front|);
        assert EndMeans(tokens, |front|, None);
      }
    } else {
      var i: nat :| FirstStart(front, i) && b.start == Some(front[i].at) && EndMeans(front, i, b.end);
      assert FirstStart(tokens, i);
      if b.end.Some? {
        var j: nat :| FirstEndAfter(front, i, j) && b.end == Some(front[j].at);
        assert FirstEndAfter(tokens, i, j);
      } else if t.kind == Closing {
        assert FirstEndAfter(tokens, i, |front|);
      }
      assert EndMeans(tokens, i, Note(b, t).end);
    }
  }

  lemma {:induction false} FoundMeans(tokens: seq<Token>)
    ensures BoundsMean(tokens, Found(tokens))
  {
    if tokens != [] {
      var front := tokens[..|tokens| - 1];
      FoundMeans(front);
      NoteMeans(front, tokens[|tokens| - 1]);
      assert tokens == front + [tokens[|tokens| - 1]];
    }
  }

  /** From start marker number i to the first end marker behind it, or to the end of the text if none follows. */
  ghost predicate Highlights(marked: seq<Rune>, tokens: seq<Token>, i: nat, s: nat, e: nat) {
    && FirstStart(tokens, i) && s == CleanLength(marked, tokens[i].at)
    && ((NoEndAfter(tokens, i) && e == CleanLength(marked, |marked|))
        || exists j: nat :: FirstEndAfter(tokens, i, j) && e == CleanLength(marked, tokens[j].at))
  }

  /**
   What a match is: none exactly when the reading takes no start marker, and otherwise from
   the first start marker taken to the first end marker taken behind it, or to the end of the
   text if no end marker follows.
   */
  lemma MatchMeans(marked: seq<Rune>, m: Markers)
    requires MatchingOn(m)
    ensures MatchOf(marked, m).None? <==> forall t :: t in TokensOf(marked, m) ==> t.kind == Closing
    ensures MatchOf(marked, m).Some? ==>
      exists i: nat :: Highlights(marked, TokensOf(marked, m), i, MatchOf(marked, m).value.0, MatchOf(marked, m).value.1)
  {
    var tokens := TokensOf(marked, m);
    var b := Found(tokens);
    FoundMeans(tokens);
    if b.start.Some? {
      var i: nat :| FirstStart(tokens, i) && b.start == Some(tokens[i].at) && EndMeans(tokens, i, b.end);
      assert tokens[i] in tokens;
      var found := MatchOf(marked, m).value;
      assert Highlights(marked, tokens, i, found.0, found.1);
    }
  }

  lemma {:induction false} LineAscends(m: Markers, tokens: seq<Token>, d: nat, i: nat, j: nat)
    requires InLine(m, tokens, d) && i <= j < |tokens|
    ensures tokens[i].at <= tokens[j].at
    decreases j - i
  {
    if i < j {
      LineAscends(m, tokens, d, i, j - 1);
    }
  }

  /** The marker positions found are in the text, the end marker's behind the start marker's. */
  lemma BoundsInText(kinds: Kinds, m: Markers)
    requires MatchingOn(m)
    ensures var b := Found(Tokens(kinds, m, 0));
      && (b.start.None? ==> b.end.None?)
      && (b.start.Some? ==> b.start.value < |kinds|)
      && (b.start.Some? && b.end.Some? ==> b.start.value <= b.end.value < |kinds|)
  {
    var tokens := Tokens(kinds, m, 0);
    var b := Found(tokens);
    FoundMeans(tokens);
    TokensAreLeftmost(kinds, m, 0);
    if b.start.Some? {
      var i: nat :| FirstStart(tokens, i) && b.start == Some(tokens[i].at) && EndMeans(tokens, i, b.end);
      assert tokens[i] in tokens;
      if b.end.Some? {
        var j: nat :| FirstEndAfter(tokens, i, j) && b.end == Some(tokens[j].at);
        assert tokens[j] in tokens;
        LineAscends(m, tokens, 0, i, j);
      }
    }
  }

  lemma CleanLengthGrows(s: seq<Rune>, i: nat, j: nat)
    requires i <= j <= |s|
    ensures CleanLength(s, i) <= CleanLength(s, j) <= |Unmarked(s)|
  {
    KeptSplits(s, 0, i, j);
    KeptSplits(s, 0, j, |s|);
  }

  // ---------- highlighting and stripping ----------

  /** One highlighted stretch: a start marker at p, an end marker at q, and plain text before and between. */
  predicate Stretch(s: seq<Rune>, m: Markers, d: nat, p: nat, q: nat) {
    && d <= p && p + |m.start| <= q && q + |m.end| <= |s|
    && OccursAt(s, m.start, p) && OccursAt(s, m.end, q) && !OccursAt(s, m.start, q)
    && (forall i :: d <= i < p ==> !IsMarkerRune(s[i]))
    && (forall i :: p + |m.start| <= i < q ==> !IsMarkerRune(s[i]))
  }

  /** From position d on, the stretches from number k on are highlighted, one behind the other, and nothing else. */
  predicate MarkedUp(s: seq<Rune>, m: Markers, d: nat, stretches: seq<(nat, nat)>, k: nat)
    decreases |stretches| - k
  {
    && MatchingOn(m) && d <= |s|
    && if k >= |stretches| then forall i :: d <= i < |s| ==> !IsMarkerRune(s[i])
       else Stretch(s, m, d, stretches[k].0, stretches[k].1) && MarkedUp(s, m, stretches[k].1 + |m.end|, stretches, k + 1)
  }

  function Slice(s: seq<Rune>, a: nat, b: nat): seq<Rune> {
    if a <= b <= |s| then s[a..b] else []
  }

  /** The text from position d on, with the markers of the stretches from number k on cut out. */
  function CutOut(s: seq<Rune>, m: Markers, d: nat, stretches: seq<(nat, nat)>, k: nat): seq<Rune>
    decreases |stretches| - k
  {
    if k >= |stretches| then Slice(s, d, |s|)
    else
      var (p, q) := stretches[k];
      Slice(s, d, p) + Slice(s, p + |m.start|, q) + CutOut(s, m, q + |m.end|, stretches, k + 1)
  }

  /** No marker begins in the positions from d up to k. */
  predicate NoneFrom(kinds: Kinds, d: nat, k: nat) {
    d <= k <= |kinds| && forall j :: d <= j < k ==> kinds[j].None?
  }

  /** Reading passes over positions where no marker begins. */
  lemma {:induction false} TokensSkip(kinds: Kinds, m: Markers, d: nat, k: nat)
    requires MatchingOn(m) && NoneFrom(kinds, d, k)
    ensures Tokens(kinds, m, d) == Tokens(kinds, m, k)
    decreases k - d
  {
    if d < k {
      TokensSkip(kinds, m, d + 1, k);
    }
  }

  lemma PlainHasNoKind(s: seq<Rune>, m: Markers, i: nat)
    requires MatchingOn(m) && i < |s| && !IsMarkerRune(s[i])
    ensures KindsOf(s, m, |s|)[i].None?
  {
    KindsIndex(s, m, |s|, i);
    if OccursAt(s, m.start, i) {
      MarkerRunesThere(s, m.start, i);
    } else if OccursAt(s, m.end, i) {
      MarkerRunesThere(s, m.end, i);
    }
  }

  lemma KindsWherePlain(s: seq<Rune>, m: Markers, a: nat, b: nat)
    requires MatchingOn(m) && a <= b <= |s| && forall i :: a <= i < b ==> !IsMarkerRune(s[i])
    ensures NoneFrom(KindsOf(s, m, |s|), a, b)
  {
    forall i: nat | a <= i < b ensures KindsOf(s, m, |s|)[i].None? {
      PlainHasNoKind(s, m, i);
    }
  }

  lemma TwoTokens(kinds: Kinds, m: Markers, d: nat, p: nat, q: nat)
    requires MatchingOn(m) && p + |m.start| <= q < |kinds|
    requires kinds[p] == Some(Opening) && kinds[q] == Some(Closing)
    requires NoneFrom(kinds, d, p) && NoneFrom(kinds, p + |m.start|, q)
    ensures Tokens(kinds, m, d) == [Token(Opening, p), Token(Closing, q)] + Tokens(kinds, m, q + |m.end|)
  {
    TokensSkip(kinds, m, d, p);
    TokensSkip(kinds, m, p + |m.start|, q);
    assert Tokens(kinds, m, q) == [Token(Closing, q)] + Tokens(kinds, m, q + |m.end|);
    assert Tokens(kinds, m, p) == [Token(Opening, p)] + Tokens(kinds, m, p + |m.start|);
  }

  lemma StretchTokens(s: seq<Rune>, m: Markers, p: nat, q: nat)
    requires MatchingOn(m) && Stretch(s, m, 0, p, q)
    ensures exists rest :: TokensOf(s, m) == [Token(Opening, p), Token(Closing, q)] + rest
  {
    KindsWherePlain(s, m, 0, p);
    KindsWherePlain(s, m, p + |m.start|, q);
    KindsIndex(s, m, |s|, p);
    KindsIndex(s, m, |s|, q);
    TwoTokens(KindsOf(s, m, |s|), m, 0, p, q);
  }

  lemma {:induction false} FoundPair(p: nat, q: nat, rest: seq<Token>)
    ensures Found([Token(Opening, p), Token(Closing, q)] + rest) == Bounds(Some(p), Some(q))
    decreases |rest|
  {
    var two := [Token(Opening, p), Token(Closing, q)];
    if rest == [] {
      FoundSnoc([Token(Opening, p)], Token(Closing, q));
      FoundSnoc([], Token(Opening, p));
      assert [] + [Token(Opening, p)] == [Token(Opening, p)];
      assert two + rest == [Token(Opening, p)] + [Token(Closing, q)];
    } else {
      var front := rest[..|rest| - 1];
      FoundPair(p, q, front);
      FoundSnoc(two + front, rest[|rest| - 1]);
      assert two + rest == two + front + [rest[|rest| - 1]];
    }
  }

  lemma KeptPastMarker(s: seq<Rune>, marker: seq<Rune>, d: nat, k: nat)
    requires d <= k && OnlyMarkerRunes(marker) && OccursAt(s, marker, k)
    ensures Kept(s, d, k + |marker|) == Kept(s, d, k)
  {
    KeptSplits(s, d, k, k + |marker|);
    MarkerRunesThere(s, marker, k);
  }

  lemma KeptPastPlain(s: seq<Rune>, d: nat, a: nat, b: nat)
    requires d <= a <= b <= |s| && forall i :: a <= i < b ==> !IsMarkerRune(s[i])
    ensures Kept(s, d, b) == Kept(s, d, a) + s[a..b]
  {
    KeptSplits(s, d, a, b);
    PlainStays(s, a, b);
  }

  lemma KeptStretch(s: seq<Rune>, m: Markers, d: nat, p: nat, q: nat)
    requires Stretch(s, m, d, p, q)
    ensures Kept(s, d, p) == s[d..p]
    ensures Kept(s, d, q) == s[d..p] + s[p + |m.start|..q]
  {
    PlainStays(s, d, p);
    KeptPastMarker(s, m.start, d, p);
    KeptPastPlain(s, d, p + |m.start|, q);
  }

  lemma KeptAhead(s: seq<Rune>, m: Markers, d: nat, p: nat, q: nat)
    requires Stretch(s, m, d, p, q)
    ensures Kept(s, d, |s|) == Slice(s, d, p) + Slice(s, p + |m.start|, q) + Kept(s, q + |m.end|, |s|)
  {
    KeptStretch(s, m, d, p, q);
    KeptPastMarker(s, m.end, d, q);
    KeptSplits(s, d, q + |m.end|, |s|);
  }

  lemma {:induction false} KeptIsCutOut(s: seq<Rune>, m: Markers, d: nat, stretches: seq<(nat, nat)>, k: nat)
    requires MarkedUp(s, m, d, stretches, k)
    ensures Kept(s, d, |s|) == CutOut(s, m, d, stretches, k)
    decreases |stretches| - k
  {
    if k >= |stretches| {
      PlainStays(s, d, |s|);
    } else {
      KeptIsCutOut(s, m, stretches[k].1 + |m.end|, stretches, k + 1);
      CutOutStep(s, m, d, stretches[k].0, stretches[k].1, stretches, k);
    }
  }

  lemma CutOutStep(s: seq<Rune>, m: Markers, d: nat, p: nat, q: nat, stretches: seq<(nat, nat)>, k: nat)
    requires Stretch(s, m, d, p, q) && k < |stretches| && stretches[k] == (p, q)
    requires Kept(s, q + |m.end|, |s|) == CutOut(s, m, q + |m.end|, stretches, k + 1)
    ensures Kept(s, d, |s|) == CutOut(s, m, d, stretches, k)
  {
    KeptAhead(s, m, d, p, q);
    SameTail(Kept(s, d, |s|), CutOut(s, m, d, stretches, k), Slice(s, d, p) + Slice(s, p + |m.start|, q),
             Kept(s, q + |m.end|, |s|), CutOut(s, m, q + |m.end|, stretches, k + 1));
  }

  lemma SameTail(a: seq<Rune>, b: seq<Rune>, head: seq<Rune>, x: seq<Rune>, y: seq<Rune>)
    requires a == head + x && b == head + y && x == y
    ensures a == b
  {
  }

  lemma PlainHasNoMatch(s: seq<Rune>, m: Markers)
    requires MatchingOn(m) && forall i :: 0 <= i < |s| ==> !IsMarkerRune(s[i])
    ensures MatchOf(s, m) == None
  {
    KindsWherePlain(s, m, 0, |s|);
    TokensSkip(KindsOf(s, m, |s|), m, 0, |s|);
  }

  /** The first stretch is the match, whatever follows it. */
  lemma FirstStretchMatches(s: seq<Rune>, m: Markers, p: nat, q: nat)
    requires MatchingOn(m) && Stretch(s, m, 0, p, q)
    ensures MatchOf(s, m) == Some((p, q - |m.start|))
  {
    StretchTokens(s, m, p, q);
    var rest :| TokensOf(s, m) == [Token(Opening, p), Token(Closing, q)] + rest;
    FoundPair(p, q, rest);
    KeptStretch(s, m, 0, p, q);
  }

  lemma MatchIsFirst(s: seq<Rune>, m: Markers, stretches: seq<(nat, nat)>)
    requires MarkedUp(s, m, 0, stretches, 0)
    ensures stretches == [] ==> MatchOf(s, m) == None
    ensures stretches != [] ==> MatchOf(s, m) == Some((stretches[0].0, stretches[0].1 - |m.start|))
  {
    if stretches == [] {
      PlainHasNoMatch(s, m);
    } else {
      FirstStretchMatches(s, m, stretches[0].0, stretches[0].1);
    }
  }

  /** Stripping undoes highlighting, however many stretches there are, and the match is the first of them. */
  lemma StrippingUndoesHighlighting(s: seq<Rune>, m: Markers, stretches: seq<(nat, nat)>)
    requires MarkedUp(s, m, 0, stretches, 0)
    ensures Unmarked(s) == CutOut(s, m, 0, stretches, 0)
    ensures stretches == [] ==> MatchOf(s, m) == None
    ensures stretches != [] ==> MatchOf(s, m) == Some((stretches[0].0, stretches[0].1 - |m.start|))
  {
    KeptIsCutOut(s, m, 0, stretches, 0);
    MatchIsFirst(s, m, stretches);
  }

  // ---------- the loop ----------

  /** Where the loop stands: how far it has read, what it has written, and the bounds found so far, -1 for not yet. */
  datatype Point = Point(read: nat, out: seq<Rune>, start: int, end: int)

  predicate Tracks(s: seq<Rune>, b: Bounds, start: int, end: int) {
    && start == (if b.start.Some? then CleanLength(s, b.start.value) else -1)
    && end == (if b.end.Some? then CleanLength(s, b.end.value) else -1)
  }

  /** The tokens `done` are behind the loop, the tokens from its position on are ahead. */
  predicate Stands(kinds: Kinds, s: seq<Rune>, m: Markers, p: Point, done: seq<Token>) {
    && MatchingOn(m) && p.read <= |s| == |kinds|
    && Tokens(kinds, m, 0) == done + Tokens(kinds, m, p.read)
    && p.out == Kept(s, 0, p.read)
    && Tracks(s, Found(done), p.start, p.end)
  }

  /** The text up to the marker at k, and the marker. */
  function AfterChunk(p: Point, s: seq<Rune>, m: Markers, k: nat, kind: Kind): Point
    requires p.read <= k <= |s|
  {
    var out := p.out + Kept(s, p.read, k);
    var start := if kind == Opening && p.start < 0 then |out| else p.start;
    var end := if kind == Closing && start >= 0 && p.end < 0 then |out| else p.end;
    Point(k + |MarkerOf(m, kind)|, out, start, end)
  }

  lemma ChunkTokens(kinds: Kinds, m: Markers, d: nat, k: nat, kind: Kind, done: seq<Token>)
    requires MatchingOn(m) && NoneFrom(kinds, d, k) && k < |kinds| && kinds[k] == Some(kind)
    requires Tokens(kinds, m, 0) == done + Tokens(kinds, m, d)
    ensures Tokens(kinds, m, 0) == done + [Token(kind, k)] + Tokens(kinds, m, k + |MarkerOf(m, kind)|)
  {
    TokensSkip(kinds, m, d, k);
  }

  lemma ChunkText(s: seq<Rune>, marker: seq<Rune>, d: nat, k: nat)
    requires d <= k && OnlyMarkerRunes(marker) && OccursAt(s, marker, k)
    ensures Kept(s, 0, k + |marker|) == Kept(s, 0, d) + Kept(s, d, k)
    ensures CleanLength(s, k) == |Kept(s, 0, d)| + |Kept(s, d, k)|
  {
    KeptSplits(s, 0, d, k);
    KeptPastMarker(s, marker, 0, k);
  }

  /** A marker with `here` stripped runes before it moves the bounds as the loop does. */
  lemma TracksStep(s: seq<Rune>, done: seq<Token>, start: int, end: int, t: Token, here: int)
    requires Tracks(s, Found(done), start, end) && here == CleanLength(s, t.at)
    ensures var start' := if t.kind == Opening && start < 0 then here else start;
      Tracks(s, Found(done + [t]), start', if t.kind == Closing && start' >= 0 && end < 0 then here else end)
  {
    FoundSnoc(done, t);
  }

  lemma ChunkStands(kinds: Kinds, s: seq<Rune>, m: Markers, p: Point, done: seq<Token>, k: nat, kind: Kind)
    requires Stands(kinds, s, m, p, done) && p.read <= k < |s| && OccursAt(s, MarkerOf(m, kind), k)
    requires kinds[k] == Some(kind) && NoneFrom(kinds, p.read, k)
    ensures Stands(kinds, s, m, AfterChunk(p, s, m, k, kind), done + [Token(kind, k)])
  {
    ChunkPoint(s, m, p, done, k, kind);
    ChunkTokens(kinds, m, p.read, k, kind, done);
  }

  lemma ChunkPoint(s: seq<Rune>, m: Markers, p: Point, done: seq<Token>, k: nat, kind: Kind)
    requires p.read <= k && OccursAt(s, MarkerOf(m, kind), k)
    requires p.out == Kept(s, 0, p.read) && Tracks(s, Found(done), p.start, p.end)
    ensures var next := AfterChunk(p, s, m, k, kind);
      && next.read <= |s| && next.out == Kept(s, 0, next.read)
      && Tracks(s, Found(done + [Token(kind, k)]), next.start, next.end)
  {
    ChunkText(s, MarkerOf(m, kind), p.read, k);
    TracksStep(s, done, p.start, p.end, Token(kind, k), |p.out| + |Kept(s, p.read, k)|);
  }

  lemma TailStands(kinds: Kinds, s: seq<Rune>, m: Markers, p: Point, done: seq<Token>)
    requires Stands(kinds, s, m, p, done) && NoneFrom(kinds, p.read, |s|)
    ensures Stands(kinds, s, m, Point(|s|, p.out + Kept(s, p.read, |s|), p.start, p.end), done)
  {
    TokensSkip(kinds, m, p.read, |s|);
    KeptSplits(s, 0, p.read, |s|);
  }

  /** With everything read, the bounds are the match's. */
  lemma EndStands(s: seq<Rune>, m: Markers, p: Point, done: seq<Token>)
    requires Stands(KindsOf(s, m, |s|), s, m, p, done) && p.read == |s|
    ensures p.out == Unmarked(s) && MatchOf(s, m).Some? == (p.start >= 0)
    ensures p.start < 0 ==> p.start == p.end == -1
    ensures p.start >= 0 ==>
      var end := if p.end < p.start then |p.out| else p.end;
      MatchOf(s, m) == Some((p.start, end)) && p.start <= end <= |p.out|
  {
    var b := Found(done);
    assert done == TokensOf(s, m);
    BoundsInText(KindsOf(s, m, |s|), m);
    if b.start.Some? {
      CleanLengthGrows(s, b.start.value, if b.end.Some? then b.end.value else |s|);
    }
  }

  /** The leftmost marker of either kind from a position on. */
  method NextMarker(s: seq<Rune>, m: Markers, from: nat) returns (at: int, kind: Kind)
    requires MatchingOn(m) && from <= |s|
    ensures at < 0 ==> NoneFrom(KindsOf(s, m, |s|), from, |s|)
    ensures at >= 0 ==>
      && from <= at < |s| && OccursAt(s, MarkerOf(m, kind), at) && KindsOf(s, m, |s|)[at] == Some(kind)
      && NoneFrom(KindsOf(s, m, |s|), from, at)
  {
    var startAt := IndexFrom(s, m.start, from);
    var endAt := IndexFrom(s, m.end, from);
    at, kind := -1, Opening;
    if startAt >= 0 && (endAt < 0 || startAt <= endAt) {
      at, kind := startAt, Opening;
    } else if endAt >= 0 {
      at, kind := endAt, Closing;
    }
    forall j: nat | from <= j < |s| ensures KindsOf(s, m, |s|)[j] == KindAt(s, m, j) {
      KindsIndex(s, m, |s|, j);
    }
  }

  /** One round of the loop: the text up to the next marker, and the marker. */
  method ScanChunk(s: seq<Rune>, m: Markers, p: Point, ghost done: seq<Token>) returns (next: Point, ghost done': seq<Token>)
    requires Stands(KindsOf(s, m, |s|), s, m, p, done) && p.read < |s|
    ensures Stands(KindsOf(s, m, |s|), s, m, next, done') && p.read < next.read
  {
    var markerAt, kind := NextMarker(s, m, p.read);
    if markerAt < 0 {
      var out, _ := WriteText(p.out, s, p.read, |s|);
      TailStands(KindsOf(s, m, |s|), s, m, p, done);
      return Point(|s|, out, p.start, p.end), done;
    }
    ChunkStands(KindsOf(s, m, |s|), s, m, p, done, markerAt, kind);
    var out, written := WriteText(p.out, s, p.read, markerAt);
    var position := |p.out| + written;
    var start, end := p.start, p.end;
    if kind == Opening && start < 0 {
      start := position;
    }
    if kind == Closing && start >= 0 && end < 0 {
      end := position;
    }
    next := Point(markerAt + |MarkerOf(m, kind)|, out, start, end);
    assert next == AfterChunk(p, s, m, markerAt, kind);
    done' := done + [Token(kind, markerAt)];
  }

  /** The text without marker runes, and the match in it. */
  method StripMarkers(marked: seq<Rune>, m: Markers)
    returns (clean: seq<Rune>, matchStart: int, matchEnd: int, matched: bool)
    ensures clean == Unmarked(marked)
    ensures matched <==> MatchOf(marked, m).Some?
    ensures matched ==> MatchOf(marked, m) == Some((matchStart, matchEnd)) && 0 <= matchStart <= matchEnd <= |clean|
    ensures !matched ==> matchStart == -1 && matchEnd == -1
  {
    clean, matchStart, matchEnd, matched := [], -1, -1, false;
    if m.start == [] || m.end == [] {
      var written;
      clean, written := WriteText([], marked, 0, |marked|);
      return;
    }
    var p := Point(0, [], -1, -1);
    ghost var done: seq<Token> := [];
    while p.read < |marked|
      invariant Stands(KindsOf(marked, m, |marked|), marked, m, p, done)
      decreases |marked| - p.read
    {
      p, done := ScanChunk(marked, m, p, done);
    }
    EndStands(marked, m, p, done);
    clean, matchStart, matchEnd := p.out, p.start, p.end;
    if matchStart >= 0 {
      if matchEnd < matchStart {
        matchEnd := |clean|;
      }
      matched := true;
    }
  }

  // ---------- the passage ----------

  /**
   A slice of the text at position `at`, as long as the limit allows. Without a match it is
   the head of the text. A match that fits is in it whole, and in the middle as far as the
   ends of the text let it be; one that does not fit opens it.
   */
  predicate IsPassage(clean: seq<Rune>, limit: int, found: Option<(nat, nat)>, r: seq<Rune>, at: nat) {
    && at + |r| <= |clean| && r == clean[at..at + |r|]
    && |r| == (if |clean| <= limit then |clean| else limit)
    && match found
       case None => at == 0
       case Some((s, e)) =>
         if e - s > limit then at == s
         else
           && at <= s && e <= at + |r|
           && (at + |r| < |clean| ==> (s - at) - (at + |r| - e) <= 0)
           && (at > 0 ==> (s - at) - (at + |r| - e) >= -1)
  }

  /** These conditions leave one passage. */
  lemma PassageIsUnique(clean: seq<Rune>, limit: int, found: Option<(nat, nat)>, r: seq<Rune>, at: nat, r': seq<Rune>, at': nat)
    requires IsPassage(clean, limit, found, r, at) && IsPassage(clean, limit, found, r', at')
    ensures r == r'
  {
  }

  /** The rune cap, centred on the match. */
  method BoundedPassage(marked: seq<Rune>, limit: int, m: Markers) returns (r: seq<Rune>)
    ensures limit <= 0 ==> r == []
    ensures limit > 0 ==> exists at: nat :: IsPassage(Unmarked(marked), limit, MatchOf(marked, m), r, at)
  {
    var clean, matchStart, matchEnd, matched := StripMarkers(marked, m);
    if limit <= 0 {
      return [];
    }
    if |clean| <= limit {
      assert clean == clean[0..|clean|];
      assert IsPassage(clean, limit, MatchOf(marked, m), clean, 0);
      return clean;
    }
    if !matched {
      assert IsPassage(clean, limit, None, clean[..limit], 0);
      return clean[..limit];
    }
    var matchRunes := matchEnd - matchStart;
    var first := matchStart;
    if matchRunes < limit {
      first := first - (limit - matchRunes) / 2;
    }
    if first > |clean| - limit {
      first := |clean| - limit;
    }
    if first < 0 {
      first := 0;
    }
    r := clean[first..first + limit];
    assert IsPassage(clean, limit, MatchOf(marked, m), r, first);
  }
}
