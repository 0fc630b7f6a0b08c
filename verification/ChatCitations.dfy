/**
 Grounding a chat answer (core/api/chat.go): the model's citation list and the
 [n] markers in its text are checked against each other, and missing markers are
 appended. The result is right when scanning the returned text again finds
 exactly the returned citations.
 */
module ChatCitations {

  import opened Options
  import opened Decimal

  const MAX_ANSWER_RUNES := 6000
  const MAX_INT := 0x7fff_ffff_ffff_ffff

  // ---------- decimal numbers ----------

  /** Optional sign, at least one digit, within the machine's integers. */
  function Atoi(s: Text): Option<int> {
    var signed := s != [] && (s[0] == '-' || s[0] == '+');
    var body := if signed then s[1..] else s;
    if !AllDigits(body) then None
    else if signed && s[0] == '-' then (if DecimalValue(body) <= MAX_INT + 1 then Some(0 - DecimalValue(body)) else None)
    else (if DecimalValue(body) <= MAX_INT then Some(DecimalValue(body)) else None)
  }

  // ---------- scanning markers ----------

  function Value(inner: Text): set<int> {
    match Atoi(inner)
    case Some(n) => if n > 0 then {n} else {}
    case None => {}
  }

  /** A bracket counts for the positive number in it, signed or not, and for nothing otherwise. */
  lemma ValueExactly(inner: Text)
    ensures AllDigits(inner) && 0 < DecimalValue(inner) <= MAX_INT ==>
      Value(inner) == {DecimalValue(inner)} && Value(['+'] + inner) == {DecimalValue(inner)} && Value(['-'] + inner) == {}
    ensures AllDigits(inner) && (DecimalValue(inner) == 0 || DecimalValue(inner) > MAX_INT) ==> Value(inner) == {}
    ensures !AllDigits(inner) && !(inner != [] && inner[0] == '+' && AllDigits(inner[1..])) ==> Value(inner) == {}
  {
    assert (['+'] + inner)[1..] == inner && (['-'] + inner)[1..] == inner;
  }

  /** Reading left to right: the text since the last '[' still open, and the numbers found. */
  datatype Scan = Scan(open: Option<Text>, found: set<int>)

  const START := Scan(None, {})

  function Read(st: Scan, c: char): Scan {
    match st.open
    case None => if c == '[' then st.(open := Some([])) else st
    case Some(inner) => if c == ']' then Scan(None, st.found + Value(inner)) else st.(open := Some(inner + [c]))
  }

  function ReadAll(st: Scan, s: Text): Scan {
    if s == [] then st else Read(ReadAll(st, s[..|s| - 1]), s[|s| - 1])
  }

  function Markers(s: Text): set<int> {
    ReadAll(START, s).found
  }

  /** The text ends inside a '[' that no ']' closes. */
  predicate Unclosed(s: Text) {
    ReadAll(START, s).open.Some?
  }

  lemma {:induction false} ReadConcat(st: Scan, a: Text, b: Text)
    ensures ReadAll(st, a + b) == ReadAll(ReadAll(st, a), b)
    decreases |b|
  {
    if b == [] {
      assert a + b == a;
    } else {
      ReadConcat(st, a, b[..|b| - 1]);
      assert (a + b)[..|a + b| - 1] == a + b[..|b| - 1];
    }
  }

  lemma {:induction false} ReadOutside(found: set<int>, s: Text)
    requires '[' !in s
    ensures ReadAll(Scan(None, found), s) == Scan(None, found)
  {
    if s != [] {
      ReadOutside(found, s[..|s| - 1]);
    }
  }

  lemma {:induction false} ReadInside(found: set<int>, inner: Text, s: Text)
    requires ']' !in s
    ensures ReadAll(Scan(Some(inner), found), s) == Scan(Some(inner + s), found)
  {
    if s == [] {
      assert inner + s == inner;
    } else {
      ReadInside(found, inner, s[..|s| - 1]);
      assert inner + s[..|s| - 1] + [s[|s| - 1]] == inner + s;
    }
  }

  /** Text, a bracketed stretch and the bracket that closes it. */
  lemma ReadBracket(found: set<int>, text: Text, inner: Text)
    requires '[' !in text && ']' !in inner
    ensures ReadAll(Scan(None, found), text + ['['] + inner + [']']) == Scan(None, found + Value(inner))
  {
    var st := Scan(None, found);
    ReadConcat(st, text + ['['] + inner, [']']);
    ReadConcat(st, text + ['['], inner);
    ReadConcat(st, text, ['[']);
    ReadOutside(found, text);
    ReadInside(found, [], inner);
    assert [] + inner == inner;
    ReadOne(st, '[');
    ReadOne(Scan(Some(inner), found), ']');
  }

  lemma ReadOne(st: Scan, c: char)
    ensures ReadAll(st, [c]) == Read(st, c)
  {
    assert [c][..0] == [];
  }

  /** Position of the first c at or after `from`, or -1. */
  method IndexByte(s: Text, c: char, from: nat) returns (i: int)
    requires from <= |s|
    ensures i < 0 ==> i == -1 && c !in s[from..]
    ensures i >= 0 ==> from <= i < |s| && s[i] == c && c !in s[from..i]
  {
    i := from;
    while i < |s|
      invariant from <= i <= |s| && c !in s[from..i]
    {
      if s[i] == c {
        return;
      }
      assert s[from..i + 1] == s[from..i] + [s[i]];
      i := i + 1;
    }
    i := -1;
  }

  lemma ReadChunk(answer: Text, offset: nat, open: nat, close: nat, markers: set<int>)
    requires offset <= open < close < |answer| && answer[open] == '[' && answer[close] == ']'
    requires '[' !in answer[offset..open] && ']' !in answer[open + 1..close]
    requires ReadAll(START, answer[..offset]) == Scan(None, markers)
    ensures ReadAll(START, answer[..close + 1]) == Scan(None, markers + Value(answer[open + 1..close]))
  {
    var chunk := answer[offset..open] + ['['] + answer[open + 1..close] + [']'];
    assert answer[..close + 1] == answer[..offset] + chunk;
    ReadConcat(START, answer[..offset], chunk);
    ReadBracket(markers, answer[offset..open], answer[open + 1..close]);
  }

  lemma ReadTail(answer: Text, offset: nat, markers: set<int>)
    requires offset <= |answer| && ReadAll(START, answer[..offset]) == Scan(None, markers)
    requires '[' !in answer[offset..]
    ensures ReadAll(START, answer) == Scan(None, markers)
  {
    assert answer == answer[..offset] + answer[offset..];
    ReadConcat(START, answer[..offset], answer[offset..]);
    ReadOutside(markers, answer[offset..]);
  }

  lemma ReadDangling(answer: Text, offset: nat, open: nat, markers: set<int>)
    requires offset <= open < |answer| && answer[open] == '[' && ReadAll(START, answer[..offset]) == Scan(None, markers)
    requires '[' !in answer[offset..open] && ']' !in answer[open + 1..]
    ensures Markers(answer) == markers && Unclosed(answer)
  {
    var text, inner := answer[offset..open], answer[open + 1..];
    assert answer == answer[..offset] + text + ['['] + inner;
    ReadConcat(START, answer[..offset] + text + ['['], inner);
    ReadConcat(START, answer[..offset] + text, ['[']);
    ReadConcat(START, answer[..offset], text);
    ReadOutside(markers, text);
    ReadOne(Scan(None, markers), '[');
    ReadInside(markers, [], inner);
  }

  method CitationMarkers(answer: Text) returns (markers: set<int>)
    ensures markers == Markers(answer)
  {
    markers := {};
    var offset := 0;
    while offset < |answer|
      invariant 0 <= offset <= |answer|
      invariant ReadAll(START, answer[..offset]) == Scan(None, markers)
    {
      var open := IndexByte(answer, '[', offset);
      if open < 0 {
        ReadTail(answer, offset, markers);
        return;
      }
      var close := IndexByte(answer, ']', open + 1);
      if close < 0 {
        ReadDangling(answer, offset, open, markers);
        return;
      }
      ReadChunk(answer, offset, open, close, markers);
      var number := Atoi(answer[open + 1..close]);
      if number.Some? && number.value > 0 {
        markers := markers + {number.value};
      }
      offset := close + 1;
    }
    assert answer[..offset] == answer;
  }

  // ---------- the appended suffix ----------

  function Mark(n: nat): Text {
    [' ', '['] + Itoa(n) + [']']
  }

  function Suffix(citations: seq<int>, have: set<int>): Text
    requires forall i :: 0 <= i < |citations| ==> citations[i] > 0
  {
    if citations == [] then []
    else
      var n := |citations| - 1;
      Suffix(citations[..n], have) + (if citations[n] in have then [] else Mark(citations[n]))
  }

  function Elements(s: seq<int>): set<int> {
    set x | x in s
  }

  lemma NoBracketsInItoa(n: nat)
    ensures '[' !in Itoa(n) && ']' !in Itoa(n)
  {
    ItoaDigits(n);
  }

  lemma ValueOfItoa(n: nat)
    requires 0 < n <= MAX_INT
    ensures Value(Itoa(n)) == {n}
  {
    ItoaDigits(n);
    ValueExactly(Itoa(n));
  }

  lemma MarkFromOutside(found: set<int>, n: nat)
    requires 0 < n <= MAX_INT
    ensures ReadAll(Scan(None, found), Mark(n)) == Scan(None, found + {n})
  {
    ValueOfItoa(n);
    NoBracketsInItoa(n);
    ReadBracket(found, [' '], Itoa(n));
    assert [' '] + ['['] + Itoa(n) + [']'] == Mark(n);
  }

  lemma MarkFromInside(found: set<int>, inner: Text, n: nat)
    ensures ReadAll(Scan(Some(inner), found), Mark(n)) == Scan(None, found)
  {
    NoBracketsInItoa(n);
    var s := [' ', '['] + Itoa(n);
    ReadConcat(Scan(Some(inner), found), s, [']']);
    ReadInside(found, inner, s);
    ReadOne(Scan(Some(inner + s), found), ']');
    assert (inner + s)[|inner| + 1] == '[';
    NotANumber(inner + s, |inner| + 1);
  }

  lemma NotANumber(s: Text, i: nat)
    requires i < |s| && s[i] == '['
    ensures Atoi(s).None?
  {
    if i > 0 && (s[0] == '-' || s[0] == '+') {
      assert s[1..][i - 1] == '[';
    }
  }

  predicate Distinct(s: seq<int>) {
    forall i, j :: 0 <= i < j < |s| ==> s[i] != s[j]
  }

  predicate Numbers(citations: seq<int>) {
    forall i :: 0 <= i < |citations| ==> 0 < citations[i] <= MAX_INT
  }

  lemma ElementsSnoc(s: seq<int>, c: int)
    ensures Elements(s + [c]) == Elements(s) + {c}
  {
    assert c in s + [c];
    assert forall x :: x in s ==> x in s + [c];
  }

  lemma SuffixSnoc(st: Scan, front: seq<int>, c: int, have: set<int>)
    requires Numbers(front) && 0 < c <= MAX_INT
    ensures Numbers(front + [c])
    ensures ReadAll(st, Suffix(front + [c], have)) ==
      if c in have then ReadAll(st, Suffix(front, have)) else ReadAll(ReadAll(st, Suffix(front, have)), Mark(c))
  {
    assert (front + [c])[..|front|] == front;
    ReadConcat(st, Suffix(front, have), Mark(c));
    assert Suffix(front, have) + [] == Suffix(front, have);
  }

  lemma {:induction false} SuffixFromOutside(found: set<int>, citations: seq<int>, have: set<int>)
    requires Numbers(citations)
    ensures ReadAll(Scan(None, found), Suffix(citations, have)) == Scan(None, found + (Elements(citations) - have))
  {
    if citations == [] {
      assert found + (Elements(citations) - have) == found;
    } else {
      var n := |citations| - 1;
      var front, c := citations[..n], citations[n];
      assert citations == front + [c];
      SuffixFromOutside(found, front, have);
      SuffixSnoc(Scan(None, found), front, c, have);
      ElementsSnoc(front, c);
      if c !in have {
        MarkFromOutside(found + (Elements(front) - have), c);
      }
      assert found + (Elements(citations) - have) == found + (Elements(front) - have) + (if c in have then {} else {c});
    }
  }

  /** The first citation whose marker is missing. */
  function FirstMissing(citations: seq<int>, have: set<int>): (c: Option<int>)
    ensures c.Some? ==> c.value in citations && c.value !in have
    ensures c.None? <==> Elements(citations) <= have
  {
    if citations == [] then None
    else
      var n := |citations| - 1;
      assert citations == citations[..n] + [citations[n]];
      var c := FirstMissing(citations[..n], have);
      if c.Some? then c else if citations[n] in have then None else Some(citations[n])
  }

  lemma LostSnoc(found: set<int>, front: seq<int>, c: int, have: set<int>, lost: int)
    requires c !in front && lost in front
    ensures found + (Elements(front + [c]) - have - {lost}) == found + (Elements(front) - have - {lost}) + (if c in have then {} else {c})
  {
    ElementsSnoc(front, c);
  }

  lemma FirstMissingSnoc(front: seq<int>, c: int, have: set<int>)
    ensures FirstMissing(front + [c], have) ==
      var lost := FirstMissing(front, have); if lost.Some? then lost else if c in have then None else Some(c)
  {
    assert (front + [c])[..|front|] == front;
  }

  /** Reading appended markers from inside an open bracket: the first missing one is lost. */
  function AfterSwallow(found: set<int>, inner: Text, citations: seq<int>, have: set<int>): Scan {
    var lost := FirstMissing(citations, have);
    if lost.None? then Scan(Some(inner), found) else Scan(None, found + (Elements(citations) - have - {lost.value}))
  }

  lemma SwallowSnoc(found: set<int>, inner: Text, front: seq<int>, c: int, have: set<int>)
    requires 0 < c <= MAX_INT && c !in front
    ensures AfterSwallow(found, inner, front + [c], have) ==
      if c in have then AfterSwallow(found, inner, front, have) else ReadAll(AfterSwallow(found, inner, front, have), Mark(c))
  {
    FirstMissingSnoc(front, c, have);
    var lost := FirstMissing(front, have);
    if lost.Some? {
      LostSnoc(found, front, c, have, lost.value);
      MarkFromOutside(found + (Elements(front) - have - {lost.value}), c);
    } else {
      MarkFromInside(found, inner, c);
      ElementsSnoc(front, c);
      assert c !in have ==> found + (Elements(front + [c]) - have - {c}) == found;
    }
  }

  lemma {:induction false} SuffixFromInside(found: set<int>, inner: Text, citations: seq<int>, have: set<int>)
    requires Numbers(citations) && Distinct(citations)
    ensures ReadAll(Scan(Some(inner), found), Suffix(citations, have)) == AfterSwallow(found, inner, citations, have)
  {
    if citations != [] {
      var n := |citations| - 1;
      var front, c := citations[..n], citations[n];
      assert citations == front + [c] && c !in front;
      SuffixFromInside(found, inner, front, have);
      SuffixSnoc(Scan(Some(inner), found), front, c, have);
      SwallowSnoc(found, inner, front, c, have);
    }
  }

  /**
   Scanning the returned text finds exactly the citations if and only if the answer left no '['
   open or no marker had to be appended.
   */
  lemma RescanFindsCitations(answer: Text, citations: seq<int>)
    requires Distinct(citations) && Numbers(citations)
    requires Markers(answer) <= Elements(citations)
    ensures Markers(answer + Suffix(citations, Markers(answer))) == Elements(citations)
       <==> !Unclosed(answer) || Elements(citations) <= Markers(answer)
  {
    var have := Markers(answer);
    var st := ReadAll(START, answer);
    ReadConcat(START, answer, Suffix(citations, have));
    if Unclosed(answer) {
      SuffixFromInside(have, st.open.value, citations, have);
      var lost := FirstMissing(citations, have);
      if lost.Some? {
        assert lost.value in Elements(citations) && lost.value !in have + (Elements(citations) - have - {lost.value});
      }
    } else {
      SuffixFromOutside(have, citations, have);
      assert have + (Elements(citations) - have) == Elements(citations);
    }
  }

  /** A dangling '[' makes a grounded answer lose its only citation on a second scan. */
  lemma UnclosedBracketExample()
    ensures Unclosed("[") && Markers("[") == {} && Markers("[" + Suffix([1], {})) != {1}
  {
    ReadOne(START, '[');
    assert Elements([1]) == {1};
    RescanFindsCitations("[", [1]);
  }

  // ---------- parsing the model's reply ----------

  datatype Parsed =
    | Rejected
    | NotGrounded(answer: Text)
    | Grounded(answer: Text, citations: seq<int>)

  predicate InRange(s: set<int>, sourceCount: int) {
    forall c :: c in s ==> 1 <= c <= sourceCount
  }

  /** c is mentioned before the first mention of d. */
  ghost predicate MentionedBefore(listed: seq<int>, c: int, d: int) {
    exists k :: 0 <= k < |listed| && listed[k] == c && d !in listed[..k]
  }

  /** Each number once, in the order of first mention. */
  function FirstMentions(listed: seq<int>): (r: seq<int>)
    ensures Distinct(r) && Elements(r) == Elements(listed) && (r == [] <==> listed == [])
  {
    if listed == [] then []
    else
      var front, last := listed[..|listed| - 1], listed[|listed| - 1];
      ElementsSnoc(front, last);
      assert listed == front + [last];
      var r := FirstMentions(front);
      ElementsSnoc(r, last);
      assert last in r ==> Elements(r) + {last} == Elements(r);
      assert last in Elements(listed);
      if last in r then r else r + [last]
  }

  lemma {:induction false} FirstMentionsInOrder(listed: seq<int>, i: nat, j: nat)
    requires i < j < |FirstMentions(listed)|
    ensures MentionedBefore(listed, FirstMentions(listed)[i], FirstMentions(listed)[j])
  {
    var front, last := listed[..|listed| - 1], listed[|listed| - 1];
    var r := FirstMentions(front);
    assert listed == front + [last];
    if j < |r| {
      FirstMentionsInOrder(front, i, j);
      var k :| 0 <= k < |front| && front[k] == r[i] && r[j] !in front[..k];
      assert listed[..k] == front[..k] && listed[k] == r[i];
    } else {
      assert r[i] in Elements(r);
      var k :| 0 <= k < |front| && front[k] == r[i];
      assert last !in Elements(r);
      assert last !in front;
      assert listed[..k] == front[..k] && listed[k] == r[i];
    }
  }

  /** The flag reports whether all numbers are in range. */
  method DistinctCitations(listed: seq<int>, sourceCount: int) returns (ok: bool, citations: seq<int>)
    ensures ok <==> InRange(Elements(listed), sourceCount)
    ensures ok ==> citations == FirstMentions(listed)
  {
    citations, ok := [], true;
    for i := 0 to |listed|
      invariant citations == FirstMentions(listed[..i])
      invariant InRange(Elements(listed[..i]), sourceCount)
    {
      assert listed[..i + 1] == listed[..i] + [listed[i]];
      assert listed[..i + 1][..i] == listed[..i];
      ElementsSnoc(listed[..i], listed[i]);
      if listed[i] < 1 || listed[i] > sourceCount {
        assert listed[i] in Elements(listed);
        return false, [];
      }
      if listed[i] !in citations {
        citations := citations + [listed[i]];
      }
    }
    assert listed[..|listed|] == listed;
  }

  predicate Ascending(s: seq<int>) {
    forall i, j :: 0 <= i < j < |s| ==> s[i] < s[j]
  }

  /** The numbers 1 to n that are in the set, in ascending order. */
  function InOrder(markers: set<int>, n: int): (r: seq<int>)
    ensures Ascending(r) && Distinct(r) && Elements(r) == set x | x in markers && 1 <= x <= n
    decreases if n < 0 then 0 else n
  {
    if n <= 0 then []
    else
      var r := InOrder(markers, n - 1);
      ElementsSnoc(r, n);
      assert forall i :: 0 <= i < |r| ==> r[i] in Elements(r);
      if n in markers then r + [n] else r
  }

  /** The markers of the text in ascending order. */
  method CitationsFromMarkers(markers: set<int>, sourceCount: int) returns (citations: seq<int>)
    ensures citations == InOrder(markers, sourceCount)
  {
    citations := [];
    var c := 1;
    while c <= sourceCount
      invariant 1 <= c && (c <= sourceCount + 1 || c == 1)
      invariant citations == InOrder(markers, c - 1)
    {
      if c in markers {
        citations := citations + [c];
      }
      c := c + 1;
    }
  }

  method CitationSuffix(citations: seq<int>, markers: set<int>) returns (suffix: Text)
    requires Numbers(citations)
    ensures suffix == Suffix(citations, markers)
  {
    suffix := [];
    for i := 0 to |citations|
      invariant suffix == Suffix(citations[..i], markers)
    {
      assert citations[..i + 1][..i] == citations[..i];
      if citations[i] !in markers {
        suffix := suffix + [' ', '['] + Itoa(citations[i]) + [']'];
        assert suffix == Suffix(citations[..i], markers) + Mark(citations[i]);
      }
    }
    assert citations[..|citations|] == citations;
  }

  /** The cases in which the reply is refused, read off the decoded reply alone. */
  predicate Refusable(answer: Text, listed: seq<int>, sourceCount: int) {
    || !InRange(Elements(listed), sourceCount)
    || !InRange(Markers(answer), sourceCount)
    || (listed != [] && !(Markers(answer) <= Elements(listed)))
  }

  /** The citations of a reply: those it lists, or else those its text marks. */
  function Cited(answer: Text, listed: seq<int>, sourceCount: int): seq<int> {
    if listed != [] then FirstMentions(listed) else InOrder(Markers(answer), sourceCount)
  }

  lemma CitedFacts(answer: Text, listed: seq<int>, sourceCount: int)
    requires !Refusable(answer, listed, sourceCount) && sourceCount <= MAX_INT
    ensures var c := Cited(answer, listed, sourceCount);
      && Distinct(c) && Numbers(c) && InRange(Elements(c), sourceCount) && Markers(answer) <= Elements(c)
      && Elements(c) == (if listed != [] then Elements(listed) else Markers(answer))
  {
    var c := Cited(answer, listed, sourceCount);
    forall i | 0 <= i < |c| ensures 0 < c[i] <= MAX_INT {
      assert c[i] in Elements(c);
    }
  }

  /** The reply's text with a marker for every citation that has none. */
  function FullText(answer: Text, listed: seq<int>, sourceCount: int): Text
    requires !Refusable(answer, listed, sourceCount) && sourceCount <= MAX_INT
  {
    CitedFacts(answer, listed, sourceCount);
    answer + Suffix(Cited(answer, listed, sourceCount), Markers(answer))
  }

  predicate RightLength(text: Text) {
    0 < |text| <= MAX_ANSWER_RUNES
  }

  /** What becomes of a decoded reply. */
  function Outcome(answer: Text, sufficient: bool, listed: seq<int>, sourceCount: int): Parsed
    requires sourceCount <= MAX_INT
  {
    if !RightLength(answer) then Rejected
    else if !sufficient then NotGrounded(answer)
    else if Refusable(answer, listed, sourceCount) then Rejected
    else if Cited(answer, listed, sourceCount) == [] then NotGrounded(answer)
    else if !RightLength(FullText(answer, listed, sourceCount)) then Rejected
    else Grounded(FullText(answer, listed, sourceCount), Cited(answer, listed, sourceCount))
  }

  /** It lists and marks only sources there are, and marks nothing outside a list it gives. */
  ghost predicate Sound(answer: Text, listed: seq<int>, sourceCount: int) {
    && (forall i :: 0 <= i < |listed| ==> 1 <= listed[i] <= sourceCount)
    && (forall c :: c in Markers(answer) ==> 1 <= c <= sourceCount)
    && (listed == [] || forall c :: c in Markers(answer) ==> c in listed)
  }

  predicate FitsInFull(answer: Text, listed: seq<int>, sourceCount: int)
    requires sourceCount <= MAX_INT
  {
    !Refusable(answer, listed, sourceCount) ==> |FullText(answer, listed, sourceCount)| <= 6000
  }

  lemma SoundIsNotRefusable(answer: Text, listed: seq<int>, sourceCount: int)
    ensures !Refusable(answer, listed, sourceCount) <==> Sound(answer, listed, sourceCount)
  {
    forall i | 0 <= i < |listed| ensures listed[i] in Elements(listed) {}
    assert forall c :: c in Elements(listed) <==> c in listed;
    assert InRange(Elements(listed), sourceCount) <==> forall i :: 0 <= i < |listed| ==> 1 <= listed[i] <= sourceCount;
    WithinElements(Markers(answer), listed);
  }

  lemma WithinElements(s: set<int>, listed: seq<int>)
    ensures s <= Elements(listed) <==> forall c :: c in s ==> c in listed
  {
    if forall c :: c in s ==> c in listed {
      forall c | c in s ensures c in Elements(listed) {}
    } else {
      var c :| c in s && c !in listed;
      assert c !in Elements(listed);
    }
  }

  lemma NothingCited(answer: Text, listed: seq<int>, sourceCount: int)
    requires !Refusable(answer, listed, sourceCount) && sourceCount <= MAX_INT
    ensures Cited(answer, listed, sourceCount) == [] <==> listed == [] && Markers(answer) == {}
  {
    var c := Cited(answer, listed, sourceCount);
    CitedFacts(answer, listed, sourceCount);
    assert c != [] ==> c[0] in Elements(c);
    assert listed != [] ==> listed[0] in Elements(listed);
  }

  /**
   Which reply gets which answer. It is grounded exactly when it has the right length, calls
   itself sufficient, is sound, cites at least one source, and fits with the missing markers
   appended; it stays ungrounded exactly when it has the right length and is insufficient or
   cites nothing.
   */
  lemma OutcomeExactly(answer: Text, sufficient: bool, listed: seq<int>, sourceCount: int)
    requires sourceCount <= MAX_INT
    ensures var r := Outcome(answer, sufficient, listed, sourceCount);
      var cites := listed != [] || Markers(answer) != {};
      && (r.Grounded? <==>
            && 0 < |answer| <= 6000 && sufficient && Sound(answer, listed, sourceCount) && cites
            && FitsInFull(answer, listed, sourceCount))
      && (r.NotGrounded? <==> 0 < |answer| <= 6000 && (!sufficient || (Sound(answer, listed, sourceCount) && !cites)))
      && (r.NotGrounded? ==> r.answer == answer)
  {
    SoundIsNotRefusable(answer, listed, sourceCount);
    if !Refusable(answer, listed, sourceCount) {
      NothingCited(answer, listed, sourceCount);
    }
  }

  /** A grounded answer cites something, each source once and in range, and shows what it cites unless a bracket is open. */
  lemma GroundedMeans(answer: Text, sufficient: bool, listed: seq<int>, sourceCount: int)
    requires sourceCount <= MAX_INT && Outcome(answer, sufficient, listed, sourceCount).Grounded?
    ensures var r := Outcome(answer, sufficient, listed, sourceCount);
      && r.citations != [] && Distinct(r.citations) && InRange(Elements(r.citations), sourceCount)
      && Elements(r.citations) == (if listed != [] then Elements(listed) else Markers(answer))
      && answer <= r.answer && RightLength(r.answer)
      && (Markers(r.answer) == Elements(r.citations) <==> !Unclosed(answer) || r.answer == answer)
  {
    var c := Cited(answer, listed, sourceCount);
    CitedFacts(answer, listed, sourceCount);
    RescanFindsCitations(answer, c);
    SuffixEmpty(c, Markers(answer));
  }

  /** From the decoded and trimmed reply on. */
  method ParseModelAnswer(answer: Text, sufficient: bool, listed: seq<int>, sourceCount: int) returns (r: Parsed)
    requires sourceCount <= MAX_INT
    ensures r == Outcome(answer, sufficient, listed, sourceCount)
  {
    if answer == [] || |answer| > MAX_ANSWER_RUNES {
      return Rejected;
    }
    if !sufficient {
      return NotGrounded(answer);
    }
    var ok, citations := DistinctCitations(listed, sourceCount);
    if !ok {
      return Rejected;
    }
    var markers := CitationMarkers(answer);
    if !InRange(markers, sourceCount) {
      return Rejected;
    }
    if citations != [] && !(markers <= Elements(citations)) {
      return Rejected;
    }
    if citations == [] {
      citations := CitationsFromMarkers(markers, sourceCount);
    }
    if citations == [] {
      return NotGrounded(answer);
    }
    CitedFacts(answer, listed, sourceCount);
    var suffix := CitationSuffix(citations, markers);
    var full := answer + suffix;
    if |full| > MAX_ANSWER_RUNES {
      return Rejected;
    }
    return Grounded(full, citations);
  }

  lemma {:induction false} SuffixEmpty(citations: seq<int>, have: set<int>)
    requires Numbers(citations)
    ensures Suffix(citations, have) == [] <==> Elements(citations) <= have
  {
    if citations != [] {
      var n := |citations| - 1;
      SuffixEmpty(citations[..n], have);
      ElementsSnoc(citations[..n], citations[n]);
      assert citations == citations[..n] + [citations[n]];
    }
  }
}
