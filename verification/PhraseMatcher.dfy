/** Phrase normalization and search (src/core/phrase_matcher.cpp). Text is bytes; character classes are those of
    the C locale. */
module PhraseMatcher {
  import opened Wrappers

  type Text = seq<Byte>

  const SPACE: Byte := 32

  datatype Boundary = Substring | WholeWord | WholeText

  datatype Punctuation = Significant | Separator

  datatype Options = Options(caseSensitive: bool, boundary: Boundary, punctuation: Punctuation)

  const DEFAULT := Options(false, Substring, Significant)

  datatype Match = Match(start: nat, end: nat, phrase: Text)

  predicate IsSpace(b: Byte) { b == 32 || 9 <= b <= 13 }

  predicate IsPunct(b: Byte) { 33 <= b <= 47 || 58 <= b <= 64 || 91 <= b <= 96 || 123 <= b <= 126 }

  predicate IsAlnum(b: Byte) { 48 <= b <= 57 || 65 <= b <= 90 || 97 <= b <= 122 }

  function ToLower(b: Byte): Byte { if 65 <= b <= 90 then b + 32 else b }

  // ---- normalization: what the loop computes, as words ------------------------------------------------

  /** How one normalization treats a byte: which bytes separate words, and whether case is kept. */
  datatype Mode = Mode(punctuation: Punctuation, keepCase: bool)

  function ModeOf(o: Options): Mode { Mode(o.punctuation, o.caseSensitive) }

  predicate Separates(m: Mode, b: Byte)
  {
    IsSpace(b) || (m.punctuation.Separator? && IsPunct(b))
  }

  function Fold(m: Mode, b: Byte): Byte
  {
    if m.keepCase then b else ToLower(b)
  }

  // Finished words and the word being read.
  datatype Scan = Scan(done: seq<Text>, current: Text)

  function Feed(m: Mode, s: Scan, b: Byte): Scan
  {
    if !Separates(m, b) then Scan(s.done, s.current + [Fold(m, b)])
    else if s.current == [] then s
    else Scan(s.done + [s.current], [])
  }

  function ScanText(m: Mode, t: Text): Scan
  {
    if t == [] then Scan([], []) else Feed(m, ScanText(m, t[..|t| - 1]), t[|t| - 1])
  }

  function WordsOf(s: Scan): seq<Text>
  {
    if s.current == [] then s.done else s.done + [s.current]
  }

  function JoinWords(words: seq<Text>): Text
  {
    if words == [] then []
    else if |words| == 1 then words[0]
    else JoinWords(words[..|words| - 1]) + [SPACE] + words[|words| - 1]
  }

  /** The words of the text under the mode, separated by single spaces. */
  function Normalize(m: Mode, t: Text): Text
  {
    JoinWords(WordsOf(ScanText(m, t)))
  }

  /** The string the loop has built so far: a finished word is followed by its space at once. */
  function Built(s: Scan): Text
  {
    if s.current != [] || s.done == [] then JoinWords(WordsOf(s)) else JoinWords(s.done) + [SPACE]
  }

  ghost predicate WordsNonEmpty(s: Scan)
  {
    forall w :: w in s.done ==> w != []
  }

  lemma {:induction false} ScanWordsNonEmpty(m: Mode, t: Text)
    ensures WordsNonEmpty(ScanText(m, t))
  {
    if t != [] {
      ScanWordsNonEmpty(m, t[..|t| - 1]);
    }
  }

  /** Reading a word byte appends it to what is built. */
  lemma BuiltGrows(s: Scan, b: Byte)
    ensures Built(Scan(s.done, s.current + [b])) == Built(s) + [b]
  {
    var t := Scan(s.done, s.current + [b]);
    assert WordsOf(t)[..|WordsOf(t)| - 1] == s.done;
    if s.current != [] {
      assert WordsOf(s)[..|WordsOf(s)| - 1] == s.done;
    }
  }

  lemma LastWordEndsJoin(words: seq<Text>)
    requires words != []
    ensures var j, last := JoinWords(words), words[|words| - 1];
      |j| >= |last| && j[|j| - |last|..] == last
  {
  }

  /** normalize_impl: collapse separators to one space, drop them at both ends, fold case. */
  method NormalizeText(t: Text, m: Mode) returns (normalized: Text)
    ensures normalized == Normalize(m, t)
  {
    hide Separates, Fold;
    normalized := [];
    var previousWasSpace := false;
    for i := 0 to |t|
      invariant normalized == Built(ScanText(m, t[..i]))
      invariant previousWasSpace ==> ScanText(m, t[..i]).current == []
      invariant !previousWasSpace && i > 0 ==> ScanText(m, t[..i]).current != []
    {
      assert t[..i + 1][..i] == t[..i];
      ghost var s := ScanText(m, t[..i]);
      ScanWordsNonEmpty(m, t[..i]);
      BuiltEmpty(s);
      if Separates(m, t[i]) {
        if normalized != [] && !previousWasSpace {
          normalized := normalized + [SPACE];
        }
        previousWasSpace := true;
      } else {
        BuiltGrows(s, Fold(m, t[i]));
        normalized := normalized + [Fold(m, t[i])];
        previousWasSpace := false;
      }
    }
    assert t[..|t|] == t;
    normalized := DropTrailingSpace(normalized, m, t);
  }

  /** Nothing is built exactly while no word byte has been read. */
  lemma BuiltEmpty(s: Scan)
    requires WordsNonEmpty(s)
    ensures Built(s) == [] <==> s == Scan([], [])
  {
    if WordsOf(s) != [] {
      LastWordEndsJoin(WordsOf(s));
    }
  }

  lemma NoWordsExactlyWhenBlank(s: Scan)
    requires WordsNonEmpty(s)
    ensures JoinWords(WordsOf(s)) == [] <==> s == Scan([], [])
  {
    if WordsOf(s) != [] {
      assert s.current == [] ==> s.done[|s.done| - 1] in s.done;
      LastWordEndsJoin(WordsOf(s));
    }
  }

  method DropTrailingSpace(built: Text, ghost m: Mode, ghost t: Text) returns (r: Text)
    requires built == Built(ScanText(m, t))
    ensures r == Normalize(m, t)
  {
    r := built;
    ghost var s := ScanText(m, t);
    CurrentHasNoSpace(m, t);
    if s.current != [] {
      LastWordEndsJoin(WordsOf(s));
    }
    if r != [] && r[|r| - 1] == SPACE {
      r := r[..|r| - 1];
      assert s.current == [];
    }
  }

  lemma {:induction false} CurrentHasNoSpace(m: Mode, t: Text)
    ensures SPACE !in ScanText(m, t).current
  {
    if t != [] {
      CurrentHasNoSpace(m, t[..|t| - 1]);
    }
  }

  // ---- re-normalizing ----------------------------------------------------------------------------------

  /** Mode `outer` sees through what mode `inner` does: it separates at least as much and folds at least as far. */
  ghost predicate SeesThrough(outer: Mode, inner: Mode)
  {
    forall b: Byte ::
      (Separates(inner, b) ==> Separates(outer, b)) &&
      (!Separates(inner, b) ==>
        (Separates(outer, Fold(inner, b)) <==> Separates(outer, b)) && Fold(outer, Fold(inner, b)) == Fold(outer, b))
  }

  lemma SeesThroughExactly(outer: Mode, inner: Mode)
    requires inner.punctuation.Separator? ==> outer.punctuation.Separator?
    requires outer.keepCase ==> inner.keepCase
    ensures SeesThrough(outer, inner)
  {
  }

  lemma {:induction false} AtRestTogether(outer: Mode, inner: Mode, t: Text)
    requires SeesThrough(outer, inner) && ScanText(inner, t).current == []
    ensures ScanText(outer, t).current == []
  {
    if t != [] {
      var b := t[|t| - 1];
      assert Separates(inner, b);
    }
  }

  lemma ScanOneMore(m: Mode, t: Text, b: Byte)
    ensures ScanText(m, t + [b]) == Feed(m, ScanText(m, t), b)
  {
    assert (t + [b])[..|t + [b]| - 1] == t;
  }

  /** Scanning the partly built normal form gives the same words as scanning the text itself. */
  lemma {:induction false} ScanOfBuilt(outer: Mode, inner: Mode, t: Text)
    requires SeesThrough(outer, inner)
    ensures ScanText(outer, Built(ScanText(inner, t))) == ScanText(outer, t)
  {
    hide Separates, Fold;
    if t != [] {
      var front, b := t[..|t| - 1], t[|t| - 1];
      var s := ScanText(inner, front);
      ScanOfBuilt(outer, inner, front);
      assert Separates(outer, SPACE) by { SpaceSeparates(outer); }
      if !Separates(inner, b) {
        BuiltGrows(s, Fold(inner, b));
        ScanOneMore(outer, Built(s), Fold(inner, b));
      } else if s.current == [] {
        AtRestTogether(outer, inner, front);
      } else {
        ScanOneMore(outer, Built(s), SPACE);
      }
    }
  }

  lemma SpaceSeparates(m: Mode)
    ensures Separates(m, SPACE)
  {
  }

  /** Normalizing a normalized text with a mode that sees through the first is normalizing the text. */
  lemma NormalizeThrough(outer: Mode, inner: Mode, t: Text)
    requires SeesThrough(outer, inner)
    ensures Normalize(outer, Normalize(inner, t)) == Normalize(outer, t)
  {
    var s := ScanText(inner, t);
    ScanOfBuilt(outer, inner, t);
    SpaceSeparates(outer);
    if s.current == [] && s.done != [] {
      ScanOneMore(outer, JoinWords(s.done), SPACE);
    }
  }

  lemma NormalizeIsIdempotent(m: Mode, t: Text)
    ensures Normalize(m, Normalize(m, t)) == Normalize(m, t)
  {
    SeesThroughExactly(m, m);
    NormalizeThrough(m, m, t);
  }

  const PRESERVING := Mode(Significant, true)

  /** The spelling kept at configuration normalizes, under any options, as the original phrase does. */
  lemma StoredSpellingNormalizesAlike(o: Options, phrase: Text)
    ensures Normalize(ModeOf(o), Normalize(PRESERVING, phrase)) == Normalize(ModeOf(o), phrase)
  {
    SeesThroughExactly(ModeOf(o), PRESERVING);
    NormalizeThrough(ModeOf(o), PRESERVING, phrase);
  }

  // ---- configuration -----------------------------------------------------------------------------------

  // phrases_ and original_phrases_, entry by entry.
  datatype Config = Config(phrases: seq<Text>, originals: seq<Text>)

  function Configure(phrases: seq<Text>): (c: Config)
    ensures |c.phrases| == |c.originals|
  {
    if phrases == [] then Config([], [])
    else
      var c, p := Configure(phrases[..|phrases| - 1]), phrases[|phrases| - 1];
      var n := Normalize(ModeOf(DEFAULT), p);
      if n == [] || n in c.phrases then c else Config(c.phrases + [n], c.originals + [Normalize(PRESERVING, p)])
  }

  method SetPhrases(phrases: seq<Text>) returns (c: Config)
    ensures c == Configure(phrases)
  {
    c := Config([], []);
    for i := 0 to |phrases|
      invariant c == Configure(phrases[..i])
    {
      assert phrases[..i + 1][..i] == phrases[..i];
      var normalized := NormalizeText(phrases[i], ModeOf(DEFAULT));
      if normalized != [] && normalized !in c.phrases {
        var original := NormalizeText(phrases[i], PRESERVING);
        c := Config(c.phrases + [normalized], c.originals + [original]);
      }
    }
    assert phrases[..|phrases|] == phrases;
  }

  /** A phrase that is blank by default is blank under every option set. */
  lemma BlankStaysBlank(o: Options, p: Text)
    requires Normalize(ModeOf(DEFAULT), p) == []
    ensures Normalize(ModeOf(o), p) == []
  {
    StoredSpellingNormalizesAlike(o, p);
    ScanWordsNonEmpty(ModeOf(DEFAULT), p);
    NoWordsExactlyWhenBlank(ScanText(ModeOf(DEFAULT), p));
    SameWordCount(p);
    assert ScanText(PRESERVING, p) == Scan([], []);
    assert ScanText(ModeOf(o), []) == Scan([], []);
  }

  lemma {:induction false} SameWordCount(p: Text)
    ensures var d, s := ScanText(ModeOf(DEFAULT), p), ScanText(PRESERVING, p);
      |d.done| == |s.done| && |d.current| == |s.current|
  {
    if p != [] {
      SameWordCount(p[..|p| - 1]);
    }
  }

  /** Deduplication at configuration loses nothing under case-insensitive options: every configured phrase that
      is not blank has a stored spelling with the same normal form. */
  lemma {:induction false} DeduplicationLosesNothing(phrases: seq<Text>, o: Options, p: Text)
    requires !o.caseSensitive && p in phrases && Normalize(ModeOf(o), p) != []
    ensures exists q :: q in Configure(phrases).originals && Normalize(ModeOf(o), q) == Normalize(ModeOf(o), p)
  {
    var front, last := phrases[..|phrases| - 1], phrases[|phrases| - 1];
    assert phrases == front + [last];
    if p in front {
      DeduplicationLosesNothing(front, o, p);
    } else {
      var c, n := Configure(front), Normalize(ModeOf(DEFAULT), p);
      if n == [] {
        BlankStaysBlank(o, p);
      } else if n in c.phrases {
        StoredFor(front, o, n);
        SeesThroughExactly(ModeOf(o), ModeOf(DEFAULT));
        NormalizeThrough(ModeOf(o), ModeOf(DEFAULT), p);
      } else {
        StoredSpellingNormalizesAlike(o, p);
        assert Normalize(PRESERVING, p) in Configure(phrases).originals;
      }
    }
  }

  /** Behind each stored normal form stands a stored spelling with that meaning. */
  lemma {:induction false} StoredFor(phrases: seq<Text>, o: Options, n: Text)
    requires !o.caseSensitive && n in Configure(phrases).phrases
    ensures exists q :: q in Configure(phrases).originals && Normalize(ModeOf(o), q) == Normalize(ModeOf(o), n)
  {
    var front, p := phrases[..|phrases| - 1], phrases[|phrases| - 1];
    if n in Configure(front).phrases {
      StoredFor(front, o, n);
    } else {
      assert n == Normalize(ModeOf(DEFAULT), p);
      SeesThroughExactly(ModeOf(o), ModeOf(DEFAULT));
      NormalizeThrough(ModeOf(o), ModeOf(DEFAULT), p);
      StoredSpellingNormalizesAlike(o, p);
      assert Normalize(PRESERVING, p) in Configure(phrases).originals;
    }
  }

  // ---- search -------------------------------------------------------------------------------------------

  predicate IsWordCharacter(b: Byte)
  {
    IsAlnum(b) || b == 95
  }

  predicate OccursAt(text: Text, phrase: Text, pos: nat)
  {
    pos + |phrase| <= |text| && text[pos..pos + |phrase|] == phrase
  }

  predicate RespectsBoundary(text: Text, pos: nat, length: nat, boundary: Boundary)
  {
    match boundary
    case Substring => true
    case WholeText => pos == 0 && length == |text|
    case WholeWord =>
      !(0 < pos <= |text| && IsWordCharacter(text[pos - 1])) &&
      !(pos + length < |text| && IsWordCharacter(text[pos + length]))
  }

  /** The phrase stands at that position of the text, within the boundary rule. */
  predicate IsHit(text: Text, phrase: Text, o: Options, pos: nat)
  {
    OccursAt(text, phrase, pos) && RespectsBoundary(text, pos, |phrase|, o.boundary)
  }

  function HitOf(phrase: Text, pos: nat): Match
  {
    Match(pos, pos + |phrase|, phrase)
  }

  /** The phrases searched for: distinct non-empty normal forms of the stored spellings. */
  function Effective(o: Options, originals: seq<Text>): seq<Text>
  {
    if originals == [] then []
    else
      var rest := Effective(o, originals[..|originals| - 1]);
      var n := Normalize(ModeOf(o), originals[|originals| - 1]);
      if n == [] || n in rest then rest else rest + [n]
  }

  lemma {:induction false} EffectiveIsExact(o: Options, originals: seq<Text>, p: Text)
    ensures p in Effective(o, originals) <==> p != [] && exists q :: q in originals && Normalize(ModeOf(o), q) == p
  {
    if originals != [] {
      var front, last := originals[..|originals| - 1], originals[|originals| - 1];
      assert originals == front + [last];
      EffectiveIsExact(o, front, p);
    }
  }

  /** What find must return: every hit of every effective phrase and nothing else. */
  ghost predicate IsAnswer(m: Match, text: Text, o: Options, originals: seq<Text>)
  {
    m.phrase in Effective(o, originals) && m.end == m.start + |m.phrase| && IsHit(text, m.phrase, o, m.start)
  }

  predicate LexLess(a: Text, b: Text)
  {
    b != [] && (a == [] || a[0] < b[0] || (a[0] == b[0] && LexLess(a[1..], b[1..])))
  }

  /** The comparison of the final sort. */
  predicate Before(x: Match, y: Match)
  {
    x.start < y.start ||
    (x.start == y.start && (x.end < y.end || (x.end == y.end && LexLess(x.phrase, y.phrase))))
  }

  /** Strictly increasing by start, then end: sorted and free of duplicates. */
  ghost predicate StrictlySorted(q: seq<Match>)
  {
    forall i, j :: 0 <= i < j < |q| ==>
      q[i].start < q[j].start || (q[i].start == q[j].start && q[i].end < q[j].end)
  }

  function Insert(x: Match, q: seq<Match>): seq<Match>
  {
    if q == [] || Before(x, q[0]) then [x] + q else [q[0]] + Insert(x, q[1..])
  }

  lemma {:induction false} InsertKeepsOrder(x: Match, q: seq<Match>)
    requires StrictlySorted(q) && forall y :: y in q ==> y.start != x.start || y.end != x.end
    ensures StrictlySorted(Insert(x, q))
    ensures forall y :: y in Insert(x, q) <==> y == x || y in q
  {
    hide LexLess;
    if q != [] && !Before(x, q[0]) {
      var rest := Insert(x, q[1..]);
      assert q == [q[0]] + q[1..];
      InsertKeepsOrder(x, q[1..]);
      forall j | 0 <= j < |rest|
        ensures q[0].start < rest[j].start || (q[0].start == rest[j].start && q[0].end < rest[j].end)
      {
        assert rest[j] in rest;
        if rest[j] != x {
          var k :| 0 <= k < |q[1..]| && q[1..][k] == rest[j];
          assert q[k + 1] == rest[j];
        }
      }
    }
  }

  /** std::string::find: the first occurrence at or after `from`. */
  method FindFrom(text: Text, phrase: Text, from: nat) returns (pos: Option<nat>)
    ensures pos.Some? ==> from <= pos.value && OccursAt(text, phrase, pos.value)
    ensures pos.Some? ==> forall k :: from <= k < pos.value ==> !OccursAt(text, phrase, k)
    ensures pos.None? ==> forall k :: from <= k ==> !OccursAt(text, phrase, k)
  {
    var k := from;
    while k + |phrase| <= |text|
      invariant from <= k
      invariant forall j :: from <= j < k ==> !OccursAt(text, phrase, j)
      decreases |text| - k
    {
      if text[k..k + |phrase|] == phrase {
        return Some(k);
      }
      k := k + 1;
    }
    return None;
  }

  /** Two different phrases never hit with the same start and end. */
  lemma HitsAreKeyed(text: Text, o: Options, x: Match, originals: seq<Text>, y: Match)
    requires IsAnswer(x, text, o, originals) && IsAnswer(y, text, o, originals) && x != y
    ensures x.start != y.start || x.end != y.end
  {
  }

  /** No two entries with the same start and end. */
  ghost predicate Keyed(q: seq<Match>)
  {
    forall i, j :: 0 <= i < j < |q| ==> q[i].start != q[j].start || q[i].end != q[j].end
  }

  /** The final std::sort, by insertion: the keys differ, so any sort gives this order. */
  method SortMatches(q: seq<Match>) returns (sorted: seq<Match>)
    requires Keyed(q)
    ensures StrictlySorted(sorted) && forall m :: m in sorted <==> m in q
  {
    sorted := [];
    for i := 0 to |q|
      invariant StrictlySorted(sorted) && forall m :: m in sorted <==> m in q[..i]
    {
      assert q[..i + 1] == q[..i] + [q[i]];
      forall y | y in sorted ensures y.start != q[i].start || y.end != q[i].end {
        var k :| 0 <= k < i && q[..i][k] == y;
        assert q[k] == y;
      }
      InsertKeepsOrder(q[i], sorted);
      sorted := Insert(q[i], sorted);
    }
    assert q[..|q|] == q;
  }

  /** The inner loop of find: all hits of one phrase, overlapping ones included. */
  method FindPhrase(text: Text, phrase: Text, o: Options, ghost originals: seq<Text>, before: seq<Match>)
    returns (matches: seq<Match>)
    requires phrase != [] && phrase in Effective(o, originals)
    requires Keyed(before) && forall m :: m in before ==> IsAnswer(m, text, o, originals) && m.phrase != phrase
    ensures Keyed(matches)
    ensures forall m ::
      m in matches <==> m in before || (m == HitOf(phrase, m.start) && IsHit(text, phrase, o, m.start))
    ensures forall m :: m in matches ==> IsAnswer(m, text, o, originals)
  {
    hide RespectsBoundary, Effective, LexLess;
    matches := before;
    var searchFrom := 0;
    while searchFrom < |text|
      invariant Keyed(matches)
      invariant forall m :: m in matches <==>
        m in before || (m == HitOf(phrase, m.start) && m.start < searchFrom && IsHit(text, phrase, o, m.start))
      invariant forall m :: m in matches ==> IsAnswer(m, text, o, originals)
      decreases |text| - searchFrom
    {
      var position := FindFrom(text, phrase, searchFrom);
      if position.None? {
        break;
      }
      if RespectsBoundary(text, position.value, |phrase|, o.boundary) {
        var hit := HitOf(phrase, position.value);
        forall y | y in matches ensures y.start != hit.start || y.end != hit.end {
          HitsAreKeyed(text, o, hit, originals, y);
        }
        matches := matches + [hit];
      }
      searchFrom := position.value + 1;
    }
  }

  method EffectivePhrases(o: Options, originals: seq<Text>) returns (phrases: seq<Text>)
    ensures phrases == Effective(o, originals)
  {
    phrases := [];
    for i := 0 to |originals|
      invariant phrases == Effective(o, originals[..i])
    {
      assert originals[..i + 1][..i] == originals[..i];
      var n := NormalizeText(originals[i], ModeOf(o));
      if n != [] && n !in phrases {
        phrases := phrases + [n];
      }
    }
    assert originals[..|originals|] == originals;
  }

  lemma {:induction false} EffectiveIsDistinct(o: Options, originals: seq<Text>, i: nat, j: nat)
    requires i < j < |Effective(o, originals)|
    ensures Effective(o, originals)[i] != Effective(o, originals)[j]
  {
    var front := originals[..|originals| - 1];
    if j < |Effective(o, front)| {
      EffectiveIsDistinct(o, front, i, j);
    }
  }

  /** find(): exactly the (position, phrase) pairs that occur in the normalized text and respect the boundary
      rule, overlapping ones included, strictly sorted and without duplicates. */
  method Find(text: Text, o: Options, originals: seq<Text>) returns (matches: seq<Match>)
    ensures StrictlySorted(matches)
    ensures forall m :: m in matches <==> IsAnswer(m, Normalize(ModeOf(o), text), o, originals)
  {
    hide RespectsBoundary, Normalize;
    var normalized := NormalizeText(text, ModeOf(o));
    var phrases := EffectivePhrases(o, originals);
    matches := [];
    for i := 0 to |phrases|
      invariant Keyed(matches)
      invariant forall m :: m in matches <==> m.phrase in phrases[..i] && IsAnswer(m, normalized, o, originals)
    {
      EffectiveIsExact(o, originals, phrases[i]);
      forall k | 0 <= k < i ensures phrases[k] != phrases[i] {
        EffectiveIsDistinct(o, originals, k, i);
      }
      assert phrases[..i + 1] == phrases[..i] + [phrases[i]];
      matches := FindPhrase(normalized, phrases[i], o, originals, matches);
    }
    assert phrases[..|phrases|] == phrases;
    matches := SortMatches(matches);
  }

  /** The text contains one of the configured phrases. */
  ghost predicate HasMatch(text: Text, o: Options, originals: seq<Text>)
  {
    exists m :: IsAnswer(m, Normalize(ModeOf(o), text), o, originals)
  }

  /** From configuration to answer, in the caller's terms: with case-insensitive options some match exists if
      and only if a configured phrase, normalized, stands in the normalized text within the boundary rule. */
  lemma ConfiguredPhrasesDecide(phrases: seq<Text>, o: Options, text: Text)
    requires !o.caseSensitive
    ensures HasMatch(text, o, Configure(phrases).originals) <==>
      exists p, pos: nat :: p in phrases && Normalize(ModeOf(o), p) != [] &&
        IsHit(Normalize(ModeOf(o), text), Normalize(ModeOf(o), p), o, pos)
  {
    hide RespectsBoundary, Normalize, Effective;
    var c, t := Configure(phrases), Normalize(ModeOf(o), text);
    if HasMatch(text, o, c.originals) {
      var m :| IsAnswer(m, t, o, c.originals);
      EffectiveIsExact(o, c.originals, m.phrase);
      var q :| q in c.originals && Normalize(ModeOf(o), q) == m.phrase;
      var p := OriginOf(phrases, o, q);
      assert IsHit(t, Normalize(ModeOf(o), p), o, m.start);
    }
    if p, pos: nat :| p in phrases && Normalize(ModeOf(o), p) != [] && IsHit(t, Normalize(ModeOf(o), p), o, pos) {
      var n := Normalize(ModeOf(o), p);
      DeduplicationLosesNothing(phrases, o, p);
      EffectiveIsExact(o, c.originals, n);
      assert IsAnswer(HitOf(n, pos), t, o, c.originals);
    }
  }

  /** Every stored spelling comes from a configured phrase of the same meaning. */
  lemma {:induction false} OriginOf(phrases: seq<Text>, o: Options, q: Text) returns (p: Text)
    requires q in Configure(phrases).originals
    ensures p in phrases && Normalize(ModeOf(o), p) == Normalize(ModeOf(o), q)
  {
    var front, last := phrases[..|phrases| - 1], phrases[|phrases| - 1];
    if q in Configure(front).originals {
      p := OriginOf(front, o, q);
    } else {
      p := last;
      StoredSpellingNormalizesAlike(o, last);
    }
  }
}
