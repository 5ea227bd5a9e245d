/** What normalization and the boundary rule mean, in terms of bytes (src/core/phrase_matcher.cpp:17-67). */
module PhraseMeaning {
  import opened Wrappers
  import opened PhraseMatcher

  // ---- bytes ----------------------------------------------------------------------------------------------

  /** A capital ASCII letter and its small form. */
  predicate CaseTwins(a: Byte, b: Byte)
  {
    ('A' as Byte <= a <= 'Z' as Byte && b == a + 32) || ('A' as Byte <= b <= 'Z' as Byte && a == b + 32)
  }

  /** Equal, or equal up to case when the mode does not keep case. */
  predicate Alike(m: Mode, a: Byte, b: Byte)
  {
    a == b || (!m.keepCase && CaseTwins(a, b))
  }

  predicate AlikeTexts(m: Mode, a: Text, b: Text)
  {
    |a| == |b| && forall i :: 0 <= i < |a| ==> Alike(m, a[i], b[i])
  }

  predicate LetterOrDigit(b: Byte)
  {
    '0' as Byte <= b <= '9' as Byte || 'A' as Byte <= b <= 'Z' as Byte || 'a' as Byte <= b <= 'z' as Byte
  }

  lemma FoldsExactly(m: Mode, a: Byte, b: Byte)
    ensures Fold(m, a) == Fold(m, b) <==> Alike(m, a, b)
    ensures Alike(m, a, Fold(m, a))
    ensures !m.keepCase ==> !('A' as Byte <= Fold(m, a) <= 'Z' as Byte)
  {
  }

  /** Blanks separate; so do the printable ASCII characters other than letters and digits, when punctuation does. */
  lemma SeparatesExactly(m: Mode, b: Byte)
    ensures Separates(m, b) <==>
      b == ' ' as Byte || 9 <= b <= 13 ||
      (m.punctuation.Separator? && '!' as Byte <= b <= '~' as Byte && !LetterOrDigit(b))
  {
  }

  // ---- the two laws of normalization ----------------------------------------------------------------------

  function Spaced(a: Text, b: Text): Text
  {
    if a == [] then b else if b == [] then a else a + [' ' as Byte] + b
  }

  predicate IsWord(m: Mode, w: Text)
  {
    forall b :: b in w ==> !Separates(m, b)
  }

  function Folded(m: Mode, w: Text): (f: Text)
    ensures |f| == |w| && forall i :: 0 <= i < |w| ==> f[i] == Fold(m, w[i])
  {
    seq(|w|, i requires 0 <= i < |w| => Fold(m, w[i]))
  }

  lemma {:induction false} ScanOfWord(m: Mode, w: Text)
    requires IsWord(m, w)
    ensures ScanText(m, w) == Scan([], Folded(m, w))
  {
    hide Separates, Fold;
    if w != [] {
      var init, b := w[..|w| - 1], w[|w| - 1];
      assert b in w && forall x :: x in init ==> x in w;
      ScanOfWord(m, init);
    }
  }

  /** A text without separators is folded byte by byte. */
  lemma NormalizeOfWord(m: Mode, w: Text)
    requires IsWord(m, w)
    ensures Normalize(m, w) == Folded(m, w)
  {
    ScanOfWord(m, w);
    hide Folded;
  }

  lemma {:induction false} ScanAfterRest(m: Mode, u: Text, t: Text)
    requires ScanText(m, u).current == []
    ensures ScanText(m, u + t) == Scan(ScanText(m, u).done + ScanText(m, t).done, ScanText(m, t).current)
  {
    hide Separates, Fold;
    if t == [] {
      assert u + t == u;
    } else {
      var init, b := t[..|t| - 1], t[|t| - 1];
      ScanAfterRest(m, u, init);
      ScanOneMore(m, u + init, b);
      assert (u + init) + [b] == u + t;
    }
  }

  lemma {:induction false} JoinOfBoth(a: seq<Text>, b: seq<Text>)
    requires (forall w :: w in a ==> w != []) && forall w :: w in b ==> w != []
    ensures JoinWords(a + b) == Spaced(JoinWords(a), JoinWords(b))
    decreases |b|
  {
    JoinIsEmpty(a);
    JoinIsEmpty(b);
    if b == [] {
      assert a + b == a;
    } else {
      var init, last := b[..|b| - 1], b[|b| - 1];
      assert b == init + [last] && (forall w :: w in init ==> w in b);
      JoinOfBoth(a, init);
      JoinIsEmpty(init);
      assert (a + b)[..|a + b| - 1] == a + init;
    }
  }

  lemma JoinIsEmpty(words: seq<Text>)
    requires forall w :: w in words ==> w != []
    ensures JoinWords(words) == [] <==> words == []
  {
    if words != [] {
      assert words[|words| - 1] in words;
      LastWordEndsJoin(words);
    }
  }

  lemma WordsAreNonEmpty(m: Mode, t: Text)
    ensures forall w :: w in WordsOf(ScanText(m, t)) ==> w != []
  {
    ScanWordsNonEmpty(m, t);
  }

  /** A separator anywhere splits the text: the two sides are normalized apart, with one space between them unless one
      side is blank. */
  lemma NormalizeAroundSeparator(m: Mode, s: Text, separator: Byte, t: Text)
    requires Separates(m, separator)
    ensures Normalize(m, s + [separator] + t) == Spaced(Normalize(m, s), Normalize(m, t))
  {
    hide Separates, Fold, ScanText;
    ScanOneMore(m, s, separator);
    ScanAfterRest(m, s + [separator], t);
    var a, b := WordsOf(ScanText(m, s)), WordsOf(ScanText(m, t));
    assert WordsOf(ScanText(m, (s + [separator]) + t)) == a + b;
    WordsAreNonEmpty(m, s);
    WordsAreNonEmpty(m, t);
    JoinOfBoth(a, b);
  }

  /** These two laws leave no choice: whatever obeys them is normalization. */
  lemma {:induction false} LawsDetermineNormalize(m: Mode, normalize: Text -> Text, t: Text)
    requires forall w :: IsWord(m, w) ==> normalize(w) == Folded(m, w)
    requires forall s, b, u :: Separates(m, b) ==> normalize(s + [b] + u) == Spaced(normalize(s), normalize(u))
    ensures normalize(t) == Normalize(m, t)
    decreases |t|
  {
    hide Separates, Fold, Normalize, Folded;
    if IsWord(m, t) {
      NormalizeOfWord(m, t);
    } else {
      var b :| b in t && Separates(m, b);
      var i :| 0 <= i < |t| && t[i] == b;
      assert t == t[..i] + [b] + t[i + 1..];
      LawsDetermineNormalize(m, normalize, t[..i]);
      LawsDetermineNormalize(m, normalize, t[i + 1..]);
      NormalizeAroundSeparator(m, t[..i], b, t[i + 1..]);
    }
  }

  // ---- case -----------------------------------------------------------------------------------------------

  lemma {:induction false} NoCapitalIsRead(m: Mode, t: Text)
    requires !m.keepCase
    ensures forall w, b: Byte :: w in WordsOf(ScanText(m, t)) && b in w ==> !('A' as Byte <= b <= 'Z' as Byte)
  {
    hide Separates, Fold;
    if t != [] {
      var b := t[|t| - 1];
      NoCapitalIsRead(m, t[..|t| - 1]);
      FoldsExactly(m, b, b);
      var s := ScanText(m, t[..|t| - 1]);
      assert forall w :: w in s.done ==> w in WordsOf(s);
      assert s.current != [] ==> s.current in WordsOf(s);
    }
  }

  lemma {:induction false} JoinedBytes(words: seq<Text>, b: Byte)
    requires b in JoinWords(words)
    ensures b == SPACE || exists w :: w in words && b in w
    decreases |words|
  {
    if |words| > 1 {
      var init, last := words[..|words| - 1], words[|words| - 1];
      assert words == init + [last] && last in words;
      if b in JoinWords(init) {
        JoinedBytes(init, b);
        if w :| w in init && b in w {
          assert w in words;
        }
      }
    } else {
      assert words[0] in words;
    }
  }

  /** Unless case is kept, no capital letter is left. */
  lemma NoCapitalIsLeft(m: Mode, t: Text, b: Byte)
    requires !m.keepCase && b in Normalize(m, t)
    ensures !('A' as Byte <= b <= 'Z' as Byte)
  {
    hide ScanText, WordsOf;
    NoCapitalIsRead(m, t);
    JoinedBytes(WordsOf(ScanText(m, t)), b);
  }

  /** The words of the text, byte for byte. */
  function PlainWords(m: Mode, t: Text): seq<Text>
  {
    WordsOf(ScanText(m.(keepCase := true), t))
  }

  lemma {:induction false} ScanFolds(m: Mode, t: Text)
    ensures var s, plain := ScanText(m, t), ScanText(m.(keepCase := true), t);
      |s.done| == |plain.done| && s.current == Folded(m, plain.current) &&
      forall i :: 0 <= i < |s.done| ==> s.done[i] == Folded(m, plain.done[i])
  {
    if t != [] {
      ScanFolds(m, t[..|t| - 1]);
    }
  }

  /** Scanning the normal form finds the same words again. */
  lemma WordsOfNormalForm(m: Mode, t: Text)
    ensures WordsOf(ScanText(m, Normalize(m, t))) == WordsOf(ScanText(m, t))
  {
    var s := ScanText(m, t);
    SeesThroughExactly(m, m);
    ScanOfBuilt(m, m, t);
    SpaceSeparates(m);
    if s.current == [] && s.done != [] {
      ScanOneMore(m, JoinWords(s.done), SPACE);
    }
  }

  lemma FoldedAlike(m: Mode, a: Text, b: Text)
    ensures Folded(m, a) == Folded(m, b) <==> AlikeTexts(m, a, b)
  {
    hide Fold, Alike;
    forall x, y ensures Fold(m, x) == Fold(m, y) <==> Alike(m, x, y) {
      FoldsExactly(m, x, y);
    }
    if Folded(m, a) == Folded(m, b) {
      assert |a| == |b|;
      forall i | 0 <= i < |a| ensures Alike(m, a[i], b[i]) {
        assert Folded(m, a)[i] == Folded(m, b)[i];
      }
    }
  }

  /** Two texts have the same normal form if and only if they are made of the same words, up to case unless it is
      kept. */
  lemma SameNormalFormExactly(m: Mode, t: Text, u: Text)
    ensures Normalize(m, t) == Normalize(m, u) <==>
      var a, b := PlainWords(m, t), PlainWords(m, u);
      |a| == |b| && forall i :: 0 <= i < |a| ==> AlikeTexts(m, a[i], b[i])
  {
    hide ScanText, AlikeTexts, Folded;
    var v, w, a, b := WordsOf(ScanText(m, t)), WordsOf(ScanText(m, u)), PlainWords(m, t), PlainWords(m, u);
    FoldedWords(m, t);
    FoldedWords(m, u);
    WordsOfNormalForm(m, t);
    WordsOfNormalForm(m, u);
    forall x, y ensures Folded(m, x) == Folded(m, y) <==> AlikeTexts(m, x, y) {
      FoldedAlike(m, x, y);
    }
    if |a| == |b| && forall i :: 0 <= i < |a| ==> AlikeTexts(m, a[i], b[i]) {
      assert v == w;
    }
  }

  lemma FoldedWords(m: Mode, t: Text)
    ensures var v, a := WordsOf(ScanText(m, t)), PlainWords(m, t);
      |v| == |a| && forall i :: 0 <= i < |a| ==> v[i] == Folded(m, a[i])
  {
    ScanFolds(m, t);
    hide Folded, ScanText;
  }

  /** In particular texts that agree byte by byte up to case do. */
  lemma CaseIsFolded(m: Mode, t: Text, u: Text)
    requires AlikeTexts(m, t, u)
    ensures Normalize(m, t) == Normalize(m, u)
  {
    hide Separates, Fold, Alike;
    ScansAlike(m, t, u);
  }

  lemma {:induction false} ScansAlike(m: Mode, t: Text, u: Text)
    requires AlikeTexts(m, t, u)
    ensures ScanText(m, t) == ScanText(m, u)
  {
    if t != [] {
      assert Alike(m, t[|t| - 1], u[|u| - 1]);
      ScansAlike(m, t[..|t| - 1], u[..|u| - 1]);
    }
  }

  // ---- hits -----------------------------------------------------------------------------------------------

  predicate WordByte(b: Byte)
  {
    LetterOrDigit(b) || b == '_' as Byte
  }

  /** What may stand on either side of a hit. */
  predicate MayStandAround(before: Text, after: Text, boundary: Boundary)
  {
    match boundary
    case Substring => true
    case WholeText => before == [] && after == []
    case WholeWord =>
      (before == [] || !WordByte(before[|before| - 1])) && (after == [] || !WordByte(after[0]))
  }

  /** A hit splits the text: what stands before and after it is free, absent, or not a letter, digit or underscore, as
      the boundary rule says. */
  lemma HitSplitsText(text: Text, phrase: Text, o: Options, pos: nat)
    ensures IsHit(text, phrase, o, pos) <==>
      exists before, after ::
        text == before + phrase + after && |before| == pos && MayStandAround(before, after, o.boundary)
  {
    hide IsHit, MayStandAround;
    if IsHit(text, phrase, o, pos) {
      PiecesOfHit(text, phrase, o, pos);
    }
    if before, after :|
      text == before + phrase + after && |before| == pos && MayStandAround(before, after, o.boundary)
    {
      HitOfPieces(before, phrase, after, o);
    }
  }

  lemma PiecesOfHit(text: Text, phrase: Text, o: Options, pos: nat)
    requires IsHit(text, phrase, o, pos)
    ensures var before, after := text[..pos], text[pos + |phrase|..];
      text == before + phrase + after && |before| == pos && MayStandAround(before, after, o.boundary)
  {
  }

  lemma HitOfPieces(before: Text, phrase: Text, after: Text, o: Options)
    requires MayStandAround(before, after, o.boundary)
    ensures IsHit(before + phrase + after, phrase, o, |before|)
  {
    var text := before + phrase + after;
    assert text[|before|..|before| + |phrase|] == phrase;
    assert after != [] ==> text[|before| + |phrase|] == after[0];
    assert before != [] ==> text[|before| - 1] == before[|before| - 1];
  }

  /** A configured phrase is found in its own words, in whatever case, under every boundary rule. */
  lemma SpokenInAnyCase(phrases: seq<Text>, p: Text, o: Options, text: Text)
    requires !o.caseSensitive && p in phrases && Normalize(ModeOf(o), p) != [] && AlikeTexts(ModeOf(o), p, text)
    ensures HasMatch(text, o, Configure(phrases).originals)
  {
    hide HasMatch, Configure, Normalize;
    var n := Normalize(ModeOf(o), p);
    CaseIsFolded(ModeOf(o), p, text);
    assert n == [] + n + [];
    HitSplitsText(n, n, o, 0);
    ConfiguredPhrasesDecide(phrases, o, text);
  }
}
