/** The parser accepts JSON texts and nothing else: every text it accepts is a document as module Json prints them, and
    the value returned is what the document means (src/runtime/whisper_runtime.cpp:94-269). */
module JsonGrammar {
  import opened Wrappers
  import opened Json

  /** strtod takes no text that starts with a closing bracket. */
  ghost predicate LeavesBrackets(num: Bytes -> nat)
  {
    forall s: Bytes :: s != [] && s[0] == RBRACKET ==> num(s) == 0
  }

  /** White space is what std::isspace says in the C locale, vertical tab and form feed included. */
  lemma SpacesExactly(b: Byte)
    ensures IsSpace(b) <==>
      b == ' ' as Byte || b == '\t' as Byte || b == '\n' as Byte || b == 0x0B || b == 0x0C || b == '\r' as Byte
  {
  }

  // ---- white space and strings ----------------------------------------------------------------------------

  lemma {:induction false} SkippedIsGap(s: Bytes) returns (gap: Bytes)
    ensures Blank(gap) && s == gap + Skip(s)
  {
    gap := [];
    if s != [] && IsSpace(s[0]) {
      var more := SkippedIsGap(s[1..]);
      gap := [s[0]] + more;
    }
  }

  /** What the string reader consumes is a spelling of the text it returns, and the closing quote. */
  lemma {:induction false} StringIsSpelled(s: Bytes, before: Bytes) returns (q: Spelling)
    requires StringBody(s, before).TextDone?
    ensures var r := StringBody(s, before);
      s == Spell(q) + [QUOTE] + r.rest && r.text == before + TextOf(q)
    decreases |s|
  {
    hide Utf8, CodeUnit, PieceBytes, PieceText, Unescape, SimpleEscape;
    if s[0] == QUOTE {
      q := [];
    } else if s[0] != BACKSLASH {
      PlainPiece(s[0]);
      var more := StringIsSpelled(s[1..], before + [s[0]]);
      q := [Raw(s[0])] + more;
      Consed(Raw(s[0]), more, before, s, StringBody(s, before).rest);
    } else {
      var u := Unescape(s[1..]).value;
      var p := EscapeIsPiece(s);
      var more := StringIsSpelled(s[1 + u.used..], before + u.text);
      q := [p] + more;
      Consed(p, more, before, s, StringBody(s, before).rest);
    }
  }

  lemma PlainPiece(b: Byte)
    requires b >= 32 && b != QUOTE && b != BACKSLASH
    ensures WellSpelled(Raw(b)) && PieceBytes(Raw(b)) == [b] && PieceText(Raw(b)) == [b]
  {
  }

  lemma Consed(p: Piece, more: Spelling, before: Bytes, s: Bytes, rest: Bytes)
    requires PieceBytes(p) <= s && s[|PieceBytes(p)|..] == Spell(more) + [QUOTE] + rest
    ensures s == Spell([p] + more) + [QUOTE] + rest
    ensures before + TextOf([p] + more) == (before + PieceText(p)) + TextOf(more)
  {
    hide PieceBytes, PieceText;
    assert ([p] + more)[1..] == more;
    assert s == PieceBytes(p) + s[|PieceBytes(p)|..];
  }

  /** A readable escape is a piece. */
  lemma EscapeIsPiece(s: Bytes) returns (p: Piece)
    requires |s| > 1 && s[0] == BACKSLASH && Unescape(s[1..]).Some?
    ensures var u := Unescape(s[1..]).value;
      PieceBytes(p) == s[..1 + u.used] && PieceText(p) == u.text
  {
    hide Utf8, CodeUnit;
    if SimpleEscape(s[1]).Some? {
      p := Short(s[1]);
    } else {
      var digits, tail := s[2..6], s[6..];
      assert s[1..][1..] == digits + tail;
      DigitsInFront(digits, tail);
      p := Unit(digits);
      assert [BACKSLASH, 117] + digits == s[..6];
    }
  }

  // ---- values ---------------------------------------------------------------------------------------------

  lemma {:induction false} ValueIsDocument(num: Bytes -> nat, input: Bytes) returns (d: Doc)
    requires LeavesBrackets(num) && ParseValue(num, input).Done?
    ensures var r := ParseValue(num, input);
      Fits(num, d, r.rest) && input == Print(d) + r.rest && Meaning(d) == r.value
    decreases |input|, 1
  {
    hide ParseToken, FitsForm, MeaningOf, Token, LeavesBrackets;
    var gap := SkippedIsGap(input);
    var f := TokenIsForm(num, Skip(input));
    d := Doc(gap, f);
  }

  lemma {:induction false} TokenIsForm(num: Bytes -> nat, s: Bytes) returns (f: Form)
    requires LeavesBrackets(num) && s != [] && !IsSpace(s[0]) && ParseToken(num, s).Done?
    ensures var r := ParseToken(num, s);
      FitsForm(num, f, r.rest) && s == Token(f) + r.rest && MeaningOf(f) == r.value
    decreases |s|, 0
  {
    hide Members, Items, StringBody, PrintItems, PrintMembers, FitsItems, FitsMembers, Meanings, Bound, Spell, TextOf;
    var r := ParseToken(num, s);
    if s[0] == LBRACE {
      f := ObjectIsForm(num, s);
    } else if s[0] == LBRACKET {
      f := ArrayIsForm(num, s);
    } else if s[0] == QUOTE {
      var q := StringIsSpelled(s[1..], []);
      f := DStr(q);
      assert s == [QUOTE] + s[1..];
      assert [] + TextOf(q) == TextOf(q);
    } else if s[0] == 116 {
      f := DBool(true);
    } else if s[0] == 102 {
      f := DBool(false);
    } else if s[0] == 110 {
      f := DNull;
    } else {
      var n := num(s);
      assert s == s[..n] + s[n..];
      f := DNum(s[..n]);
    }
  }

  lemma {:induction false} ArrayIsForm(num: Bytes -> nat, s: Bytes) returns (f: Form)
    requires LeavesBrackets(num) && s != [] && s[0] == LBRACKET && ParseToken(num, s).Done?
    ensures var r := ParseToken(num, s);
      FitsForm(num, f, r.rest) && s == Token(f) + r.rest && MeaningOf(f) == r.value
    decreases |s|, 0, 0
  {
    hide Members, Items, StringBody, PrintItems, FitsItems, Skip, Blank;
    var t := Skip(s[1..]);
    if t != [] && t[0] == RBRACKET {
      var gap := SkippedIsGap(s[1..]);
      f := DArr([], gap);
      assert FitsItems(num, [], t[1..]) by { NoItemsFit(num, t[1..]); }
      assert s == [LBRACKET] + (gap + ([RBRACKET] + t[1..]));
    } else {
      var xs := ItemsAreItems(num, s[1..], []);
      f := DArr(xs, []);
      assert Blank([]) by { NothingIsBlank(); }
      assert [] + Meanings(xs) == Meanings(xs);
      assert s == [LBRACKET] + s[1..];
    }
  }

  lemma NothingIsBlank()
    ensures Blank([])
  {
  }

  lemma NoItemsFit(num: Bytes -> nat, rest: Bytes)
    ensures FitsItems(num, [], rest) && FitsMembers(num, [], rest) && Meanings([]) == [] && Bound([], map[]) == map[]
  {
  }

  lemma {:induction false} ItemsAreItems(num: Bytes -> nat, s: Bytes, before: seq<Value>) returns (xs: seq<Item>)
    requires LeavesBrackets(num) && Items(num, s, before).Done?
    ensures var r := Items(num, s, before);
      xs != [] && FitsItems(num, xs, r.rest) && s == PrintItems(xs) + r.rest && r.value == Arr(before + Meanings(xs))
    decreases |s|, 2
  {
    hide ParseValue, Print, Meaning, Fits, Skip, Blank, LeavesBrackets, FitsItems, PrintItems, Meanings;
    var r := Items(num, s, before);
    var d := ValueIsDocument(num, s);
    var v := ParseValue(num, s);
    var gap := SkippedIsGap(v.rest);
    var t := Skip(v.rest);
    if t[0] == RBRACKET {
      xs := [Item(d, gap)];
      assert [RBRACKET] + t[1..] == t;
      LastItem(num, d, gap, t[1..]);
      Regroup(Print(d), gap, t);
    } else {
      var more := ItemsAreItems(num, t[1..], before + [v.value]);
      xs := [Item(d, gap)] + more;
      assert [COMMA] + t[1..] == t;
      Regroup([COMMA], PrintItems(more), r.rest);
      ItemBefore(num, d, gap, more, r.rest);
      Regroup(Print(d), gap, t);
      assert before + [v.value] + Meanings(more) == before + ([v.value] + Meanings(more));
    }
  }

  lemma LastItem(num: Bytes -> nat, d: Doc, gap: Bytes, rest: Bytes)
    requires Blank(gap) && Fits(num, d, gap + ([RBRACKET] + rest))
    ensures var xs := [Item(d, gap)];
      FitsItems(num, xs, rest) && PrintItems(xs) + rest == Print(d) + gap + ([RBRACKET] + rest) &&
      Meanings(xs) == [Meaning(d)]
  {
    hide Print, Fits, Meaning, Blank;
    var xs := [Item(d, gap)];
    assert xs[1..] == [];
    assert ItemsEnd(xs) == [RBRACKET];
    assert FitsItems(num, [], rest);
  }

  lemma ItemBefore(num: Bytes -> nat, d: Doc, gap: Bytes, more: seq<Item>, rest: Bytes)
    requires Blank(gap) && more != [] && Fits(num, d, gap + ([COMMA] + PrintItems(more) + rest))
    requires FitsItems(num, more, rest)
    ensures var xs := [Item(d, gap)] + more;
      FitsItems(num, xs, rest) && PrintItems(xs) + rest == Print(d) + gap + ([COMMA] + PrintItems(more) + rest) &&
      Meanings(xs) == [Meaning(d)] + Meanings(more)
  {
    hide Print, Fits, Meaning, Blank;
    var xs := [Item(d, gap)] + more;
    assert xs[1..] == more;
    assert ItemsEnd(xs) == [COMMA] + PrintItems(more);
  }

  lemma {:induction false} ObjectIsForm(num: Bytes -> nat, s: Bytes) returns (f: Form)
    requires LeavesBrackets(num) && s != [] && s[0] == LBRACE && ParseToken(num, s).Done?
    ensures var r := ParseToken(num, s);
      FitsForm(num, f, r.rest) && s == Token(f) + r.rest && MeaningOf(f) == r.value
    decreases |s|, 0, 0
  {
    hide Members, Items, StringBody, PrintMembers, FitsMembers, Skip, Blank, Bound;
    var t := Skip(s[1..]);
    if t != [] && t[0] == RBRACE {
      var gap := SkippedIsGap(s[1..]);
      f := DObj([], gap);
      NoItemsFit(num, t[1..]);
      assert s == [LBRACE] + (gap + ([RBRACE] + t[1..]));
    } else {
      var ms := MembersAreMembers(num, s[1..], map[]);
      f := DObj(ms, []);
      assert Blank([]) by { NothingIsBlank(); }
      assert s == [LBRACE] + s[1..];
    }
  }

  /** The texts between and around the parts of a member. */
  datatype Parts = Parts(gap: Bytes, name: Spelling, beforeColon: Bytes, value: Doc, after: Bytes, left: Bytes)

  /** The front of a member list: its first member and what is left behind it. */
  lemma {:induction false} FirstMember(num: Bytes -> nat, input: Bytes, acc: map<Bytes, Value>) returns (p: Parts)
    requires LeavesBrackets(num) && Members(num, input, acc).Done?
    ensures Blank(p.gap) && Blank(p.beforeColon) && Blank(p.after) && Fits(num, p.value, p.after + p.left)
    ensures input == p.gap + Quoted(p.name) + (p.beforeColon + [COLON] + Print(p.value) + p.after + p.left)
    ensures p.left != [] && |p.left| < |input|
    ensures var acc' := acc[TextOf(p.name) := Meaning(p.value)];
      if p.left[0] == RBRACE then Members(num, input, acc) == Done(Obj(acc'), p.left[1..])
      else p.left[0] == COMMA && Members(num, input, acc) == Members(num, p.left[1..], acc')
    decreases |input|, 1, 1
  {
    hide ParseValue, Print, Meaning, Fits, Skip, Blank, LeavesBrackets, Spell, TextOf, StringBody;
    var s := Skip(input);
    var gap := SkippedIsGap(input);
    var q := StringIsSpelled(s[1..], []);
    assert [] + TextOf(q) == TextOf(q);
    var afterName := StringBody(s[1..], []).rest;
    var t := Skip(afterName);
    var beforeColon := SkippedIsGap(afterName);
    var v := ParseValue(num, t[1..]);
    var d := ValueIsDocument(num, t[1..]);
    var after := SkippedIsGap(v.rest);
    p := Parts(gap, q, beforeColon, d, after, Skip(v.rest));
    MemberText(input, p, s, t);
  }

  lemma MemberText(input: Bytes, p: Parts, s: Bytes, t: Bytes)
    requires input == p.gap + s && s != [] && s[0] == QUOTE && t != [] && t[0] == COLON
    requires s[1..] == Spell(p.name) + [QUOTE] + (p.beforeColon + t)
    requires t[1..] == Print(p.value) + (p.after + p.left)
    ensures input == p.gap + Quoted(p.name) + (p.beforeColon + [COLON] + Print(p.value) + p.after + p.left)
  {
    hide Print, Spell;
    assert s == [QUOTE] + s[1..] && t == [COLON] + t[1..];
    assert p.beforeColon + t == p.beforeColon + [COLON] + Print(p.value) + p.after + p.left;
  }

  lemma {:induction false} MembersAreMembers(num: Bytes -> nat, input: Bytes, acc: map<Bytes, Value>)
    returns (ms: seq<Member>)
    requires LeavesBrackets(num) && Members(num, input, acc).Done?
    ensures var r := Members(num, input, acc);
      ms != [] && FitsMembers(num, ms, r.rest) && input == PrintMembers(ms) + r.rest && r.value == Obj(Bound(ms, acc))
    decreases |input|, 2
  {
    hide Members, Print, Meaning, Fits, Blank, LeavesBrackets, FitsMembers, PrintMembers, Bound, Quoted, TextOf;
    var r := Members(num, input, acc);
    var p := FirstMember(num, input, acc);
    var m := Member(p.gap, p.name, p.beforeColon, p.value, p.after);
    if p.left[0] == RBRACE {
      ms := [m];
      assert p.left == [RBRACE] + p.left[1..];
      LastMemberFits(num, m, acc, r.rest);
    } else {
      var more := MembersAreMembers(num, p.left[1..], acc[TextOf(p.name) := Meaning(p.value)]);
      ms := [m] + more;
      assert p.left == [COMMA] + PrintMembers(more) + r.rest;
      MemberBeforeFits(num, m, more, acc, r.rest);
    }
  }

  lemma LastMemberFits(num: Bytes -> nat, m: Member, acc: map<Bytes, Value>, rest: Bytes)
    requires Blank(m.gap) && Blank(m.beforeColon) && Blank(m.after) && Fits(num, m.value, m.after + ([RBRACE] + rest))
    ensures FitsMembers(num, [m], rest) && Bound([m], acc) == acc[TextOf(m.name) := Meaning(m.value)]
    ensures PrintMembers([m]) + rest ==
      m.gap + Quoted(m.name) + (m.beforeColon + [COLON] + Print(m.value) + m.after + ([RBRACE] + rest))
  {
    hide Print, Meaning, Fits, Blank, Quoted, TextOf;
    assert [m][1..] == [] && MembersEnd([m]) == [RBRACE];
    assert FitsMembers(num, [], rest);
    assert AfterName([m]) == m.beforeColon + [COLON] + Print(m.value) + m.after + [RBRACE];
  }

  lemma MemberBeforeFits(num: Bytes -> nat, m: Member, more: seq<Member>, acc: map<Bytes, Value>, rest: Bytes)
    requires more != [] && Blank(m.gap) && Blank(m.beforeColon) && Blank(m.after) && FitsMembers(num, more, rest)
    requires Fits(num, m.value, m.after + ([COMMA] + PrintMembers(more) + rest))
    ensures FitsMembers(num, [m] + more, rest)
    ensures Bound([m] + more, acc) == Bound(more, acc[TextOf(m.name) := Meaning(m.value)])
    ensures PrintMembers([m] + more) + rest ==
      m.gap + Quoted(m.name) +
      (m.beforeColon + [COLON] + Print(m.value) + m.after + ([COMMA] + PrintMembers(more) + rest))
  {
    hide Print, Meaning, Fits, Blank, Quoted, TextOf;
    var ms := [m] + more;
    assert ms[1..] == more && MembersEnd(ms) == [COMMA] + PrintMembers(more);
    assert AfterName(ms) == m.beforeColon + [COLON] + Print(m.value) + m.after + MembersEnd(ms);
    BoundCons(m, more, acc);
  }

  // ---- the whole text -------------------------------------------------------------------------------------

  ghost predicate IsTextOf(num: Bytes -> nat, s: Bytes, d: Doc, trailing: Bytes)
  {
    Fits(num, d, trailing) && Blank(trailing) && s == Print(d) + trailing
  }

  /** parse() succeeds with a value if and only if the input is the text of a document with that meaning, white space
      after it included. */
  lemma ParseExactly(num: Bytes -> nat, s: Bytes, v: Value)
    requires LeavesBrackets(num)
    ensures Parse(num, s) == Some(v) <==> exists d, trailing :: IsTextOf(num, s, d, trailing) && Meaning(d) == v
  {
    hide ParseValue, Print, Meaning, Fits, LeavesBrackets;
    if d, trailing :| IsTextOf(num, s, d, trailing) && Meaning(d) == v {
      ParseRoundTrip(num, d, trailing);
    }
    if Parse(num, s) == Some(v) {
      var d := ValueIsDocument(num, s);
      var rest := ParseValue(num, s).rest;
      var gap := SkippedIsGap(rest);
      assert gap + [] == gap;
      assert IsTextOf(num, s, d, rest);
    }
  }
}
