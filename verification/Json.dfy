/** JSON text as the runtime bridge writes and reads it (src/runtime/whisper_runtime.cpp). Text is bytes. How much
    of the input a number takes (strtod) is a parameter. */
module Json {
  import opened Wrappers

  type Bytes = seq<Byte>

  datatype Value =
    | Null
    | Bool(b: bool)
    | Num(text: Bytes)
    | Str(s: Bytes)
    | Arr(items: seq<Value>)
    | Obj(members: map<Bytes, Value>)

  const QUOTE: Byte := 34
  const COMMA: Byte := 44
  const SLASH: Byte := 47
  const COLON: Byte := 58
  const LBRACKET: Byte := 91
  const BACKSLASH: Byte := 92
  const RBRACKET: Byte := 93
  const LBRACE: Byte := 123
  const RBRACE: Byte := 125

  const TRUE: Bytes := [116, 114, 117, 101]
  const FALSE: Bytes := [102, 97, 108, 115, 101]
  const NULL: Bytes := [110, 117, 108, 108]

  predicate IsSpace(b: Byte) { b == 32 || 9 <= b <= 13 }

  // ---- escaping -------------------------------------------------------------------------------------------

  function HexDigit(n: nat): Byte
    requires n < 16
  {
    if n < 10 then 48 + n else 87 + n
  }

  function EscapeByte(c: Byte): (e: Bytes)
    ensures |e| > 0
  {
    if c == QUOTE then [BACKSLASH, QUOTE]
    else if c == BACKSLASH then [BACKSLASH, BACKSLASH]
    else if c == 8 then [BACKSLASH, 98]
    else if c == 12 then [BACKSLASH, 102]
    else if c == 10 then [BACKSLASH, 110]
    else if c == 13 then [BACKSLASH, 114]
    else if c == 9 then [BACKSLASH, 116]
    else if c < 32 then [BACKSLASH, 117, 48, 48, HexDigit(c / 16), HexDigit(c % 16)]
    else [c]
  }

  function Escape(s: Bytes): Bytes
  {
    if s == [] then [] else EscapeByte(s[0]) + Escape(s[1..])
  }

  /** escape_json_string */
  method EscapeJsonString(value: Bytes) returns (result: Bytes)
    ensures result == Escape(value)
  {
    hide EscapeByte;
    result := [];
    for i := 0 to |value|
      invariant result + Escape(value[i..]) == Escape(value)
    {
      assert value[i..][1..] == value[i + 1..];
      result := result + EscapeByte(value[i]);
    }
  }

  predicate NoControl(b: Bytes) { forall i :: 0 <= i < |b| ==> b[i] >= 32 }

  /** Escaped text holds no control byte, so no raw newline. */
  lemma {:induction false} EscapedHasNoControl(s: Bytes)
    ensures NoControl(Escape(s))
  {
    if s != [] {
      EscapedHasNoControl(s[1..]);
    }
  }

  /** Text without quotes, backslashes and control bytes is written as it is. */
  lemma {:induction false} PlainTextIsUnchanged(s: Bytes)
    requires forall i :: 0 <= i < |s| ==> s[i] >= 32 && s[i] != QUOTE && s[i] != BACKSLASH
    ensures Escape(s) == s
  {
    if s != [] {
      PlainTextIsUnchanged(s[1..]);
    }
  }

  // ---- what the parser computes ---------------------------------------------------------------------------

  datatype Parsed = Done(value: Value, rest: Bytes) | Error

  datatype Text = TextDone(text: Bytes, rest: Bytes) | TextError

  function Skip(s: Bytes): (rest: Bytes)
    ensures |rest| <= |s| && (rest != [] ==> !IsSpace(rest[0]))
  {
    if s != [] && IsSpace(s[0]) then Skip(s[1..]) else s
  }

  function HexValue(c: Byte): (d: Option<nat>)
    ensures d.Some? ==> d.value < 16
  {
    if 48 <= c <= 57 then Some(c - 48)
    else if 97 <= c <= 102 then Some(c - 87)
    else if 65 <= c <= 70 then Some(c - 55)
    else None
  }

  // 16 to the number of digits already read, out of four.
  function Cap(left: nat): nat
  {
    if left == 4 then 1 else if left == 3 then 16 else if left == 2 then 256 else if left == 1 then 4096 else 65536
  }

  /** The number that the next `left` hexadecimal digits complete. */
  function HexFrom(s: Bytes, left: nat, unit: nat): (u: Option<nat>)
    requires left <= 4 && unit < Cap(left)
    ensures u.Some? ==> |s| >= left && u.value < 65536
    decreases left
  {
    if left == 0 then Some(unit)
    else if s == [] || HexValue(s[0]).None? then None
    else HexFrom(s[1..], left - 1, unit * 16 + HexValue(s[0]).value)
  }

  function CodeUnit(s: Bytes): (u: Option<nat>)
    ensures u.Some? ==> |s| >= 4 && u.value < 65536
  {
    HexFrom(s, 4, 0)
  }

  /** Each \u unit is encoded on its own, in one, two or three bytes. */
  function Utf8(u: nat): Bytes
    requires u < 65536
  {
    if u <= 0x7F then [u]
    else if u <= 0x7FF then [0xC0 + u / 64, 0x80 + u % 64]
    else [0xE0 + u / 4096, 0x80 + u / 64 % 64, 0x80 + u % 64]
  }

  /** Those bytes are UTF-8: as many as the unit needs, with their high bits, and together they are the unit again. */
  lemma Utf8Decodes(u: nat)
    requires u < 0x1_0000
    ensures var b := Utf8(u);
      |b| == (if u < 0x80 then 1 else if u < 0x800 then 2 else 3) &&
      (|b| == 1 ==> b[0] == u) &&
      (|b| > 1 ==> 0x80 <= b[1] < 0xC0) &&
      (|b| == 2 ==> 0xC2 <= b[0] < 0xE0 && u == (b[0] as int - 0xC0) * 64 + (b[1] as int - 0x80)) &&
      (|b| == 3 ==>
        0xE0 <= b[0] < 0xF0 && 0x80 <= b[2] < 0xC0 &&
        u == (b[0] as int - 0xE0) * 4096 + (b[1] as int - 0x80) * 64 + (b[2] as int - 0x80))
  {
  }

  function SimpleEscape(e: Byte): Option<Byte>
  {
    if e == QUOTE || e == BACKSLASH || e == SLASH then Some(e)
    else if e == 98 then Some(8)
    else if e == 102 then Some(12)
    else if e == 110 then Some(10)
    else if e == 114 then Some(13)
    else if e == 116 then Some(9)
    else None
  }

  // What an escape stands for, and how many bytes after the backslash it takes.
  datatype Unescaped = Unescaped(text: Bytes, used: nat)

  function Unescape(s: Bytes): (u: Option<Unescaped>)
    requires s != []
    ensures u.Some? ==> 1 <= u.value.used <= |s|
  {
    if SimpleEscape(s[0]).Some? then Some(Unescaped([SimpleEscape(s[0]).value], 1))
    else if s[0] == 117 && CodeUnit(s[1..]).Some? then Some(Unescaped(Utf8(CodeUnit(s[1..]).value), 5))
    else None
  }

  /** The rest of a string literal, after its opening quote. */
  function StringBody(s: Bytes, text: Bytes): (r: Text)
    ensures r.TextDone? ==> |r.rest| < |s|
    decreases |s|
  {
    if s == [] then TextError
    else if s[0] == QUOTE then TextDone(text, s[1..])
    else if s[0] < 32 then TextError
    else if s[0] != BACKSLASH then StringBody(s[1..], text + [s[0]])
    else if |s| == 1 || Unescape(s[1..]).None? then TextError
    else
      var u := Unescape(s[1..]).value;
      StringBody(s[1 + u.used..], text + u.text)
  }

  function Literal(s: Bytes, word: Bytes, value: Value): Parsed
  {
    if |word| <= |s| && s[..|word|] == word then Done(value, s[|word|..]) else Error
  }

  function Number(num: Bytes -> nat, s: Bytes): Parsed
  {
    var n := num(s);
    if 0 < n <= |s| then Done(Num(s[..n]), s[n..]) else Error
  }

  function ParseValue(num: Bytes -> nat, input: Bytes): (r: Parsed)
    ensures r.Done? ==> |r.rest| < |input|
    decreases |input|, 1
  {
    var s := Skip(input);
    if s == [] then Error else ParseToken(num, s)
  }

  function ParseToken(num: Bytes -> nat, s: Bytes): (r: Parsed)
    requires s != []
    ensures r.Done? ==> |r.rest| < |s|
    decreases |s|, 0
  {
    if s[0] == LBRACE then
      var t := Skip(s[1..]);
      if t != [] && t[0] == RBRACE then Done(Obj(map[]), t[1..]) else Members(num, s[1..], map[])
    else if s[0] == LBRACKET then
      var t := Skip(s[1..]);
      if t != [] && t[0] == RBRACKET then Done(Arr([]), t[1..]) else Items(num, s[1..], [])
    else if s[0] == QUOTE then
      match StringBody(s[1..], [])
      case TextDone(text, rest) => Done(Str(text), rest)
      case TextError => Error
    else if s[0] == 116 then Literal(s, TRUE, Bool(true))
    else if s[0] == 102 then Literal(s, FALSE, Bool(false))
    else if s[0] == 110 then Literal(s, NULL, Null)
    else Number(num, s)
  }

  function Items(num: Bytes -> nat, s: Bytes, items: seq<Value>): (r: Parsed)
    ensures r.Done? ==> |r.rest| < |s|
    decreases |s|, 2
  {
    match ParseValue(num, s)
    case Error => Error
    case Done(v, rest) =>
      var t := Skip(rest);
      if t != [] && t[0] == RBRACKET then Done(Arr(items + [v]), t[1..])
      else if t != [] && t[0] == COMMA then Items(num, t[1..], items + [v])
      else Error
  }

  function Members(num: Bytes -> nat, input: Bytes, members: map<Bytes, Value>): (r: Parsed)
    ensures r.Done? ==> |r.rest| < |input|
    decreases |input|, 2
  {
    var s := Skip(input);
    if s == [] || s[0] != QUOTE then Error
    else
      match StringBody(s[1..], [])
      case TextError => Error
      case TextDone(name, afterName) =>
        var t := Skip(afterName);
        if t == [] || t[0] != COLON then Error
        else
          match ParseValue(num, t[1..])
          case Error => Error
          case Done(v, rest) =>
            var u := Skip(rest);
            if u != [] && u[0] == RBRACE then Done(Obj(members[name := v]), u[1..])
            else if u != [] && u[0] == COMMA then Members(num, u[1..], members[name := v])
            else Error
  }

  function Parse(num: Bytes -> nat, s: Bytes): Option<Value>
  {
    match ParseValue(num, s)
    case Error => None
    case Done(v, rest) => if Skip(rest) == [] then Some(v) else None
  }

  // ---- printed documents ----------------------------------------------------------------------------------

  // A document as it stands in a text: every token may have white space of its own before it, `gap` before a value
  // or a name, `beforeColon` and `after` (before the next comma or closing bracket) around it, and `inner` inside
  // empty brackets.
  datatype Doc = Doc(gap: Bytes, form: Form)

  /** What may start a number: nothing that starts another token or is skipped, and no closing bracket. */
  predicate StartsNumber(b: Byte)
  {
    !IsSpace(b) && b != LBRACE && b != LBRACKET && b != QUOTE && b != 116 && b != 102 && b != 110 && b != RBRACKET
  }

  type Numeral = t: Bytes | t != [] && StartsNumber(t[0]) witness [48]

  // A character of a string literal as it is spelled: as itself, by a two-character escape, or by four hexadecimal
  // digits.
  datatype Spelled = Raw(b: Byte) | Short(e: Byte) | Unit(digits: Bytes)

  predicate WellSpelled(p: Spelled)
  {
    match p
    case Raw(b) => b >= 32 && b != QUOTE && b != BACKSLASH
    case Short(e) => SimpleEscape(e).Some?
    case Unit(digits) => |digits| == 4 && CodeUnit(digits).Some?
  }

  type Piece = p: Spelled | WellSpelled(p) witness Raw(48)

  type Spelling = seq<Piece>

  function PieceBytes(p: Piece): (b: Bytes)
    ensures b != []
  {
    match p
    case Raw(b) => [b]
    case Short(e) => [BACKSLASH, e]
    case Unit(digits) => [BACKSLASH, 117] + digits
  }

  /** The bytes it stands for. */
  function PieceText(p: Piece): Bytes
  {
    match p
    case Raw(b) => [b]
    case Short(e) => [SimpleEscape(e).value]
    case Unit(digits) => Utf8(CodeUnit(digits).value)
  }

  function Spell(q: Spelling): Bytes
  {
    if q == [] then [] else PieceBytes(q[0]) + Spell(q[1..])
  }

  function TextOf(q: Spelling): Bytes
  {
    if q == [] then [] else PieceText(q[0]) + TextOf(q[1..])
  }

  /** The spelling that the runtime uses. */
  function Written(s: Bytes): Spelling
  {
    if s == [] then [] else [PieceOf(s[0])] + Written(s[1..])
  }

  function PieceOf(c: Byte): Piece
  {
    var e := EscapeByte(c);
    if |e| == 1 then Raw(c)
    else if |e| == 2 then Short(e[1])
    else
      FourDigits(e[2..], c);
      Unit(e[2..])
  }

  datatype Form =
    | DNull
    | DBool(b: bool)
    | DNum(text: Numeral)
    | DStr(s: Spelling)
    | DArr(items: seq<Item>, inner: Bytes)
    | DObj(members: seq<Member>, inner: Bytes)

  datatype Item = Item(value: Doc, after: Bytes)

  datatype Member = Member(gap: Bytes, name: Spelling, beforeColon: Bytes, value: Doc, after: Bytes)

  function Quoted(s: Spelling): Bytes { [QUOTE] + Spell(s) + [QUOTE] }

  function Print(d: Doc): Bytes
    decreases d, 1
  {
    d.gap + Token(d.form)
  }

  function Token(f: Form): (t: Bytes)
    ensures t != [] && !IsSpace(t[0]) && t[0] != RBRACKET
    decreases f, 0
  {
    match f
    case DNull => NULL
    case DBool(b) => if b then TRUE else FALSE
    case DNum(text) => text
    case DStr(s) => Quoted(s)
    case DArr(items, inner) => [LBRACKET] + (if items == [] then inner + [RBRACKET] else PrintItems(items))
    case DObj(members, inner) => [LBRACE] + (if members == [] then inner + [RBRACE] else PrintMembers(members))
  }

  function PrintItems(items: seq<Item>): Bytes
    requires items != []
    decreases items, 1
  {
    Print(items[0].value) + items[0].after + ItemsEnd(items)
  }

  // What PrintItems writes after the first item.
  function ItemsEnd(items: seq<Item>): Bytes
    requires items != []
    decreases items, 0
  {
    if |items| == 1 then [RBRACKET] else [COMMA] + PrintItems(items[1..])
  }

  function PrintMembers(members: seq<Member>): Bytes
    requires members != []
    decreases members, 2
  {
    var m := members[0];
    m.gap + Quoted(m.name) + AfterName(members)
  }

  // What PrintMembers writes after the first name.
  function AfterName(members: seq<Member>): Bytes
    requires members != []
    decreases members, 1
  {
    var m := members[0];
    m.beforeColon + [COLON] + Print(m.value) + m.after + MembersEnd(members)
  }

  function MembersEnd(members: seq<Member>): Bytes
    requires members != []
    decreases members, 0
  {
    if |members| == 1 then [RBRACE] else [COMMA] + PrintMembers(members[1..])
  }

  ghost predicate Blank(gap: Bytes)
  {
    forall i :: 0 <= i < |gap| ==> IsSpace(gap[i])
  }

  /** What may stand after a number. */
  predicate EndsNumber(rest: Bytes)
  {
    rest == [] || IsSpace(rest[0]) || rest[0] == COMMA || rest[0] == RBRACKET || rest[0] == RBRACE
  }

  /** The number reader takes the whole number and no more, whatever may follow. */
  ghost predicate TakenWhole(num: Bytes -> nat, text: Bytes)
  {
    forall rest :: EndsNumber(rest) ==> num(text + rest) == |text|
  }

  /** In front of `rest`, all the gaps of the document are white space, and the number reader takes each of its numbers
      where it stands, whole and no further. */
  ghost predicate Fits(num: Bytes -> nat, d: Doc, rest: Bytes)
    decreases d, 1
  {
    Blank(d.gap) && FitsForm(num, d.form, rest)
  }

  ghost predicate FitsForm(num: Bytes -> nat, f: Form, rest: Bytes)
    decreases f, 0
  {
    match f
    case DNum(text) => num(text + rest) == |text|
    case DArr(items, inner) => Blank(inner) && FitsItems(num, items, rest)
    case DObj(members, inner) => Blank(inner) && FitsMembers(num, members, rest)
    case _ => true
  }

  ghost predicate FitsItems(num: Bytes -> nat, items: seq<Item>, rest: Bytes)
    decreases items
  {
    items == [] ||
    (Fits(num, items[0].value, items[0].after + (ItemsEnd(items) + rest)) && Blank(items[0].after) &&
     FitsItems(num, items[1..], rest))
  }

  ghost predicate FitsMembers(num: Bytes -> nat, members: seq<Member>, rest: Bytes)
    decreases members
  {
    members == [] ||
    (Blank(members[0].gap) && Blank(members[0].beforeColon) && Blank(members[0].after) &&
     Fits(num, members[0].value, members[0].after + (MembersEnd(members) + rest)) &&
     FitsMembers(num, members[1..], rest))
  }

  /** The value a document stands for; of members with one name the last counts. */
  function Meaning(d: Doc): Value
    decreases d, 1
  {
    MeaningOf(d.form)
  }

  function MeaningOf(f: Form): Value
    decreases f, 0
  {
    match f
    case DNull => Null
    case DBool(b) => Bool(b)
    case DNum(text) => Num(text)
    case DStr(s) => Str(TextOf(s))
    case DArr(items, _) => Arr(Meanings(items))
    case DObj(members, _) => Obj(Bound(members, map[]))
  }

  function Meanings(items: seq<Item>): seq<Value>
    decreases items
  {
    if items == [] then [] else [Meaning(items[0].value)] + Meanings(items[1..])
  }

  function Bound(members: seq<Member>, acc: map<Bytes, Value>): map<Bytes, Value>
    decreases members
  {
    if members == [] then acc else Bound(members[1..], acc[TextOf(members[0].name) := Meaning(members[0].value)])
  }

  // ---- round trip -----------------------------------------------------------------------------------------

  lemma {:induction false} SkipsGap(gap: Bytes, t: Bytes)
    requires Blank(gap) && (t == [] || !IsSpace(t[0]))
    ensures Skip(gap + t) == t
  {
    if gap == [] {
      assert gap + t == t;
    } else {
      assert (gap + t)[1..] == gap[1..] + t;
      SkipsGap(gap[1..], t);
    }
  }

  lemma FourDigits(s: Bytes, c: Byte)
    requires c < 32 && |s| >= 4 && s[0] == 48 && s[1] == 48 && s[2] == HexDigit(c / 16) && s[3] == HexDigit(c % 16)
    ensures CodeUnit(s) == Some(c as nat)
  {
    var t := s[1..][1..];
    assert t[0] == s[2] && t[1..][0] == s[3];
    assert HexFrom(s, 4, 0) == HexFrom(s[1..], 3, 0) == HexFrom(t, 2, 0) == HexFrom(t[1..], 1, c / 16);
    assert HexFrom(t[1..], 1, c / 16) == HexFrom(t[1..][1..], 0, c / 16 * 16 + c % 16);
  }

  lemma PieceReads(p: Piece, t: Bytes, before: Bytes)
    ensures StringBody(PieceBytes(p) + t, before) == StringBody(t, before + PieceText(p))
  {
    hide Utf8;
    var s := PieceBytes(p) + t;
    assert s[|PieceBytes(p)|..] == t;
    if p.Unit? {
      hide CodeUnit;
      DigitsInFront(p.digits, t);
      UnitEscapeReads(p.digits, CodeUnit(p.digits).value, t, before);
    }
  }

  /** Only the first four bytes count. */
  lemma DigitsInFront(digits: Bytes, t: Bytes)
    requires |digits| == 4
    ensures CodeUnit(digits + t) == CodeUnit(digits)
  {
    DigitsFrom(digits, t, 4, 0);
  }

  lemma {:induction false} DigitsFrom(digits: Bytes, t: Bytes, left: nat, unit: nat)
    requires |digits| == left <= 4 && unit < Cap(left)
    ensures HexFrom(digits + t, left, unit) == HexFrom(digits, left, unit)
    decreases left
  {
    if left > 0 && HexValue(digits[0]).Some? {
      assert (digits + t)[1..] == digits[1..] + t;
      DigitsFrom(digits[1..], t, left - 1, unit * 16 + HexValue(digits[0]).value);
    }
  }

  /** A string literal reads back as its text, however it is spelled. */
  lemma {:induction false} SpellingReads(q: Spelling, rest: Bytes, before: Bytes)
    ensures StringBody(Spell(q) + [QUOTE] + rest, before) == TextDone(before + TextOf(q), rest)
  {
    if q == [] {
      assert before + [] == before;
    } else {
      hide StringBody, PieceBytes, PieceText;
      var t := Spell(q[1..]) + [QUOTE] + rest;
      Regroup(PieceBytes(q[0]), Spell(q[1..]), [QUOTE]);
      Regroup(PieceBytes(q[0]), Spell(q[1..]) + [QUOTE], rest);
      PieceReads(q[0], t, before);
      SpellingReads(q[1..], rest, before + PieceText(q[0]));
      Regroup(before, PieceText(q[0]), TextOf(q[1..]));
    }
  }

  lemma PieceOfByte(c: Byte)
    ensures PieceBytes(PieceOf(c)) == EscapeByte(c) && PieceText(PieceOf(c)) == [c]
  {
    var e := EscapeByte(c);
    if |e| == 6 {
      FourDigits(e[2..], c);
      assert [BACKSLASH, 117] + e[2..] == e;
    }
  }

  lemma {:induction false} WrittenIsEscaped(s: Bytes)
    ensures Spell(Written(s)) == Escape(s) && TextOf(Written(s)) == s
  {
    if s != [] {
      PieceOfByte(s[0]);
      WrittenIsEscaped(s[1..]);
      hide PieceOf, EscapeByte, PieceBytes, PieceText;
      var q := Written(s);
      assert q[0] == PieceOf(s[0]) && q[1..] == Written(s[1..]);
      assert [s[0]] + s[1..] == s;
    }
  }

  /** Escaped text followed by a quote reads back as the text. */
  lemma EscapeRoundTrip(s: Bytes, rest: Bytes, before: Bytes)
    ensures StringBody(Escape(s) + [QUOTE] + rest, before) == TextDone(before + s, rest)
  {
    WrittenIsEscaped(s);
    SpellingReads(Written(s), rest, before);
  }

  /** The escapes are those of section 7 of RFC 8259, written for the bytes that need one and read for one more. */
  lemma EscapesAreStandard(c: Byte)
    ensures EscapeByte('"' as Byte) == ['\\' as Byte, '"' as Byte]
    ensures EscapeByte('\\' as Byte) == ['\\' as Byte, '\\' as Byte]
    ensures EscapeByte(0x08) == ['\\' as Byte, 'b' as Byte] && EscapeByte(0x0C) == ['\\' as Byte, 'f' as Byte]
    ensures EscapeByte(0x0A) == ['\\' as Byte, 'n' as Byte] && EscapeByte(0x0D) == ['\\' as Byte, 'r' as Byte]
    ensures EscapeByte(0x09) == ['\\' as Byte, 't' as Byte] && SimpleEscape('/' as Byte) == Some('/' as Byte)
    ensures |EscapeByte(c)| == 1 <==> c >= 0x20 && c != '"' as Byte && c != '\\' as Byte
    ensures |EscapeByte(c)| == 6 ==> EscapeByte(c)[..4] == ['\\' as Byte, 'u' as Byte, '0' as Byte, '0' as Byte]
    ensures SimpleEscape(c).Some? <==>
      c == '/' as Byte || exists b: Byte :: EscapeByte(b) == ['\\' as Byte, c]
  {
    if SimpleEscape(c).Some? && c != '/' as Byte {
      assert EscapeByte(SimpleEscape(c).value) == ['\\' as Byte, c];
    }
  }

  function HexForm(d: nat, capital: bool): Byte
    requires d < 16
  {
    if d < 10 then '0' as Byte + d else if capital then 'A' as Byte + d - 10 else 'a' as Byte + d - 10
  }

  /** Four hexadecimal digits, capital or not, are read as the unit they write, and that as its UTF-8 bytes. */
  lemma UnitReads(u: nat, capital: bool, rest: Bytes, before: Bytes)
    requires u < 0x1_0000
    ensures var digits := [HexForm(u / 4096, capital), HexForm(u / 256 % 16, capital), HexForm(u / 16 % 16, capital),
                           HexForm(u % 16, capital)];
      StringBody(['\\' as Byte, 'u' as Byte] + digits + rest, before) == StringBody(rest, before + Utf8(u))
  {
    var a, b, c, d := u / 4096, u / 256 % 16, u / 16 % 16, u % 16;
    var digits := [HexForm(a, capital), HexForm(b, capital), HexForm(c, capital), HexForm(d, capital)];
    FourFormsRead(a, b, c, d, capital, rest);
    FourPlaces(u);
    hide HexForm, CodeUnit;
    UnitEscapeReads(digits, u, rest, before);
  }

  lemma FourPlaces(u: nat)
    requires u < 0x1_0000
    ensures ((u / 4096 * 16 + u / 256 % 16) * 16 + u / 16 % 16) * 16 + u % 16 == u
  {
    assert u / 256 == u / 4096 * 16 + u / 256 % 16;
    assert u / 16 == u / 256 * 16 + u / 16 % 16;
  }

  lemma UnitEscapeReads(digits: Bytes, u: nat, rest: Bytes, before: Bytes)
    requires |digits| == 4 && CodeUnit(digits + rest) == Some(u)
    ensures StringBody(['\\' as Byte, 'u' as Byte] + digits + rest, before) == StringBody(rest, before + Utf8(u))
  {
    hide Utf8, CodeUnit;
    var all := ['\\' as Byte, 'u' as Byte] + digits + rest;
    assert all[1..][1..] == digits + rest && all[6..] == rest;
    assert Unescape(all[1..]) == Some(Unescaped(Utf8(u), 5));
  }

  lemma FormReads(d: nat, capital: bool)
    requires d < 16
    ensures HexValue(HexForm(d, capital)) == Some(d)
  {
  }

  lemma FourFormsRead(a: nat, b: nat, c: nat, d: nat, capital: bool, rest: Bytes)
    requires a < 16 && b < 16 && c < 16 && d < 16
    ensures var s := [HexForm(a, capital), HexForm(b, capital), HexForm(c, capital), HexForm(d, capital)] + rest;
      CodeUnit(s) == Some(((a * 16 + b) * 16 + c) * 16 + d)
  {
    FormReads(a, capital);
    FormReads(b, capital);
    FormReads(c, capital);
    FormReads(d, capital);
    hide HexValue, HexForm;
    var s := [HexForm(a, capital), HexForm(b, capital), HexForm(c, capital), HexForm(d, capital)] + rest;
    assert s[1..][1..] == s[2..] && s[2..][1..] == s[3..] && s[3..][1..] == s[4..];
    assert HexFrom(s, 4, 0) == HexFrom(s[1..], 3, a) == HexFrom(s[2..], 2, a * 16 + b);
    assert HexFrom(s[2..], 2, a * 16 + b) == HexFrom(s[3..], 1, (a * 16 + b) * 16 + c);
  }

  /** Every document, in any spelling of its strings and with any white space before each of its tokens, parses to its
      meaning and leaves what follows it. */
  lemma {:induction false} PrintRoundTrip(num: Bytes -> nat, d: Doc, rest: Bytes)
    requires Fits(num, d, rest)
    ensures ParseValue(num, Print(d) + rest) == Done(Meaning(d), rest)
    decreases d, 1
  {
    hide ParseToken, Token, MeaningOf, FitsForm, Blank;
    Regroup(d.gap, Token(d.form), rest);
    SkipsGap(d.gap, Token(d.form) + rest);
    TokenRoundTrip(num, d.form, rest);
  }

  lemma Regroup(a: Bytes, b: Bytes, c: Bytes)
    ensures (a + b) + c == a + (b + c)
  {
  }

  lemma {:induction false} TokenRoundTrip(num: Bytes -> nat, f: Form, rest: Bytes)
    requires FitsForm(num, f, rest)
    ensures ParseToken(num, Token(f) + rest) == Done(MeaningOf(f), rest)
    decreases f, 0
  {
    match f
    case DNull => LiteralReads(NULL, Null, rest);
    case DBool(b) => LiteralReads(TRUE, Bool(true), rest); LiteralReads(FALSE, Bool(false), rest);
    case DNum(text) => NumberReads(num, text, rest);
    case DStr(s) => QuotedReads(s, rest);
    case DArr(items, inner) => ArrayRoundTrip(num, items, inner, rest);
    case DObj(members, inner) => ObjectRoundTrip(num, members, inner, rest);
  }

  lemma LiteralReads(word: Bytes, value: Value, rest: Bytes)
    ensures Literal(word + rest, word, value) == Done(value, rest)
  {
  }

  lemma NumberReads(num: Bytes -> nat, text: Numeral, rest: Bytes)
    requires num(text + rest) == |text|
    ensures ParseToken(num, text + rest) == Done(Num(text), rest)
  {
    hide Members, Items;
    assert (text + rest)[0] == text[0];
    assert (text + rest)[..|text|] == text && (text + rest)[|text|..] == rest;
  }

  lemma QuotedReads(s: Spelling, rest: Bytes)
    ensures Quoted(s) + rest != [] && (Quoted(s) + rest)[0] == QUOTE
    ensures StringBody((Quoted(s) + rest)[1..], []) == TextDone(TextOf(s), rest)
  {
    assert (Quoted(s) + rest)[1..] == Spell(s) + [QUOTE] + rest;
    SpellingReads(s, rest, []);
    assert [] + TextOf(s) == TextOf(s);
  }

  lemma {:induction false} ArrayRoundTrip(num: Bytes -> nat, items: seq<Item>, inner: Bytes, rest: Bytes)
    requires Blank(inner) && FitsItems(num, items, rest)
    ensures ParseToken(num, Token(DArr(items, inner)) + rest) == Done(Arr(Meanings(items)), rest)
    decreases items, 1
  {
    hide Blank, FitsItems;
    var s := Token(DArr(items, inner)) + rest;
    if items == [] {
      assert s[1..] == inner + ([RBRACKET] + rest);
      SkipsGap(inner, [RBRACKET] + rest);
    } else {
      assert s[1..] == PrintItems(items) + rest;
      ItemsStartFresh(num, items, rest);
      ItemsRoundTrip(num, items, rest, []);
      assert [] + Meanings(items) == Meanings(items);
    }
  }

  lemma ItemsStartFresh(num: Bytes -> nat, items: seq<Item>, rest: Bytes)
    requires items != [] && FitsItems(num, items, rest)
    ensures var t := Skip(PrintItems(items) + rest); t == [] || t[0] != RBRACKET
  {
    hide Token;
    var x := items[0];
    var t := Token(x.value.form) + (x.after + ItemsEnd(items) + rest);
    assert PrintItems(items) + rest == x.value.gap + t;
    SkipsGap(x.value.gap, t);
  }

  lemma {:induction false} ItemsRoundTrip(num: Bytes -> nat, items: seq<Item>, rest: Bytes, before: seq<Value>)
    requires items != [] && FitsItems(num, items, rest)
    ensures Items(num, PrintItems(items) + rest, before) == Done(Arr(before + Meanings(items)), rest)
    decreases items, 0
  {
    hide Print, ParseValue, Meaning, Fits, Blank;
    var x, end := items[0], ItemsEnd(items);
    var tail := x.after + (end + rest);
    assert PrintItems(items) + rest == Print(x.value) + tail;
    PrintRoundTrip(num, x.value, tail);
    SkipsGap(x.after, end + rest);
    var v := Meaning(x.value);
    if |items| == 1 {
      assert (end + rest)[1..] == rest;
      assert Meanings(items) == [v] + Meanings([]) == [v];
    } else {
      assert (end + rest)[1..] == PrintItems(items[1..]) + rest;
      ItemsRoundTrip(num, items[1..], rest, before + [v]);
      assert before + [v] + Meanings(items[1..]) == before + Meanings(items);
    }
  }

  lemma {:induction false} ObjectRoundTrip(num: Bytes -> nat, members: seq<Member>, inner: Bytes, rest: Bytes)
    requires Blank(inner) && FitsMembers(num, members, rest)
    ensures ParseToken(num, Token(DObj(members, inner)) + rest) == Done(Obj(Bound(members, map[])), rest)
    decreases members, 1
  {
    hide Members, PrintMembers, Bound, Items, StringBody, Spell, Number, Literal, IsSpace, Blank, FitsMembers;
    var s := Token(DObj(members, inner)) + rest;
    if members == [] {
      assert s[1..] == inner + ([RBRACE] + rest);
      BracesAreNoSpace();
      assert Bound([], map[]) == map[] by { NothingBound(); }
      SkipsGap(inner, [RBRACE] + rest);
    } else {
      assert s[1..] == PrintMembers(members) + rest;
      MembersStartFresh(num, members, rest);
      MembersRoundTrip(num, members, rest, map[]);
    }
  }

  lemma BracesAreNoSpace()
    ensures !IsSpace(LBRACE) && !IsSpace(RBRACE) && !IsSpace(QUOTE)
  {
  }

  lemma NothingBound()
    ensures Bound([], map[]) == map[]
  {
  }

  lemma MembersStartFresh(num: Bytes -> nat, members: seq<Member>, rest: Bytes)
    requires members != [] && FitsMembers(num, members, rest)
    ensures Skip(PrintMembers(members) + rest) == Quoted(members[0].name) + (AfterName(members) + rest)
  {
    hide Print, Quoted, AfterName;
    var t := Quoted(members[0].name) + (AfterName(members) + rest);
    assert PrintMembers(members) + rest == members[0].gap + t;
    assert t[0] == QUOTE by { QuotedStarts(members[0].name); }
    SkipsGap(members[0].gap, t);
  }

  lemma QuotedStarts(s: Spelling)
    ensures Quoted(s) != [] && Quoted(s)[0] == QUOTE
  {
  }

  lemma {:induction false} MembersRoundTrip(
    num: Bytes -> nat, members: seq<Member>, rest: Bytes, acc: map<Bytes, Value>)
    requires members != [] && FitsMembers(num, members, rest)
    ensures Members(num, PrintMembers(members) + rest, acc) == Done(Obj(Bound(members, acc)), rest)
    decreases members, 0
  {
    hide Skip, Print, ParseValue, Meaning, StringBody, Quoted, PrintMembers, Fits, Blank, TextOf;
    var m, end := members[0], MembersEnd(members);
    var tail := m.after + (end + rest);
    MembersStartFresh(num, members, rest);
    QuotedReads(m.name, AfterName(members) + rest);
    assert AfterName(members) + rest == m.beforeColon + ([COLON] + (Print(m.value) + tail));
    SkipsGap(m.beforeColon, [COLON] + (Print(m.value) + tail));
    assert ([COLON] + (Print(m.value) + tail))[1..] == Print(m.value) + tail;
    PrintRoundTrip(num, m.value, tail);
    SkipsGap(m.after, end + rest);
    if |members| == 1 {
      assert (end + rest)[1..] == rest;
      assert members[1..] == [];
    } else {
      assert (end + rest)[1..] == PrintMembers(members[1..]) + rest;
      MembersRoundTrip(num, members[1..], rest, acc[TextOf(m.name) := Meaning(m.value)]);
    }
  }

  /** parse() returns the document and consumes all input, white space after it included. */
  lemma ParseRoundTrip(num: Bytes -> nat, d: Doc, trailing: Bytes)
    requires Fits(num, d, trailing) && Blank(trailing)
    ensures Parse(num, Print(d) + trailing) == Some(Meaning(d))
  {
    PrintRoundTrip(num, d, trailing);
    assert trailing + [] == trailing;
    SkipsGap(trailing, []);
  }

  // ---- the initialize request -----------------------------------------------------------------------------

  const OP: Bytes := [111, 112]
  const INITIALIZE: Bytes := [105, 110, 105, 116, 105, 97, 108, 105, 122, 101]
  const MODEL_PATH: Bytes := [109, 111, 100, 101, 108, 95, 112, 97, 116, 104]
  const LANGUAGE: Bytes := [108, 97, 110, 103, 117, 97, 103, 101]

  // "name":"text", with the text written as given.
  function Field(name: Bytes, text: Bytes): Bytes
  {
    [QUOTE] + name + [QUOTE, COLON, QUOTE] + text + [QUOTE]
  }

  /** make_initialize_request */
  function InitializeRequest(modelPath: Bytes, language: Bytes): Bytes
  {
    [LBRACE] + Field(OP, INITIALIZE) + [COMMA] + Field(MODEL_PATH, Escape(modelPath)) + [COMMA] +
    Field(LANGUAGE, Escape(language)) + [RBRACE]
  }

  /** A member as the requests are written: a string value and no white space. */
  function Tight(name: Bytes, text: Bytes): Member
  {
    Member([], Written(name), [], Doc([], DStr(Written(text))), [])
  }

  function InitializeDoc(modelPath: Bytes, language: Bytes): Doc
  {
    Doc([], DObj([Tight(OP, INITIALIZE), Tight(MODEL_PATH, modelPath), Tight(LANGUAGE, language)], []))
  }

  lemma RequestFits(num: Bytes -> nat, modelPath: Bytes, language: Bytes)
    ensures Fits(num, InitializeDoc(modelPath, language), [])
  {
    hide Written, MembersEnd;
    var members := [Tight(OP, INITIALIZE), Tight(MODEL_PATH, modelPath), Tight(LANGUAGE, language)];
    assert forall m: Member, rest: Bytes :: m in members ==> Fits(num, m.value, rest);
    var rest: Bytes := [];
    assert members[1..][0] == members[1] && members[1..][1..][0] == members[2] && members[1..][1..][1..] == [];
    assert FitsMembers(num, members[1..][1..], rest);
    assert FitsMembers(num, members[1..], rest);
    assert FitsMembers(num, members, rest);
  }

  lemma FieldIsPrinted(name: Bytes, text: Bytes)
    requires Escape(name) == name
    ensures Quoted(Written(name)) + [COLON] + Quoted(Written(text)) == Field(name, Escape(text))
  {
    WrittenIsEscaped(name);
    WrittenIsEscaped(text);
    hide Escape, Written, Spell;
  }

  lemma OneMember(name: Bytes, text: Bytes)
    requires Escape(name) == name
    ensures PrintMembers([Tight(name, text)]) == Field(name, Escape(text)) + [RBRACE]
  {
    LastMember(Tight(name, text));
    TightIsField(name, text);
    hide PrintMembers, Spell, Print, Field, Escape;
  }

  lemma MoreMembers(name: Bytes, text: Bytes, ms: seq<Member>)
    requires ms != [] && Escape(name) == name
    ensures PrintMembers([Tight(name, text)] + ms) ==
      Field(name, Escape(text)) + [COMMA] + PrintMembers(ms)
  {
    MemberBefore(Tight(name, text), ms);
    TightIsField(name, text);
    hide PrintMembers, Spell, Print, Field, Escape;
  }

  lemma TightIsField(name: Bytes, text: Bytes)
    requires Escape(name) == name
    ensures var m := Tight(name, text);
      [QUOTE] + Spell(m.name) + [QUOTE, COLON] + Print(m.value) == Field(name, Escape(text))
  {
    FieldIsPrinted(name, text);
    hide Escape, Written, Spell;
    var m := Tight(name, text);
    assert Print(m.value) == Quoted(Written(text));
    hide Print;
    assert [QUOTE] + Spell(m.name) + [QUOTE, COLON] == Quoted(m.name) + [COLON];
  }

  lemma RequestIsPrinted(modelPath: Bytes, language: Bytes)
    ensures InitializeRequest(modelPath, language) == Print(InitializeDoc(modelPath, language))
  {
    hide Escape, PrintMembers, Field, Written, Spell;
    var a, b, c := Tight(OP, INITIALIZE), Tight(MODEL_PATH, modelPath), Tight(LANGUAGE, language);
    PlainTextIsUnchanged(OP);
    PlainTextIsUnchanged(INITIALIZE);
    PlainTextIsUnchanged(MODEL_PATH);
    PlainTextIsUnchanged(LANGUAGE);
    MoreMembers(OP, INITIALIZE, [b, c]);
    MoreMembers(MODEL_PATH, modelPath, [c]);
    OneMember(LANGUAGE, language);
    assert [a] + [b, c] == [a, b, c] && [b] + [c] == [b, c];
    Flatten([LBRACE], Field(OP, INITIALIZE), Field(MODEL_PATH, Escape(modelPath)), Field(LANGUAGE, Escape(language)));
  }

  lemma Flatten(open: Bytes, x: Bytes, y: Bytes, z: Bytes)
    ensures var rest := y + [COMMA] + (z + [RBRACE]);
      [] + (open + (x + [COMMA] + rest)) == open + x + [COMMA] + y + [COMMA] + z + [RBRACE]
  {
  }

  /** For all byte strings, quotes, backslashes and control bytes included, the request parses back to exactly its
      three fields. */
  lemma InitializeRequestRoundTrip(num: Bytes -> nat, modelPath: Bytes, language: Bytes)
    ensures Parse(num, InitializeRequest(modelPath, language)) ==
      Some(Obj(map[OP := Str(INITIALIZE), MODEL_PATH := Str(modelPath), LANGUAGE := Str(language)]))
    ensures OP != MODEL_PATH && OP != LANGUAGE && MODEL_PATH != LANGUAGE
  {
    hide Escape, Parse, Print, InitializeRequest, Meaning, Fits, Written;
    RequestIsPrinted(modelPath, language);
    var d := InitializeDoc(modelPath, language);
    RequestFits(num, modelPath, language);
    ParseRoundTrip(num, d, []);
    assert Print(d) + [] == Print(d);
    ThreeFields(modelPath, language);
    assert |OP| != |MODEL_PATH| && |OP| != |LANGUAGE| && |MODEL_PATH| != |LANGUAGE|;
  }

  /** Whatever the fields hold, the request is one line. */
  lemma InitializeRequestIsOneLine(modelPath: Bytes, language: Bytes)
    ensures NoControl(InitializeRequest(modelPath, language))
  {
    hide Escape;
    EscapedHasNoControl(modelPath);
    EscapedHasNoControl(language);
    FieldHasNoControl(OP, INITIALIZE);
    FieldHasNoControl(MODEL_PATH, Escape(modelPath));
    FieldHasNoControl(LANGUAGE, Escape(language));
  }

  lemma FieldHasNoControl(name: Bytes, text: Bytes)
    requires NoControl(name) && NoControl(text)
    ensures NoControl(Field(name, text))
  {
  }

  const TRANSCRIBE_HEAD: Bytes := [LBRACE, QUOTE] + OP + [QUOTE, COLON, QUOTE] + TRANSCRIBE + [QUOTE, COMMA, QUOTE] +
    SAMPLE_RATE + [QUOTE, COLON]
  const TRANSCRIBE: Bytes := [116, 114, 97, 110, 115, 99, 114, 105, 98, 101]
  const SAMPLE_RATE: Bytes := [115, 97, 109, 112, 108, 101, 95, 114, 97, 116, 101]
  const SAMPLES: Bytes := [115, 97, 109, 112, 108, 101, 115]

  /** make_transcribe_request; rate and samples are given as printed. */
  function TranscribeRequest(rate: Bytes, samples: seq<Bytes>): Bytes
  {
    TRANSCRIBE_HEAD + rate + [COMMA, QUOTE] + SAMPLES + [QUOTE, COLON, LBRACKET] + CommaSeparated(samples) +
    [RBRACKET, RBRACE]
  }

  function CommaSeparated(samples: seq<Bytes>): Bytes
  {
    if samples == [] then []
    else if |samples| == 1 then samples[0]
    else CommaSeparated(samples[..|samples| - 1]) + [COMMA] + samples[|samples| - 1]
  }

  /** The loop of make_transcribe_request. */
  method WriteTranscribeRequest(rate: Bytes, samples: seq<Bytes>) returns (request: Bytes)
    ensures request == TranscribeRequest(rate, samples)
  {
    var list := [];
    for i := 0 to |samples|
      invariant list == CommaSeparated(samples[..i])
    {
      assert samples[..i + 1][..i] == samples[..i];
      if i != 0 {
        list := list + [COMMA];
      }
      list := list + samples[i];
    }
    assert samples[..|samples|] == samples;
    return TRANSCRIBE_HEAD + rate + [COMMA, QUOTE] + SAMPLES + [QUOTE, COLON, LBRACKET] + list + [RBRACKET, RBRACE];
  }

  function SampleItems(samples: seq<Numeral>): (items: seq<Item>)
    ensures |items| == |samples|
  {
    seq(|samples|, i requires 0 <= i < |samples| => Item(Doc([], DNum(samples[i])), []))
  }

  function TranscribeDoc(rate: Numeral, samples: seq<Numeral>): Doc
  {
    Doc([], DObj([Tight(OP, TRANSCRIBE), Member([], Written(SAMPLE_RATE), [], Doc([], DNum(rate)), []),
                  Member([], Written(SAMPLES), [], Doc([], DArr(SampleItems(samples), [])), [])], []))
  }

  lemma {:induction false} CommaSeparatedFromFront(x: Bytes, rest: seq<Bytes>)
    requires rest != []
    ensures CommaSeparated([x] + rest) == x + [COMMA] + CommaSeparated(rest)
  {
    var all, init, last := [x] + rest, rest[..|rest| - 1], rest[|rest| - 1];
    assert all[..|all| - 1] == [x] + init;
    assert CommaSeparated(all) == CommaSeparated([x] + init) + [COMMA] + last;
    if init == [] {
      assert [x] + init == [x];
    } else {
      CommaSeparatedFromFront(x, init);
      assert CommaSeparated(rest) == CommaSeparated(init) + [COMMA] + last;
      hide CommaSeparated;
      Regroup(x + [COMMA], CommaSeparated(init), [COMMA] + last);
      Regroup(CommaSeparated(init), [COMMA], last);
    }
  }

  lemma {:induction false} SamplesArePrinted(samples: seq<Numeral>)
    requires samples != []
    ensures PrintItems(SampleItems(samples)) == CommaSeparated(samples) + [RBRACKET]
  {
    var items := SampleItems(samples);
    assert Print(items[0].value) == samples[0];
    if |samples| > 1 {
      assert items[1..] == SampleItems(samples[1..]);
      SamplesArePrinted(samples[1..]);
      CommaSeparatedFromFront(samples[0], samples[1..]);
      assert [samples[0]] + samples[1..] == samples;
    }
  }

  lemma ListIsPrinted(samples: seq<Numeral>)
    ensures Print(Doc([], DArr(SampleItems(samples), []))) == [LBRACKET] + CommaSeparated(samples) + [RBRACKET]
  {
    hide PrintItems, CommaSeparated;
    if samples != [] {
      SamplesArePrinted(samples);
    } else {
      assert CommaSeparated([]) == [] by { NothingListed(); }
    }
  }

  lemma NothingListed()
    ensures CommaSeparated([]) == []
  {
  }

  predicate Plain(m: Member)
  {
    m.gap == [] && m.beforeColon == [] && m.after == []
  }

  lemma LastMember(m: Member)
    requires Plain(m)
    ensures PrintMembers([m]) == [QUOTE] + Spell(m.name) + [QUOTE, COLON] + Print(m.value) + [RBRACE]
  {
    hide Print, Spell;
    assert MembersEnd([m]) == [RBRACE];
    assert AfterName([m]) == [] + [COLON] + Print(m.value) + [] + [RBRACE];
  }

  lemma MemberBefore(m: Member, ms: seq<Member>)
    requires Plain(m) && ms != []
    ensures PrintMembers([m] + ms) ==
      [QUOTE] + Spell(m.name) + [QUOTE, COLON] + Print(m.value) + [COMMA] + PrintMembers(ms)
  {
    hide Print, Spell;
    var all := [m] + ms;
    assert all[1..] == ms;
    assert MembersEnd(all) == [COMMA] + PrintMembers(ms);
    assert AfterName(all) == [] + [COLON] + Print(m.value) + [] + MembersEnd(all);
  }

  lemma ThreePrinted(a: Member, b: Member, c: Member)
    requires Plain(a) && Plain(b) && Plain(c)
    ensures Print(Doc([], DObj([a, b, c], []))) ==
      [LBRACE] +
      ([QUOTE] + Spell(a.name) + [QUOTE, COLON] + Print(a.value) + [COMMA] +
        ([QUOTE] + Spell(b.name) + [QUOTE, COLON] + Print(b.value) + [COMMA] +
          ([QUOTE] + Spell(c.name) + [QUOTE, COLON] + Print(c.value) + [RBRACE])))
  {
    ObjectIsPrinted(Doc([], DObj([a, b, c], [])));
    hide Spell, PrintMembers, Print;
    LastMember(c);
    MemberBefore(b, [c]);
    MemberBefore(a, [b, c]);
    assert [a, b, c] == [a] + [b, c] && [b, c] == [b] + [c];
  }

  lemma ValuesArePrinted(rate: Numeral, samples: seq<Numeral>)
    ensures Print(Doc([], DStr(Written(TRANSCRIBE)))) == [QUOTE] + TRANSCRIBE + [QUOTE]
    ensures Print(Doc([], DNum(rate))) == rate
    ensures Print(Doc([], DArr(SampleItems(samples), []))) == [LBRACKET] + CommaSeparated(samples) + [RBRACKET]
  {
    hide Escape, PrintItems, CommaSeparated, Written, Spell;
    WrittenIsEscaped(TRANSCRIBE);
    PlainTextIsUnchanged(TRANSCRIBE);
    ListIsPrinted(samples);
  }

  lemma NamesArePlain()
    ensures Spell(Written(OP)) == OP && Spell(Written(SAMPLE_RATE)) == SAMPLE_RATE && Spell(Written(SAMPLES)) == SAMPLES
  {
    hide Escape, Written, Spell;
    WrittenIsEscaped(OP);
    WrittenIsEscaped(SAMPLE_RATE);
    WrittenIsEscaped(SAMPLES);
    PlainTextIsUnchanged(OP);
    PlainTextIsUnchanged(SAMPLE_RATE);
    PlainTextIsUnchanged(SAMPLES);
  }

  lemma TranscribeIsPrinted(rate: Numeral, samples: seq<Numeral>)
    ensures TranscribeRequest(rate, samples) == Print(TranscribeDoc(rate, samples))
  {
    hide Escape, Print, CommaSeparated, SampleItems, Written, Spell;
    var members := TranscribeDoc(rate, samples).form.members;
    ValuesArePrinted(rate, samples);
    NamesArePlain();
    ThreePrinted(members[0], members[1], members[2]);
    Pieces(rate, CommaSeparated(samples));
  }

  lemma Pieces(rate: Bytes, list: Bytes)
    ensures TRANSCRIBE_HEAD + rate + [COMMA, QUOTE] + SAMPLES + [QUOTE, COLON, LBRACKET] + list + [RBRACKET, RBRACE] ==
      [LBRACE] +
      ([QUOTE] + OP + [QUOTE, COLON] + ([QUOTE] + TRANSCRIBE + [QUOTE]) + [COMMA] +
        ([QUOTE] + SAMPLE_RATE + [QUOTE, COLON] + rate + [COMMA] +
          ([QUOTE] + SAMPLES + [QUOTE, COLON] + ([LBRACKET] + list + [RBRACKET]) + [RBRACE])))
  {
    hide OP, TRANSCRIBE, SAMPLE_RATE, SAMPLES;
  }

  lemma ObjectIsPrinted(d: Doc)
    requires d.gap == [] && d.form.DObj? && d.form.members != []
    ensures Print(d) == [LBRACE] + PrintMembers(d.form.members)
  {
  }

  lemma {:induction false} SamplesFit(num: Bytes -> nat, samples: seq<Numeral>, rest: Bytes)
    requires forall s :: s in samples ==> TakenWhole(num, s)
    ensures FitsItems(num, SampleItems(samples), rest)
  {
    if samples != [] {
      hide TakenWhole, EndsNumber, PrintItems;
      var items := SampleItems(samples);
      assert items[1..] == SampleItems(samples[1..]);
      SamplesFit(num, samples[1..], rest);
      var tail := items[0].after + (ItemsEnd(items) + rest);
      assert samples[0] in samples && EndsNumber(tail) by { ItemsEndIsDelimiter(items, rest); }
      TakenThere(num, samples[0], tail);
      assert FitsForm(num, items[0].value.form, tail);
    }
  }

  lemma ItemsEndIsDelimiter(items: seq<Item>, rest: Bytes)
    requires items != [] && items[0].after == []
    ensures EndsNumber(items[0].after + (ItemsEnd(items) + rest))
  {
  }

  lemma TakenThere(num: Bytes -> nat, text: Bytes, rest: Bytes)
    requires TakenWhole(num, text) && EndsNumber(rest)
    ensures num(text + rest) == |text|
  {
  }

  lemma TranscribeFits(num: Bytes -> nat, rate: Numeral, samples: seq<Numeral>)
    requires TakenWhole(num, rate) && forall s :: s in samples ==> TakenWhole(num, s)
    ensures Fits(num, TranscribeDoc(rate, samples), [])
  {
    hide TakenWhole, FitsItems, PrintMembers, Written, SampleItems;
    var members := TranscribeDoc(rate, samples).form.members;
    var last, middle := members[1..][1..], members[1..];
    assert last[1..] == [] && last[0] == members[2] && middle[0] == members[1];
    var end := last[0].after + (MembersEnd(last) + []);
    SamplesFit(num, samples, end);
    assert FitsForm(num, last[0].value.form, end);
    assert FitsMembers(num, last[1..], []);
    assert FitsMembers(num, last, []);
    var tail := middle[0].after + (MembersEnd(middle) + []);
    assert tail[0] == COMMA;
    TakenThere(num, rate, tail);
    assert FitsForm(num, middle[0].value.form, tail);
    assert FitsMembers(num, middle, []);
    assert FitsMembers(num, members, []);
  }

  lemma {:induction false} SampleMeanings(samples: seq<Numeral>)
    ensures var values := Meanings(SampleItems(samples));
      |values| == |samples| && forall i :: 0 <= i < |samples| ==> values[i] == Num(samples[i])
  {
    if samples != [] {
      SampleMeanings(samples[1..]);
      var items := SampleItems(samples);
      assert items[1..] == SampleItems(samples[1..]);
      assert Meaning(items[0].value) == Num(samples[0]);
      assert Meanings(items) == [Num(samples[0])] + Meanings(items[1..]);
    }
  }

  /** A transcribe request parses back to its operation, its rate and its samples, each as printed and in order, for any
      number reader that takes them whole. */
  lemma TranscribeRequestRoundTrip(num: Bytes -> nat, rate: Numeral, samples: seq<Numeral>)
    requires TakenWhole(num, rate) && forall s :: s in samples ==> TakenWhole(num, s)
    ensures OP != SAMPLE_RATE && OP != SAMPLES && SAMPLE_RATE != SAMPLES
    ensures Parse(num, TranscribeRequest(rate, samples)) ==
      Some(Obj(map[OP := Str(TRANSCRIBE), SAMPLE_RATE := Num(rate),
                   SAMPLES := Arr(seq(|samples|, i requires 0 <= i < |samples| => Num(samples[i])))]))
  {
    hide Parse, Print, TranscribeRequest, TakenWhole, Meaning, Fits, Written, SampleItems;
    var d := TranscribeDoc(rate, samples);
    TranscribeIsPrinted(rate, samples);
    TranscribeFits(num, rate, samples);
    ParseRoundTrip(num, d, []);
    assert Print(d) + [] == Print(d);
    TranscribeMeaning(rate, samples);
    assert |OP| != |SAMPLE_RATE| && |OP| != |SAMPLES| && |SAMPLE_RATE| != |SAMPLES|;
  }

  lemma NamesMean()
    ensures TextOf(Written(OP)) == OP && TextOf(Written(SAMPLE_RATE)) == SAMPLE_RATE
    ensures TextOf(Written(SAMPLES)) == SAMPLES && Meaning(Doc([], DStr(Written(TRANSCRIBE)))) == Str(TRANSCRIBE)
  {
    hide Written, TextOf, Meaning;
    WrittenIsEscaped(OP);
    WrittenIsEscaped(SAMPLE_RATE);
    WrittenIsEscaped(SAMPLES);
    WrittenMeans(TRANSCRIBE);
  }

  lemma TranscribeMeaning(rate: Numeral, samples: seq<Numeral>)
    ensures Meaning(TranscribeDoc(rate, samples)) ==
      Obj(map[OP := Str(TRANSCRIBE), SAMPLE_RATE := Num(rate),
              SAMPLES := Arr(seq(|samples|, i requires 0 <= i < |samples| => Num(samples[i])))])
  {
    SampleMeanings(samples);
    assert Meanings(SampleItems(samples)) == seq(|samples|, i requires 0 <= i < |samples| => Num(samples[i]));
    ValueMeanings(rate, samples);
    hide Meaning, Meanings, Written, TextOf, SampleItems;
    NamesMean();
    var members := TranscribeDoc(rate, samples).form.members;
    MeaningOfThree(members[0], members[1], members[2]);
  }

  lemma ValueMeanings(rate: Numeral, samples: seq<Numeral>)
    ensures Meaning(Doc([], DNum(rate))) == Num(rate)
    ensures Meaning(Doc([], DArr(SampleItems(samples), []))) == Arr(Meanings(SampleItems(samples)))
  {
    hide Meanings, SampleItems;
  }

  /** If numbers print without control bytes, a transcribe request is one line, however many samples it carries. */
  lemma TranscribeRequestIsOneLine(rate: Bytes, samples: seq<Bytes>)
    requires NoControl(rate) && forall s :: s in samples ==> NoControl(s)
    ensures NoControl(TranscribeRequest(rate, samples))
  {
    ListHasNoControl(samples);
  }

  lemma {:induction false} ListHasNoControl(samples: seq<Bytes>)
    requires forall s :: s in samples ==> NoControl(s)
    ensures NoControl(CommaSeparated(samples))
  {
    if |samples| > 1 {
      ListHasNoControl(samples[..|samples| - 1]);
      assert samples[|samples| - 1] in samples;
    }
  }

  lemma BoundCons(m: Member, ms: seq<Member>, acc: map<Bytes, Value>)
    ensures Bound([m] + ms, acc) == Bound(ms, acc[TextOf(m.name) := Meaning(m.value)])
  {
    assert ([m] + ms)[1..] == ms;
  }

  lemma MeaningOfThree(a: Member, b: Member, c: Member)
    ensures Meaning(Doc([], DObj([a, b, c], []))) ==
      Obj(map[][TextOf(a.name) := Meaning(a.value)][TextOf(b.name) := Meaning(b.value)]
               [TextOf(c.name) := Meaning(c.value)])
  {
    hide TextOf;
    assert [a, b, c] == [a] + ([b] + ([c] + []));
    BoundCons(a, [b] + ([c] + []), map[]);
    BoundCons(b, [c] + [], map[][TextOf(a.name) := Meaning(a.value)]);
    BoundCons(c, [], map[][TextOf(a.name) := Meaning(a.value)][TextOf(b.name) := Meaning(b.value)]);
  }

  lemma WrittenMeans(text: Bytes)
    ensures Meaning(Doc([], DStr(Written(text)))) == Str(text)
  {
    WrittenIsEscaped(text);
    hide Written, TextOf;
  }

  lemma ThreeFields(modelPath: Bytes, language: Bytes)
    ensures Meaning(InitializeDoc(modelPath, language)) ==
      Obj(map[OP := Str(INITIALIZE), MODEL_PATH := Str(modelPath), LANGUAGE := Str(language)])
  {
    hide Written, TextOf, Meaning;
    WrittenIsEscaped(OP);
    WrittenIsEscaped(MODEL_PATH);
    WrittenIsEscaped(LANGUAGE);
    WrittenMeans(INITIALIZE);
    WrittenMeans(modelPath);
    WrittenMeans(language);
    MeaningOfThree(Tight(OP, INITIALIZE), Tight(MODEL_PATH, modelPath), Tight(LANGUAGE, language));
  }

  // ---- the parser object ----------------------------------------------------------------------------------

  class JsonParser {
    const input: Bytes
    const num: Bytes -> nat
    var position: nat

    ghost predicate Valid()
      reads this
    {
      position <= |input|
    }

    ghost function Left(): Bytes
      requires Valid()
      reads this
    {
      input[position..]
    }

    constructor (input: Bytes, num: Bytes -> nat)
      ensures Valid() && this.input == input && this.num == num && Left() == input
    {
      this.input, this.num, position := input, num, 0;
    }

    method SkipWhitespace()
      requires Valid()
      modifies this`position
      ensures Valid() && Left() == Skip(old(Left())) && position >= old(position)
    {
      while position < |input| && IsSpace(input[position])
        invariant Valid() && Skip(Left()) == Skip(old(Left())) && position >= old(position)
      {
        assert Left()[1..] == input[position + 1..];
        position := position + 1;
      }
    }

    method ConsumeIf(c: Byte) returns (hit: bool)
      requires Valid()
      modifies this`position
      ensures Valid() && position >= old(position)
      ensures hit <==> old(Left()) != [] && old(Left())[0] == c
      ensures Left() == if hit then old(Left())[1..] else old(Left())
    {
      if position < |input| && input[position] == c {
        position := position + 1;
        return true;
      }
      return false;
    }

    /** expect(): false where the original throws. */
    method Expect(c: Byte) returns (ok: bool)
      requires Valid()
      modifies this`position
      ensures Valid() && position >= old(position)
      ensures ok <==> Skip(old(Left())) != [] && Skip(old(Left()))[0] == c
      ensures ok ==> Left() == Skip(old(Left()))[1..] && position > old(position)
    {
      SkipWhitespace();
      if position == |input| || input[position] != c {
        return false;
      }
      position := position + 1;
      return true;
    }

    method ConsumeLiteral(word: Bytes, value: Value) returns (r: Option<Value>)
      requires Valid() && word != []
      modifies this`position
      ensures Valid() && Agrees(r, Literal(old(Left()), word, value), Left())
    {
      if |input| - position < |word| || input[position..position + |word|] != word {
        return None;
      }
      position := position + |word|;
      return Some(value);
    }

    method ParseNumber() returns (r: Option<Value>)
      requires Valid()
      modifies this`position
      ensures Valid() && Agrees(r, Number(num, old(Left())), Left())
    {
      var taken := num(input[position..]);
      if taken == 0 || taken > |input| - position {
        return None;
      }
      var text := input[position..position + taken];
      assert text == Left()[..taken] && Left()[taken..] == input[position + taken..];
      position := position + taken;
      return Some(Num(text));
    }

    /** append_unicode_escape: four digits, then the encoded unit. */
    method AppendUnicodeEscape(text: Bytes) returns (r: Option<Bytes>)
      requires Valid()
      modifies this`position
      ensures Valid() && position >= old(position)
      ensures r.Some? <==> CodeUnit(old(Left())).Some?
      ensures r.Some? ==> r.value == text + Utf8(CodeUnit(old(Left())).value) && Left() == old(Left())[4..]
    {
      if position + 4 > |input| {
        return None;
      }
      var unit: nat := 0;
      for index := 0 to 4
        invariant position == old(position) + index && Valid() && unit < Cap(4 - index)
        invariant HexFrom(Left(), 4 - index, unit) == CodeUnit(old(Left()))
      {
        assert Left()[1..] == input[position + 1..];
        var digit := HexValue(input[position]);
        position := position + 1;
        if digit.None? {
          return None;
        }
        unit := unit * 16 + digit.value;
      }
      assert Left() == old(Left())[4..];
      return Some(text + Utf8(unit));
    }

    /** parse_string, from its opening quote on. */
    method ParseString() returns (r: Option<Bytes>)
      requires Valid()
      modifies this`position
      ensures Valid() && position >= old(position)
      ensures Skip(old(Left())) == [] || Skip(old(Left()))[0] != QUOTE ==> r.None?
      ensures Skip(old(Left())) != [] && Skip(old(Left()))[0] == QUOTE ==>
        match StringBody(Skip(old(Left()))[1..], [])
        case TextError => r.None?
        case TextDone(text, rest) => r == Some(text) && Left() == rest && position > old(position)
    {
      hide Skip, Utf8, CodeUnit, SimpleEscape, StringBody, Unescape;
      var begun := Expect(QUOTE);
      if !begun {
        return None;
      }
      var text := [];
      while position < |input|
        invariant Valid() && position > old(position)
        invariant StringBody(Left(), text) == StringBody(Skip(old(Left()))[1..], [])
        decreases |input| - position
      {
        var c := input[position];
        StringStep(input, position, text);
        position := position + 1;
        if c == QUOTE {
          return Some(text);
        }
        if c < 32 {
          return None;
        }
        if c != BACKSLASH {
          text := text + [c];
          continue;
        }
        if position == |input| {
          return None;
        }
        var escaped := input[position];
        UnescapeCases(input, position);
        position := position + 1;
        var simple := SimpleEscape(escaped);
        if simple.Some? {
          text := text + [simple.value];
        } else if escaped == 117 {
          var longer := AppendUnicodeEscape(text);
          if longer.None? {
            return None;
          }
          text := longer.value;
        } else {
          return None;
        }
      }
      return None;
    }

    method ParseArray() returns (r: Option<Value>)
      requires Valid() && Left() != [] && Left()[0] == LBRACKET
      modifies this`position
      ensures Valid() && Agrees(r, ParseToken(num, old(Left())), Left())
      decreases |input| - position, 0
    {
      hide Skip, ParseValue, Members;
      SkipsNothing(Left());
      var ok := Expect(LBRACKET);
      ghost var body := Left();
      SkipWhitespace();
      var closed := ConsumeIf(RBRACKET);
      if closed {
        return Some(Arr([]));
      }
      SkipTwice(body);
      ItemsSkip(num, body);
      var items := [];
      while true
        invariant Valid() && position > old(position)
        invariant Items(num, Left(), items) == ParseToken(num, old(Left()))
        decreases |input| - position
      {
        var value := ParseAnyValue();
        if value.None? {
          return None;
        }
        items := items + [value.value];
        SkipWhitespace();
        var done := ConsumeIf(RBRACKET);
        if done {
          return Some(Arr(items));
        }
        SkipsNothing(Left());
        var comma := Expect(COMMA);
        if !comma {
          return None;
        }
      }
    }

    method ParseObject() returns (r: Option<Value>)
      requires Valid() && Left() != [] && Left()[0] == LBRACE
      modifies this`position
      ensures Valid() && Agrees(r, ParseToken(num, old(Left())), Left())
      decreases |input| - position, 0
    {
      hide Skip, ParseValue, Items, StringBody;
      SkipsNothing(Left());
      var ok := Expect(LBRACE);
      ghost var body := Left();
      SkipWhitespace();
      var closed := ConsumeIf(RBRACE);
      if closed {
        return Some(Obj(map[]));
      }
      MembersSkip(num, body, map[]);
      var members: map<Bytes, Value> := map[];
      while true
        invariant Valid() && position > old(position)
        invariant Members(num, Left(), members) == ParseToken(num, old(Left()))
        decreases |input| - position
      {
        SkipTwice(Left());
        SkipWhitespace();
        if position == |input| || input[position] != QUOTE {
          return None;
        }
        SkipsNothing(Left());
        var name := ParseString();
        if name.None? {
          return None;
        }
        SkipTwice(Left());
        SkipWhitespace();
        var colon := Expect(COLON);
        if !colon {
          return None;
        }
        var value := ParseAnyValue();
        if value.None? {
          return None;
        }
        members := members[name.value := value.value];
        SkipWhitespace();
        var done := ConsumeIf(RBRACE);
        if done {
          return Some(Obj(members));
        }
        SkipsNothing(Left());
        var comma := Expect(COMMA);
        if !comma {
          return None;
        }
      }
    }

    /** parse_value */
    method ParseAnyValue() returns (r: Option<Value>)
      requires Valid()
      modifies this`position
      ensures Valid() && Agrees(r, ParseValue(num, old(Left())), Left())
      ensures r.Some? ==> position > old(position)
      decreases |input| - position, 1
    {
      hide Skip, Items, Members, StringBody, Literal, Number;
      SkipWhitespace();
      if position == |input| {
        return None;
      }
      var c := input[position];
      if c == LBRACE {
        r := ParseObject();
      } else if c == LBRACKET {
        r := ParseArray();
      } else if c == QUOTE {
        SkipsNothing(Left());
        var text := ParseString();
        r := if text.Some? then Some(Str(text.value)) else None;
      } else if c == 116 {
        r := ConsumeLiteral(TRUE, Bool(true));
      } else if c == 102 {
        r := ConsumeLiteral(FALSE, Bool(false));
      } else if c == 110 {
        r := ConsumeLiteral(NULL, Null);
      } else {
        r := ParseNumber();
      }
    }

    /** parse(): the whole input is one value. */
    method ParseAll() returns (r: Option<Value>)
      requires Valid() && position == 0
      modifies this`position
      ensures r == Parse(num, input)
    {
      hide ParseValue, Skip;
      r := ParseAnyValue();
      if r.None? {
        return;
      }
      SkipWhitespace();
      if position != |input| {
        return None;
      }
    }
  }

  lemma SkipsNothing(s: Bytes)
    requires s == [] || !IsSpace(s[0])
    ensures Skip(s) == s
  {
  }

  lemma SkipTwice(s: Bytes)
    ensures Skip(Skip(s)) == Skip(s)
  {
    SkipsNothing(Skip(s));
  }

  lemma ItemsSkip(num: Bytes -> nat, s: Bytes)
    ensures Items(num, Skip(s), []) == Items(num, s, [])
  {
    hide ParseToken;
    SkipTwice(s);
  }

  lemma MembersSkip(num: Bytes -> nat, s: Bytes, members: map<Bytes, Value>)
    ensures Members(num, Skip(s), members) == Members(num, s, members)
  {
    hide ParseValue, StringBody;
    SkipTwice(s);
  }

  /** One step of reading a string literal, in positions of the input. */
  lemma StringStep(input: Bytes, at: nat, text: Bytes)
    requires at < |input|
    ensures var c, body := input[at], StringBody(input[at..], text);
      (c == QUOTE ==> body == TextDone(text, input[at + 1..])) &&
      (c < 32 ==> body == TextError) &&
      (c >= 32 && c != QUOTE && c != BACKSLASH ==> body == StringBody(input[at + 1..], text + [c])) &&
      (c == BACKSLASH && (at + 1 == |input| || Unescape(input[at + 1..]).None?) ==> body == TextError) &&
      (c == BACKSLASH && at + 1 < |input| && Unescape(input[at + 1..]).Some? ==>
        var u := Unescape(input[at + 1..]).value;
        body == StringBody(input[at + 1 + u.used..], text + u.text))
  {
    hide Unescape;
    var s := input[at..];
    assert s[1..] == input[at + 1..];
    if at + 1 < |input| && Unescape(input[at + 1..]).Some? {
      var used := Unescape(input[at + 1..]).value.used;
      assert s[1 + used..] == input[at + 1 + used..];
    }
  }

  lemma UnescapeCases(input: Bytes, at: nat)
    requires at < |input|
    ensures var e, u := SimpleEscape(input[at]), Unescape(input[at..]);
      (e.Some? ==> u == Some(Unescaped([e.value], 1))) &&
      (e.None? && (input[at] != 117 || CodeUnit(input[at + 1..]).None?) ==> u.None?) &&
      (e.None? && input[at] == 117 && CodeUnit(input[at + 1..]).Some? ==>
        u == Some(Unescaped(Utf8(CodeUnit(input[at + 1..]).value), 5)))
  {
    assert input[at..][1..] == input[at + 1..];
  }

  /** The outcome of a parse method: nothing where the original throws, else the value with the rest left. */
  ghost predicate Agrees(r: Option<Value>, p: Parsed, left: Bytes)
  {
    match p
    case Error => r.None?
    case Done(v, rest) => r == Some(v) && left == rest
  }
}
