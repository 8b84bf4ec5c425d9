/** The scalars of a frontmatter block and the text they are written as. */
module ScalarText {
  import opened Options

  // White space ------------------------------------------------------------------------------------------------------

  predicate IsLineTerminator(c: char) { c == '\n' || c == '\r' || c == '\U{2028}' || c == '\U{2029}' }

  predicate HasLineTerminator(s: string) { exists i :: 0 <= i < |s| && IsLineTerminator(s[i]) }

  /** White space as trim and the pattern class for it have it. */
  predicate IsSpace(c: char) {
    || IsLineTerminator(c) || c == ' ' || c == '\t' || c == '\U{0B}' || c == '\U{0C}'
    || c == '\U{A0}' || c == '\U{1680}' || '\U{2000}' <= c <= '\U{200A}'
    || c == '\U{202F}' || c == '\U{205F}' || c == '\U{3000}' || c == '\U{FEFF}'
  }

  function TrimStart(s: string): (r: string)
    ensures |r| <= |s| && (r == [] || !IsSpace(r[0]))
  {
    if s != [] && IsSpace(s[0]) then TrimStart(s[1..]) else s
  }

  lemma {:induction false} TrimStartDrops(s: string) returns (n: nat)
    ensures n <= |s| && TrimStart(s) == s[n..] && forall i :: 0 <= i < n ==> IsSpace(s[i])
  {
    hide IsSpace;
    n := 0;
    if s != [] && IsSpace(s[0]) {
      n := TrimStartDrops(s[1..]);
      n := n + 1;
    }
  }

  function TrimEnd(s: string): (r: string)
    ensures r <= s && (r == [] || !IsSpace(r[|r| - 1]))
  {
    if s != [] && IsSpace(s[|s| - 1]) then TrimEnd(s[..|s| - 1]) else s
  }

  function Trim(s: string): string { TrimEnd(TrimStart(s)) }

  predicate IsBlank(s: string) { forall i :: 0 <= i < |s| ==> IsSpace(s[i]) }

  predicate IsTrimmed(s: string) { s == [] || (!IsSpace(s[0]) && !IsSpace(s[|s| - 1])) }

  lemma TrimmedStays(s: string)
    requires IsTrimmed(s)
    ensures Trim(s) == s
  {
  }

  lemma SpaceBehind(s: string, c: char)
    requires IsTrimmed(s) && IsSpace(c)
    ensures Trim(s + [c]) == s
  {
    hide IsSpace;
    if s == [] {
      assert s + [c] == [c] && (s + [c])[1..] == [];
    } else {
      var t := s + [c];
      assert t[0] == s[0] && t[..|t| - 1] == s;
      assert TrimStart(t) == t && TrimEnd(t) == TrimEnd(s) == s;
    }
  }

  lemma {:induction false} TrimIsTrimmed(s: string)
    ensures IsTrimmed(Trim(s))
    ensures Trim(s) == [] <==> IsBlank(s)
  {
    TrimEndBlank(TrimStart(s));
    var n := TrimStartDrops(s);
  }

  lemma {:induction false} TrimEndBlank(s: string)
    ensures TrimEnd(s) == [] ==> IsBlank(s)
  {
    if s != [] && IsSpace(s[|s| - 1]) {
      TrimEndBlank(s[..|s| - 1]);
    }
  }

  // Quoted text ------------------------------------------------------------------------------------------------------

  function HexDigit(n: nat): char
    requires n < 16
  {
    if n < 10 then ('0' as int + n) as char else ('a' as int + n - 10) as char
  }

  function HexValue(c: char): Option<nat> {
    if '0' <= c <= '9' then Some(c as int - '0' as int)
    else if 'a' <= c <= 'f' then Some(c as int - 'a' as int + 10)
    else if 'A' <= c <= 'F' then Some(c as int - 'A' as int + 10)
    else None
  }

  /** How a character is written between double quotes: JSON.stringify, RFC 8259 section 7. */
  function Escape(c: char): string {
    if c == '"' then "\\\""
    else if c == '\\' then "\\\\"
    else if c == '\U{08}' then "\\b"
    else if c == '\U{0C}' then "\\f"
    else if c == '\n' then "\\n"
    else if c == '\r' then "\\r"
    else if c == '\t' then "\\t"
    else if c < ' ' then "\\u00" + [HexDigit(c as int / 16), HexDigit(c as int % 16)]
    else [c]
  }

  function EscapeAll(s: string): string { if s == [] then [] else Escape(s[0]) + EscapeAll(s[1..]) }

  function Quote(s: string): string { "\"" + EscapeAll(s) + "\"" }

  /** The character that an escape after a backslash stands for, and the length of the escape. */
  function Unescape(s: string): Option<(char, nat)> {
    if s == [] then None
    else if s[0] == '"' || s[0] == '\\' || s[0] == '/' then Some((s[0], 1))
    else if s[0] == 'b' then Some(('\U{08}', 1))
    else if s[0] == 'f' then Some(('\U{0C}', 1))
    else if s[0] == 'n' then Some(('\n', 1))
    else if s[0] == 'r' then Some(('\r', 1))
    else if s[0] == 't' then Some(('\t', 1))
    else if s[0] == 'u' && |s| >= 5 && (forall i :: 1 <= i < 5 ==> HexValue(s[i]).Some?) then
      var code := ((HexValue(s[1]).value * 16 + HexValue(s[2]).value) * 16 + HexValue(s[3]).value) * 16 +
        HexValue(s[4]).value;
      if code < 0xD800 || 0xE000 <= code < 0x1_0000 then Some((code as char, 5)) else None
    else None
  }

  /** The text between double quotes, as JSON.parse reads it. */
  function UnescapeAll(s: string): Option<string> {
    if s == [] then Some([])
    else if s[0] == '"' || s[0] < ' ' then None
    else if s[0] != '\\' then
      var rest := UnescapeAll(s[1..]);
      if rest.Some? then Some([s[0]] + rest.value) else None
    else
      match Unescape(s[1..])
      case None => None
      case Some((c, n)) =>
        if n > |s| - 1 then None
        else
          var rest := UnescapeAll(s[1 + n..]);
          if rest.Some? then Some([c] + rest.value) else None
  }

  lemma UnescapeEscape(c: char, rest: string)
    ensures
      var s := Escape(c) + rest;
      if s[0] == '\\' then
        Unescape(s[1..]) == Some((c, |Escape(c)| - 1)) && s[|Escape(c)|..] == rest
      else s == [c] + rest && c >= ' ' && c != '"'
  {
    var s := Escape(c) + rest;
    if c < ' ' && |Escape(c)| == 6 {
      assert s[1] == 'u' && s[2] == '0' && s[3] == '0';
      assert HexValue(s[4]) == Some(c as int / 16) && HexValue(s[5]) == Some(c as int % 16);
    }
  }

  /** Quoted text is read back as it was. */
  lemma {:induction false} UnescapeEscapeAll(s: string)
    ensures UnescapeAll(EscapeAll(s)) == Some(s)
  {
    hide Escape, Unescape;
    if s != [] {
      UnescapeEscapeAll(s[1..]);
      UnescapeEscape(s[0], EscapeAll(s[1..]));
      var text := EscapeAll(s);
      assert s == [s[0]] + s[1..];
      if text[0] == '\\' {
        assert text[1 + (|Escape(s[0])| - 1)..] == EscapeAll(s[1..]);
      } else {
        assert text[1..] == EscapeAll(s[1..]);
      }
    }
  }

  /** A line separator or paragraph separator is not escaped; every other line terminator is. */
  predicate HasSeparator(s: string) { '\U{2028}' in s || '\U{2029}' in s }

  lemma EscapeTerminators(c: char)
    ensures '\n' !in Escape(c) && '\r' !in Escape(c)
    ensures HasSeparator(Escape(c)) <==> HasSeparator([c])
  {
  }

  lemma {:induction false} EscapeAllTerminators(s: string)
    ensures '\n' !in EscapeAll(s) && '\r' !in EscapeAll(s)
    ensures HasSeparator(EscapeAll(s)) <==> HasSeparator(s)
  {
    hide Escape;
    if s != [] {
      EscapeTerminators(s[0]);
      EscapeAllTerminators(s[1..]);
      assert s == [s[0]] + s[1..];
    }
  }

  /** The escapes as section 7 of RFC 8259 has them. */
  lemma EscapesAre(c: char, rest: string)
    ensures Escape('"') == ['\\', '"'] && Escape('\\') == ['\\', '\\'] && Escape('\n') == ['\\', 'n'] &&
      Escape('\r') == ['\\', 'r']
    ensures Escape('\t') == ['\\', 't'] && Escape('\U{08}') == ['\\', 'b'] && Escape('\U{0C}') == ['\\', 'f']
    ensures Escape('\U{01}') == ['\\', 'u', '0', '0', '0', '1'] && Escape('\U{1F}') == ['\\', 'u', '0', '0', '1', 'f']
    ensures c >= ' ' && c != '"' && c != '\\' ==> Escape(c) == [c]
    ensures Unescape("/" + rest) == Some(('/', 1)) && Unescape("\"" + rest) == Some(('"', 1))
    ensures Unescape("u00e9" + rest) == Unescape("u00E9" + rest) == Some(('\U{E9}', 5))
    ensures Unescape("u00 9" + rest) == None && Unescape("x" + rest) == None && Unescape("ud800" + rest) == None
  {
  }

  /** Any character but a surrogate can be written as four digits. */
  lemma FourDigitsAre(code: nat, rest: string)
    requires code < 0xD800 || 0xE000 <= code < 0x1_0000
    ensures Unescape(['u'] + FourDigits(code) + rest) == Some((code as char, 5))
  {
    hide HexDigit, HexValue, Unescape;
    DigitMeans(code / 16 / 16 / 16);
    DigitMeans(code / 16 / 16 % 16);
    DigitMeans(code / 16 % 16);
    DigitMeans(code % 16);
    DigitsAreRead(FourDigits(code), rest, code / 16 / 16 / 16, code / 16 / 16 % 16, code / 16 % 16, code % 16);
  }

  lemma DigitsAreRead(digits: string, rest: string, a: nat, b: nat, c: nat, d: nat)
    requires |digits| == 4 && HexValue(digits[0]) == Some(a) && HexValue(digits[1]) == Some(b)
    requires HexValue(digits[2]) == Some(c) && HexValue(digits[3]) == Some(d)
    ensures
      var code := ((a * 16 + b) * 16 + c) * 16 + d;
      Unescape(['u'] + digits + rest) ==
      if code < 0xD800 || 0xE000 <= code < 0x1_0000 then Some((code as char, 5)) else None
  {
    hide HexValue;
    var s := ['u'] + digits + rest;
    assert s[0] == 'u' && s[1] == digits[0] && s[2] == digits[1] && s[3] == digits[2] && s[4] == digits[3];
  }

  function FourDigits(code: nat): string
    requires code < 0x1_0000
  {
    var (tens, hundreds) := (code / 16, code / 16 / 16);
    [HexDigit(hundreds / 16), HexDigit(hundreds % 16), HexDigit(tens % 16), HexDigit(code % 16)]
  }

  lemma DigitMeans(n: nat)
    requires n < 16
    ensures HexValue(HexDigit(n)) == Some(n)
    ensures HexValue("0123456789ABCDEF"[n]) == Some(n)
    ensures forall c :: HexValue(c) == Some(n) ==> c == HexDigit(n) || c == "0123456789ABCDEF"[n]
  {
  }

  // Scalars ----------------------------------------------------------------------------------------------------------

  /** A value that is not a record. A number stands as the text it is printed as; any other value as its JSON text. */
  datatype Leaf = Text(text: string) | Flag(value: bool) | Null | Number(literal: string) | Other(json: string)

  ghost predicate ValidLeaf(leaf: Leaf) {
    match leaf
    case Number(literal) => literal != [] && forall c :: c in literal ==> !IsSpace(c)
    case Other(json) => json != [] && json[0] == '[' && json[|json| - 1] == ']' && '\n' !in json && '\r' !in json
    case _ => true
  }

  function Print(leaf: Leaf): string {
    match leaf
    case Text(text) => Quote(text)
    case Flag(value) => if value then "true" else "false"
    case Null => "null"
    case Number(literal) => literal
    case Other(json) => json
  }

  predicate AreDigits(s: string) { s != [] && forall i :: 0 <= i < |s| ==> '0' <= s[i] <= '9' }

  predicate IsDecimal(s: string) {
    var t := if s != [] && s[0] == '-' then s[1..] else s;
    AreDigits(t) || exists dot :: 0 <= dot < |t| && t[dot] == '.' && AreDigits(t[..dot]) && AreDigits(t[dot + 1..])
  }

  function Unsingle(s: string): string {
    if s == [] then []
    else if |s| >= 2 && s[0] == s[1] == '\'' then "'" + Unsingle(s[2..])
    else [s[0]] + Unsingle(s[1..])
  }

  function Read(raw: string): Leaf {
    var value := Trim(raw);
    if value == "true" then Flag(true)
    else if value == "false" then Flag(false)
    else if value == "null" || value == "~" then Null
    else if IsDecimal(value) then Number(value)
    else if value != [] && value[0] == value[|value| - 1] == '"' then
      var body := if |value| >= 2 then UnescapeAll(value[1..|value| - 1]) else None;
      if body.Some? then Text(body.value) else Text(value)
    else if value != [] && value[0] == value[|value| - 1] == '\'' then
      Text(if |value| >= 2 then Unsingle(value[1..|value| - 1]) else "")
    else Text(value)
  }

  /** What is printed fits on a line, but for the two separators, and trimming leaves it alone. */
  lemma PrintFitsALine(leaf: Leaf)
    requires ValidLeaf(leaf)
    ensures Print(leaf) != [] && IsTrimmed(Print(leaf)) && '\n' !in Print(leaf) && '\r' !in Print(leaf)
  {
    hide EscapeAll;
    match leaf
    case Text(text) =>
      EscapeAllTerminators(text);
    case Number(literal) =>
      assert literal[0] in literal && literal[|literal| - 1] in literal;
      assert IsSpace('\n') && IsSpace('\r');
    case _ =>
  }

  /** The scalars that are read back as they were. */
  predicate Survives(leaf: Leaf) {
    match leaf
    case Text(text) => !HasSeparator(text)
    case Flag(_) => true
    case Null => true
    case Number(literal) => IsDecimal(literal)
    case Other(_) => false
  }

  lemma QuotedIsNotDecimal(s: string)
    ensures !IsDecimal(Quote(s))
  {
    var t := Quote(s);
    assert !AreDigits(t);
    forall dot | 0 < dot < |t|
      ensures !AreDigits(t[..dot])
    {
      assert t[..dot][0] == '"';
    }
  }

  lemma ReadQuoted(text: string)
    ensures Read(Quote(text)) == Text(text)
  {
    assert !IsSpace('"');
    hide IsDecimal, UnescapeAll, EscapeAll, IsSpace;
    TrimmedStays(Quote(text));
    UnescapeEscapeAll(text);
    QuotedIsNotDecimal(text);
    var printed := Quote(text);
    assert printed[1..|printed| - 1] == EscapeAll(text);
  }

  lemma ReadNumber(literal: string)
    requires ValidLeaf(Number(literal))
    ensures !HasSeparator(literal)
    ensures Read(literal) == Number(literal) <==> IsDecimal(literal)
  {
    hide IsDecimal, UnescapeAll;
    PrintFitsALine(Number(literal));
    TrimmedStays(literal);
    if IsDecimal(literal) {
      DecimalIsPlain(literal);
    }
  }

  lemma ReadWord(leaf: Leaf)
    requires leaf.Flag? || leaf.Null?
    ensures Read(Print(leaf)) == leaf && !HasSeparator(Print(leaf))
  {
    hide IsDecimal, UnescapeAll;
    TrimmedStays(Print(leaf));
  }

  lemma NeverOther(raw: string)
    ensures !Read(raw).Other?
  {
    hide Trim, IsDecimal, UnescapeAll, Unsingle;
  }

  /** Reading what was printed on a line of its own gives the scalar back exactly if it is one of those. */
  lemma ReadPrint(leaf: Leaf)
    requires ValidLeaf(leaf)
    ensures !HasSeparator(Print(leaf)) && Read(Print(leaf)) == leaf <==> Survives(leaf)
    ensures leaf.Text? ==> (HasSeparator(Print(leaf)) <==> HasSeparator(leaf.text)) && Read(Print(leaf)) == leaf
  {
    hide Read, EscapeAll, IsSpace, IsDecimal;
    match leaf
    case Text(text) =>
      EscapeAllTerminators(text);
      ReadQuoted(text);
    case Number(literal) => ReadNumber(literal);
    case Other(json) => NeverOther(Print(leaf));
    case _ => ReadWord(leaf);
  }

  predicate IsDecimalChar(c: char) { c == '-' || c == '.' || '0' <= c <= '9' }

  lemma DecimalIsPlain(s: string)
    requires IsDecimal(s)
    ensures s != "true" && s != "false" && s != "null" && s != "~" && !HasSeparator(s)
  {
    hide IsDecimal;
    DecimalChars(s);
    assert s[0] in s;
    assert s[0] != 't' && s[0] != 'f' && s[0] != 'n' && s[0] != '~';
  }

  lemma DecimalChars(s: string)
    requires IsDecimal(s)
    ensures s != [] && forall c :: c in s ==> IsDecimalChar(c)
  {
    if s[0] == '-' {
      UnsignedChars(s[1..]);
      assert s == [s[0]] + s[1..];
    } else {
      UnsignedChars(s);
    }
  }

  lemma DigitChars(s: string)
    requires AreDigits(s)
    ensures forall c :: c in s ==> IsDecimalChar(c)
  {
  }

  lemma UnsignedChars(t: string)
    requires AreDigits(t) ||
      exists dot :: 0 <= dot < |t| && t[dot] == '.' && AreDigits(t[..dot]) && AreDigits(t[dot + 1..])
    ensures t != [] && forall c :: c in t ==> IsDecimalChar(c)
  {
    if AreDigits(t) {
      DigitChars(t);
    } else {
      hide AreDigits;
      var dot :| 0 <= dot < |t| && t[dot] == '.' && AreDigits(t[..dot]) && AreDigits(t[dot + 1..]);
      DigitChars(t[..dot]);
      DigitChars(t[dot + 1..]);
      PointedChars(t, dot);
    }
  }

  lemma PointedChars(t: string, dot: nat)
    requires dot < |t| && t[dot] == '.'
    requires forall c :: c in t[..dot] || c in t[dot + 1..] ==> IsDecimalChar(c)
    ensures forall c :: c in t ==> IsDecimalChar(c)
  {
    assert IsDecimalChar('.');
    hide IsDecimalChar;
    assert t == t[..dot] + ['.'] + t[dot + 1..];
  }

  // Scalars written by hand ------------------------------------------------------------------------------------------

  /** With each apostrophe written twice. */
  function Doubled(text: string): string {
    if text == [] then [] else (if text[0] == '\'' then "''" else [text[0]]) + Doubled(text[1..])
  }

  lemma {:induction false} UnsingleDoubled(text: string)
    ensures Unsingle(Doubled(text)) == text
  {
    if text != [] {
      UnsingleDoubled(text[1..]);
      var rest := Doubled(text[1..]);
      assert text == [text[0]] + text[1..];
      if text[0] == '\'' {
        assert ("''" + rest)[2..] == rest;
      } else {
        assert ([text[0]] + rest)[1..] == rest;
      }
    }
  }

  lemma NotDecimal(s: string)
    requires s != [] && !IsDecimalChar(s[0])
    ensures !IsDecimal(s)
  {
    assert s[0] in s;
    if IsDecimal(s) {
      DecimalChars(s);
    }
  }

  /** Text between apostrophes is read as it is, with two of them for one. */
  lemma SingleQuoted(text: string)
    ensures Read("'" + Doubled(text) + "'") == Text(text)
  {
    hide IsDecimal, UnescapeAll, Doubled, Unsingle;
    var value := "'" + Doubled(text) + "'";
    assert !IsSpace('\'');
    TrimmedStays(value);
    NotDecimal(value);
    UnsingleDoubled(text);
    assert value[1..|value| - 1] == Doubled(text);
  }

  /** Null has two names. */
  lemma NullIsRead()
    ensures Read("null") == Null && Read("~") == Null && Read("true") == Flag(true) && Read("false") == Flag(false)
  {
    hide IsDecimal, UnescapeAll, Unsingle;
    TrimmedStays("null");
    TrimmedStays("~");
    TrimmedStays("true");
    TrimmedStays("false");
  }

  /** Text that is none of these stands for itself, without the white space around it. */
  lemma PlainTextIsRead(raw: string)
    requires Trim(raw) != "" && Trim(raw)[0] != '"' && Trim(raw)[0] != '\''
    requires Trim(raw) !in {"null", "~", "true", "false"} && !IsDecimal(Trim(raw))
    ensures Read(raw) == Text(Trim(raw))
  {
    hide IsDecimal, Trim;
  }

  /** A number is digits, perhaps after a minus sign, and perhaps with a point and more digits behind. */
  ghost predicate IsNumeral(s: string, sign: string, whole: string, fraction: string) {
    && s == sign + whole + fraction && sign in {"", "-"} && AreDigits(whole)
    && (fraction == "" || (fraction[0] == '.' && AreDigits(fraction[1..])))
  }

  lemma DigitsIff(s: string)
    ensures AreDigits(s) <==> s != "" && forall c :: c in s ==> c in "0123456789"
  {
    forall c
      ensures '0' <= c <= '9' <==> c in "0123456789"
    {
      if '0' <= c <= '9' {
        assert "0123456789"[c as int - '0' as int] == c;
      }
    }
    assert forall i :: 0 <= i < |s| ==> s[i] in s;
  }

  lemma DecimalIff(s: string)
    ensures IsDecimal(s) <==> exists sign, whole, fraction :: IsNumeral(s, sign, whole, fraction)
  {
    hide IsDecimal, IsNumeral;
    if IsDecimal(s) {
      var sign, whole, fraction := DecimalIsNumeral(s);
    }
    if sign, whole, fraction :| IsNumeral(s, sign, whole, fraction) {
      NumeralIsDecimal(s, sign, whole, fraction);
    }
  }

  lemma DecimalIsNumeral(s: string) returns (sign: string, whole: string, fraction: string)
    requires IsDecimal(s)
    ensures IsNumeral(s, sign, whole, fraction)
  {
    hide AreDigits, IsNumeral;
    if s != [] && s[0] == '-' {
      sign := "-";
      assert s == "-" + s[1..];
      whole, fraction := UnsignedIsNumeral(s, sign, s[1..]);
    } else {
      sign := "";
      assert s == "" + s;
      whole, fraction := UnsignedIsNumeral(s, sign, s);
    }
  }

  lemma UnsignedIsNumeral(s: string, sign: string, t: string) returns (whole: string, fraction: string)
    requires s == sign + t && (sign == "" || sign == "-")
    requires AreDigits(t) ||
      exists dot :: 0 <= dot < |t| && t[dot] == '.' && AreDigits(t[..dot]) && AreDigits(t[dot + 1..])
    ensures IsNumeral(s, sign, whole, fraction)
  {
    hide AreDigits;
    if AreDigits(t) {
      whole, fraction := t, "";
    } else {
      var dot :| 0 <= dot < |t| && t[dot] == '.' && AreDigits(t[..dot]) && AreDigits(t[dot + 1..]);
      whole, fraction := t[..dot], t[dot..];
      assert fraction[1..] == t[dot + 1..];
    }
    assert s == sign + whole + fraction;
  }

  lemma NumeralIsDecimal(s: string, sign: string, whole: string, fraction: string)
    requires IsNumeral(s, sign, whole, fraction)
    ensures IsDecimal(s)
  {
    var t := whole + fraction;
    assert whole[0] == t[0] && '0' <= t[0] <= '9';
    assert s == sign + t && s[|sign|..] == t;
    if fraction == "" {
      assert t == whole;
    } else {
      assert t[..|whole|] == whole && t[|whole|] == '.' && t[|whole| + 1..] == fraction[1..];
    }
  }
}
