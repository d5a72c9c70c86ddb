/** JSON strings and objects: the compact ASCII form `json.dumps` prints and a
    reader for it, with the escapes of section 7 of RFC 8259. */
module Json {
  import opened Text

  datatype Value = Str(text: string) | Obj(fields: seq<Field>)
  datatype Field = Field(key: string, value: Value)

  // ---- printing --------------------------------------------------------------------

  function HexDigit(d: nat): char
    requires d < 16
  {
    if d < 10 then '0' + d as char else 'a' + (d - 10) as char
  }

  function Hex4(n: nat): string
    requires n < 0x1_0000
  {
    [HexDigit(n / 0x1000), HexDigit(n / 0x100 % 16), HexDigit(n / 0x10 % 16), HexDigit(n % 16)]
  }

  /** The short escape of a character, if it has one. */
  function ShortEscape(c: char): Option<char> {
    if c == '\"' || c == '\\' then Some(c)
    else if c as int == 8 then Some('b') else if c as int == 9 then Some('t')
    else if c as int == 10 then Some('n') else if c as int == 12 then Some('f')
    else if c as int == 13 then Some('r') else None
  }

  /** Printable ASCII stands for itself; beyond the Basic Multilingual Plane a
      character is a surrogate pair. */
  function EscapeChar(c: char): string {
    var n := c as int;
    if ShortEscape(c).Some? then ['\\', ShortEscape(c).value]
    else if 0x20 <= n <= 0x7E then [c]
    else if n < 0x1_0000 then "\\u" + Hex4(n)
    else "\\u" + Hex4(0xD800 + (n - 0x1_0000) / 0x400) + "\\u" + Hex4(0xDC00 + (n - 0x1_0000) % 0x400)
  }

  function Escape(s: string): string {
    if s == "" then "" else EscapeChar(s[0]) + Escape(s[1..])
  }

  function Quote(s: string): string {
    "\"" + Escape(s) + "\""
  }

  /** `separators=(",", ":")` */
  function Print(v: Value): string {
    match v
    case Str(text) => Quote(text)
    case Obj(fields) => "{" + PrintFields(fields) + "}"
  }

  function PrintFields(fields: seq<Field>): string {
    if fields == [] then ""
    else if |fields| == 1 then PrintField(fields[0])
    else PrintField(fields[0]) + "," + PrintFields(fields[1..])
  }

  function PrintField(f: Field): string {
    Quote(f.key) + ":" + Print(f.value)
  }

  /** The escapes of section 7 of RFC 8259 as `json.dumps` writes them: seven short ones, */
  lemma {:induction false} ShortEscapes(c: char)
    ensures c == '\"' || c == '\\' ==> EscapeChar(c) == ['\\', c]
    ensures c as int == 8 ==> EscapeChar(c) == ['\\', 'b']
    ensures c as int == 9 ==> EscapeChar(c) == ['\\', 't']
    ensures c as int == 10 ==> EscapeChar(c) == ['\\', 'n']
    ensures c as int == 12 ==> EscapeChar(c) == ['\\', 'f']
    ensures c as int == 13 ==> EscapeChar(c) == ['\\', 'r']
    ensures 0x20 <= c as int <= 0x7E && c != '\"' && c != '\\' ==> EscapeChar(c) == [c]
  {
    hide Hex4;
  }

  /** and elsewhere four lower-case hexadecimal digits, */
  lemma {:induction false} HexText(n: nat)
    requires n < 0x1_0000
    ensures |Hex4(n)| == 4
    ensures forall i :: 0 <= i < 4 ==> '0' <= Hex4(n)[i] <= '9' || 'a' <= Hex4(n)[i] <= 'f'
    ensures ReadHex4(Hex4(n)) == Some(n)
  {
    Hex4RoundTrip(n, "");
    assert Hex4(n) + "" == Hex4(n);
  }

  /** once, or twice as a surrogate pair. */
  lemma {:induction false} LongEscapes(c: char)
    requires ShortEscape(c).None? && !(0x20 <= c as int <= 0x7E)
    ensures c as int < 0x1_0000 ==> EscapeChar(c) == ['\\', 'u'] + Hex4(c as int)
    ensures c as int >= 0x1_0000 ==>
              exists high: nat, low: nat ::
                && 0xD800 <= high < 0xDC00 && 0xDC00 <= low < 0xE000
                && c as int == 0x1_0000 + (high - 0xD800) * 0x400 + (low - 0xDC00)
                && EscapeChar(c) == ['\\', 'u'] + Hex4(high) + ['\\', 'u'] + Hex4(low)
  {
    hide Hex4, ShortEscape;
    var n := c as int;
    if n >= 0x1_0000 {
      var (high, low) := (0xD800 + (n - 0x1_0000) / 0x400, 0xDC00 + (n - 0x1_0000) % 0x400);
      assert EscapeChar(c) == "\\u" + Hex4(high) + "\\u" + Hex4(low);
    }
  }

  // ---- reading ---------------------------------------------------------------------

  function SkipSpace(t: string): (r: string)
    ensures |r| <= |t|
  {
    if t != "" && t[0] in {' ', '\t', '\n', '\r'} then SkipSpace(t[1..]) else t
  }

  function HexValue(c: char): Option<nat> {
    if '0' <= c <= '9' then Some((c - '0') as nat)
    else if 'a' <= c <= 'f' then Some((c - 'a') as nat + 10)
    else if 'A' <= c <= 'F' then Some((c - 'A') as nat + 10)
    else None
  }

  function ReadHex4(t: string): Option<nat> {
    if |t| < 4 || HexValue(t[0]).None? || HexValue(t[1]).None? || HexValue(t[2]).None? || HexValue(t[3]).None? then None
    else Some(HexValue(t[0]).value * 0x1000 + HexValue(t[1]).value * 0x100
              + HexValue(t[2]).value * 0x10 + HexValue(t[3]).value)
  }

  function ShortUnescape(c: char): Option<char> {
    if c in {'\"', '\\', '/'} then Some(c)
    else if c == 'b' then Some(8 as char) else if c == 't' then Some(9 as char)
    else if c == 'n' then Some(10 as char) else if c == 'f' then Some(12 as char)
    else if c == 'r' then Some(13 as char) else None
  }

  /** The character after `\u`, and the text behind it. */
  function ReadUnicode(t: string): (r: Option<(char, string)>)
    ensures r.Some? ==> |r.value.1| < |t|
  {
    var high := ReadHex4(t);
    if high.None? then None
    else if 0xD800 <= high.value < 0xDC00 && StartsWith(t[4..], "\\u") then
      var low := ReadHex4(t[6..]);
      if low.Some? && 0xDC00 <= low.value < 0xE000
      then Some(((0x1_0000 + (high.value - 0xD800) * 0x400 + (low.value - 0xDC00)) as char, t[10..]))
      else None
    else if high.value < 0xD800 || 0xE000 <= high.value < 0x1_0000 then Some((high.value as char, t[4..]))
    else None
  }

  /** One character of a string body. */
  function ReadChar(t: string): (r: Option<(char, string)>)
    ensures r.Some? ==> |r.value.1| < |t|
  {
    if t == "" || (t[0] as int) < 0x20 then None
    else if t[0] != '\\' then Some((t[0], t[1..]))
    else if |t| == 1 then None
    else if t[1] == 'u' then ReadUnicode(t[2..])
    else if ShortUnescape(t[1]).Some? then Some((ShortUnescape(t[1]).value, t[2..])) else None
  }

  /** A string body up to its closing quote. */
  function ReadString(t: string): (r: Option<(string, string)>)
    ensures r.Some? ==> |r.value.1| < |t|
    decreases |t|
  {
    if t != "" && t[0] == '\"' then Some(("", t[1..]))
    else match ReadChar(t)
      case None => None
      case Some((c, rest)) =>
        match ReadString(rest)
        case None => None
        case Some((s, rest')) => Some(([c] + s, rest'))
  }

  function ReadValue(t: string): (r: Option<(Value, string)>)
    ensures r.Some? ==> |r.value.1| < |t|
    decreases |t|, 0
  {
    if t == "" then None
    else if t[0] == '\"' then
      match ReadString(t[1..]) case None => None case Some((s, rest)) => Some((Str(s), rest))
    else if t[0] == '{' then
      var u := SkipSpace(t[1..]);
      if u != "" && u[0] == '}' then Some((Obj([]), u[1..]))
      else match ReadFields(u) case None => None case Some((fields, rest)) => Some((Obj(fields), rest))
    else None
  }

  function ReadFields(t: string): (r: Option<(seq<Field>, string)>)
    ensures r.Some? ==> |r.value.1| < |t|
    decreases |t|, 1
  {
    if t == "" || t[0] != '\"' then None
    else match ReadString(t[1..])
      case None => None
      case Some((key, rest)) =>
        var u := SkipSpace(rest);
        if u == "" || u[0] != ':' then None
        else match ReadValue(SkipSpace(u[1..]))
          case None => None
          case Some((value, rest')) =>
            var w := SkipSpace(rest');
            if w != "" && w[0] == '}' then Some(([Field(key, value)], w[1..]))
            else if w != "" && w[0] == ',' then
              match ReadFields(SkipSpace(w[1..]))
              case None => None
              case Some((fields, rest'')) => Some(([Field(key, value)] + fields, rest''))
            else None
  }

  /** A whole document: one value with space around it. */
  function Loads(t: string): Option<Value> {
    match ReadValue(SkipSpace(t))
    case None => None
    case Some((v, rest)) => if SkipSpace(rest) == "" then Some(v) else None
  }

  // ---- round trip ------------------------------------------------------------------

  lemma {:induction false} Hex4RoundTrip(n: nat, tail: string)
    requires n < 0x1_0000
    ensures ReadHex4(Hex4(n) + tail) == Some(n)
  {
    var t := Hex4(n) + tail;
    assert t[0] == HexDigit(n / 0x1000) && t[1] == HexDigit(n / 0x100 % 16) && t[2] == HexDigit(n / 0x10 % 16)
           && t[3] == HexDigit(n % 16);
    HexDigitRoundTrip(n / 0x1000);
    HexDigitRoundTrip(n / 0x100 % 16);
    HexDigitRoundTrip(n / 0x10 % 16);
    HexDigitRoundTrip(n % 16);
    HexSum(n);
  }

  lemma {:induction false} HexDigitRoundTrip(d: nat)
    requires d < 16
    ensures HexValue(HexDigit(d)) == Some(d)
  {
  }

  lemma {:induction false} HexSum(n: nat)
    ensures n == n / 0x1000 * 0x1000 + n / 0x100 % 16 * 0x100 + n / 0x10 % 16 * 0x10 + n % 16
  {
    assert n / 0x10 == n / 0x100 * 16 + n / 0x10 % 16;
    assert n / 0x100 == n / 0x1000 * 16 + n / 0x100 % 16;
  }

  lemma {:induction false} UnicodeRoundTrip(c: char, tail: string)
    ensures c as int < 0x1_0000 ==> ReadUnicode(Hex4(c as int) + tail) == Some((c, tail))
    ensures c as int >= 0x1_0000 ==>
              var n := c as int - 0x1_0000;
              ReadUnicode(Hex4(0xD800 + n / 0x400) + "\\u" + Hex4(0xDC00 + n % 0x400) + tail) == Some((c, tail))
  {
    hide ReadHex4, Hex4;
    var n := c as int;
    if n < 0x1_0000 {
      Hex4RoundTrip(n, tail);
      HexLength(n, tail);
    } else {
      var (high, low) := (0xD800 + (n - 0x1_0000) / 0x400, 0xDC00 + (n - 0x1_0000) % 0x400);
      var second := "\\u" + Hex4(low) + tail;
      var t := Hex4(high) + "\\u" + Hex4(low) + tail;
      assert t == Hex4(high) + second;
      HexLength(high, second);
      HexLength(low, tail);
      Hex4RoundTrip(high, second);
      assert t[4..] == second && second[..2] == "\\u";
      assert t[6..] == Hex4(low) + tail;
      Hex4RoundTrip(low, tail);
      assert t[10..] == tail;
    }
  }

  lemma {:induction false} HexLength(n: nat, tail: string)
    requires n < 0x1_0000
    ensures |Hex4(n)| == 4 && (Hex4(n) + tail)[4..] == tail
  {
  }

  lemma {:induction false} ShortRoundTrip(c: char)
    requires ShortEscape(c).Some?
    ensures ShortEscape(c).value != 'u' && ShortUnescape(ShortEscape(c).value) == Some(c)
  {
  }

  lemma {:induction false} ReadShort(e: char, tail: string)
    requires e != 'u' && ShortUnescape(e).Some?
    ensures ReadChar(['\\', e] + tail) == Some((ShortUnescape(e).value, tail))
  {
    hide ShortUnescape;
    var t := ['\\', e] + tail;
    assert t[0] == '\\' && t[1] == e && t[2..] == tail;
  }

  lemma {:induction false} ReadPlain(c: char, tail: string)
    requires c as int >= 0x20 && c != '\\'
    ensures ReadChar([c] + tail) == Some((c, tail))
  {
    assert ([c] + tail)[1..] == tail;
  }

  lemma {:induction false} ReadEscaped(code: string, c: char, tail: string)
    requires ReadUnicode(code + tail) == Some((c, tail))
    ensures ReadChar("\\u" + code + tail) == Some((c, tail))
  {
    hide ReadUnicode, ShortUnescape;
    var t := "\\u" + code + tail;
    assert t[0] == '\\' && t[1] == 'u' && t[2..] == code + tail;
  }

  lemma {:induction false} CharRoundTrip(c: char, tail: string)
    ensures EscapeChar(c) != "" && EscapeChar(c)[0] != '\"' && ReadChar(EscapeChar(c) + tail) == Some((c, tail))
  {
    hide ReadUnicode, Hex4, ShortEscape, ShortUnescape, ReadChar;
    var n := c as int;
    PlainChar(c);
    if ShortEscape(c).Some? {
      ShortRoundTrip(c);
      ReadShort(ShortEscape(c).value, tail);
    } else if 0x20 <= n <= 0x7E {
      ReadPlain(c, tail);
    } else {
      UnicodeRoundTrip(c, tail);
      var code := if n < 0x1_0000 then Hex4(n)
                  else Hex4(0xD800 + (n - 0x1_0000) / 0x400) + "\\u" + Hex4(0xDC00 + (n - 0x1_0000) % 0x400);
      assert EscapeChar(c) == "\\u" + code;
      ReadEscaped(code, c, tail);
    }
  }

  lemma {:induction false} PlainChar(c: char)
    ensures ShortEscape(c).None? ==> c != '\"' && c != '\\'
  {
  }

  lemma {:induction false} StringRoundTrip(s: string, tail: string)
    ensures ReadString(Escape(s) + "\"" + tail) == Some((s, tail))
  {
    hide EscapeChar, ReadChar;
    var t := Escape(s) + "\"" + tail;
    if s == "" {
      assert t[0] == '\"' && t[1..] == tail;
    } else {
      var rest := Escape(s[1..]) + "\"" + tail;
      assert t == EscapeChar(s[0]) + rest;
      CharRoundTrip(s[0], rest);
      StringRoundTrip(s[1..], tail);
      assert s == [s[0]] + s[1..];
    }
  }

  /** Reading undoes printing, for every nesting of objects and every string. */
  lemma {:induction false} ValueRoundTrip(v: Value, tail: string)
    ensures ReadValue(Print(v) + tail) == Some((v, tail))
    decreases v, 0
  {
    hide Escape, ReadString, PrintFields, ReadFields;
    match v
    case Str(text) =>
      StringRoundTrip(text, tail);
      assert (Print(v) + tail)[1..] == Escape(text) + "\"" + tail;
    case Obj(fields) =>
      var t := PrintFields(fields) + "}" + tail;
      assert (Print(v) + tail)[1..] == t;
      if fields == [] {
        EmptyFields();
        assert t[0] == '}' && t[1..] == tail;
      } else {
        FieldsRoundTrip(fields, tail);
        FieldsStart(fields);
        assert t[0] == '\"';
      }
  }

  lemma {:induction false} EmptyFields()
    ensures PrintFields([]) == ""
  {
  }

  lemma {:induction false} FieldsStart(fields: seq<Field>)
    requires fields != []
    ensures PrintFields(fields) != "" && PrintFields(fields)[0] == '\"'
  {
  }

  /** What follows the first field of an object, up to the end of the text. */
  function AfterFirst(fields: seq<Field>, tail: string): string
    requires fields != []
  {
    if |fields| == 1 then "}" + tail else "," + (PrintFields(fields[1..]) + "}" + tail)
  }

  lemma {:induction false} FieldText(f: Field, rest: string)
    ensures PrintField(f) + rest == "\"" + (Escape(f.key) + "\"" + (":" + (Print(f.value) + rest)))
  {
    hide Escape, Print;
    var value := Print(f.value);
    assert (":" + value) + rest == ":" + (value + rest);
    assert Quote(f.key) + (":" + (value + rest)) == "\"" + (Escape(f.key) + "\"" + (":" + (value + rest)));
    assert PrintField(f) == Quote(f.key) + (":" + value);
    assert (Quote(f.key) + (":" + value)) + rest == Quote(f.key) + ((":" + value) + rest);
  }

  lemma {:induction false} FieldsText(fields: seq<Field>, tail: string)
    requires fields != []
    ensures PrintFields(fields) + "}" + tail
         == "\"" + (Escape(fields[0].key) + "\"" + (":" + (Print(fields[0].value) + AfterFirst(fields, tail))))
  {
    hide Escape, Print, PrintField;
    FieldText(fields[0], AfterFirst(fields, tail));
    if |fields| == 1 {
      assert PrintField(fields[0]) + "}" + tail == PrintField(fields[0]) + ("}" + tail);
    } else {
      var (first, more) := (PrintField(fields[0]), PrintFields(fields[1..]));
      assert first + "," + more + "}" + tail == first + ("," + (more + "}" + tail));
    }
  }

  lemma {:induction false} FieldsRoundTrip(fields: seq<Field>, tail: string)
    requires fields != []
    ensures ReadFields(PrintFields(fields) + "}" + tail) == Some((fields, tail))
    decreases fields, 1
  {
    hide Escape, ReadString, Print, ReadValue, PrintFields;
    var (f, more) := (fields[0], AfterFirst(fields, tail));
    var body := Print(f.value) + more;
    var t := PrintFields(fields) + "}" + tail;
    FieldsText(fields, tail);
    assert t[1..] == Escape(f.key) + "\"" + (":" + body);
    StringRoundTrip(f.key, ":" + body);
    ValueRoundTrip(f.value, more);
    PrintStart(f.value);
    assert (":" + body)[1..] == body && body[0] == Print(f.value)[0];
    if |fields| == 1 {
      assert fields == [f] && more[1..] == tail;
    } else {
      FieldsRoundTrip(fields[1..], tail);
      FieldsStart(fields[1..]);
      assert more[1..] == PrintFields(fields[1..]) + "}" + tail;
      assert fields == [f] + fields[1..];
    }
  }

  lemma {:induction false} PrintStart(v: Value)
    ensures Print(v) != "" && (Print(v)[0] == '\"' || Print(v)[0] == '{')
  {
  }

  lemma {:induction false} LoadsPrint(v: Value)
    ensures Loads(Print(v)) == Some(v)
  {
    hide Print, ReadValue;
    ValueRoundTrip(v, "");
    PrintStart(v);
    assert Print(v) + "" == Print(v);
  }

  // ---- the printed text is ASCII -------------------------------------------------------

  predicate IsAscii(t: string) {
    forall i :: 0 <= i < |t| ==> 0x20 <= t[i] as int <= 0x7E
  }

  lemma {:induction false} CharIsAscii(c: char)
    ensures IsAscii(EscapeChar(c))
  {
  }

  lemma {:induction false} EscapeIsAscii(s: string)
    ensures IsAscii(Escape(s))
  {
    hide EscapeChar;
    if s != "" {
      CharIsAscii(s[0]);
      EscapeIsAscii(s[1..]);
    }
  }

  lemma {:induction false} PrintIsAscii(v: Value)
    ensures IsAscii(Print(v))
    decreases v, 0
  {
    hide Escape;
    match v
    case Str(text) => EscapeIsAscii(text);
    case Obj(fields) => FieldsAreAscii(fields);
  }

  lemma {:induction false} FieldsAreAscii(fields: seq<Field>)
    ensures IsAscii(PrintFields(fields))
    decreases fields, 1
  {
    hide Escape, Print;
    if fields != [] {
      EscapeIsAscii(fields[0].key);
      PrintIsAscii(fields[0].value);
      FieldsAreAscii(fields[1..]);
    }
  }
}
