/** URL-safe base64 (section 5 of RFC 4648): the strict encoder and the forgiving
    decoder of the Python standard library. */
module Base64 {
  import opened Text

  type Byte = b: int | 0 <= b < 256

  /** 'A'..'Z', 'a'..'z', '0'..'9', '-', '_' */
  function Letter(d: nat): char
    requires d < 64
  {
    if d < 26 then 'A' + d as char
    else if d < 52 then 'a' + (d - 26) as char
    else if d < 62 then '0' + (d - 52) as char
    else if d == 62 then '-' else '_'
  }

  /** The URL-safe letters are translated to the standard ones, which stay valid. */
  function Sextet(c: char): (r: Option<nat>)
    ensures r.Some? ==> r.value < 64
  {
    if 'A' <= c <= 'Z' then Some((c - 'A') as nat)
    else if 'a' <= c <= 'z' then Some((c - 'a') as nat + 26)
    else if '0' <= c <= '9' then Some((c - '0') as nat + 52)
    else if c in {'-', '+'} then Some(62)
    else if c in {'_', '/'} then Some(63)
    else None
  }

  predicate IsUrlSafe(t: string) {
    forall i :: 0 <= i < |t| ==>
      'A' <= t[i] <= 'Z' || 'a' <= t[i] <= 'z' || '0' <= t[i] <= '9' || t[i] == '-' || t[i] == '_'
  }

  lemma {:induction false} LetterRoundTrip(d: nat)
    requires d < 64
    ensures Sextet(Letter(d)) == Some(d) && Letter(d) != '=' && IsUrlSafe([Letter(d)]) && Letter(d) as int < 128
  {
  }

  /** Table 2 of RFC 4648: three runs of consecutive characters and two more. */
  lemma {:induction false} LetterTable(d: nat)
    requires d < 64
    ensures d < 26 ==> Letter(d) as int == 'A' as int + d
    ensures 26 <= d < 52 ==> Letter(d) as int == 'a' as int + d - 26
    ensures 52 <= d < 62 ==> Letter(d) as int == '0' as int + d - 52
    ensures d == 62 ==> Letter(d) == '-'
    ensures d == 63 ==> Letter(d) == '_'
  {
  }

  /** Each letter stands for its place in the table, and '+' and '/' still do. */
  lemma {:induction false} SextetTable(c: char, d: nat)
    requires d < 64
    ensures Sextet(c) == Some(d) <==> c == Letter(d) || (c == '+' && d == 62) || (c == '/' && d == 63)
  {
  }

  // ---- encoding --------------------------------------------------------------------

  /** One group of one to three bytes, without padding. */
  function Group(b: seq<Byte>): string
    requires 1 <= |b| <= 3
  {
    if |b| == 1 then [Letter(b[0] / 4), Letter(b[0] % 4 * 16)]
    else if |b| == 2 then [Letter(b[0] / 4), Letter(b[0] % 4 * 16 + b[1] / 16), Letter(b[1] % 16 * 4)]
    else [Letter(b[0] / 4), Letter(b[0] % 4 * 16 + b[1] / 16), Letter(b[1] % 16 * 4 + b[2] / 64), Letter(b[2] % 64)]
  }

  /** The number a text of letters spells in base 64. */
  function Spelled(t: string): int {
    if t == "" then 0
    else Spelled(t[..|t| - 1]) * 64 + match Sextet(t[|t| - 1]) case Some(d) => d case None => 0
  }

  /** A group's letters spell the 24-bit number of its bytes, missing bytes being zero. */
  lemma {:induction false} GroupSpells(b: seq<Byte>)
    requires 1 <= |b| <= 3
    ensures |Group(b)| == |b| + 1
    ensures |b| == 3 ==> Spelled(Group(b)) == (b[0] as int) * 0x10000 + (b[1] as int) * 0x100 + (b[2] as int)
    ensures |b| == 2 ==> Spelled(Group(b)) * 64 == (b[0] as int) * 0x10000 + (b[1] as int) * 0x100
    ensures |b| == 1 ==> Spelled(Group(b)) * 64 * 64 == (b[0] as int) * 0x10000
  {
    hide Letter, Sextet, Spelled;
    SpelledTwo(b[0] / 4, if |b| == 1 then b[0] % 4 * 16 else b[0] % 4 * 16 + b[1] / 16);
    if |b| == 2 {
      SpelledNext(Group(b)[..2], b[1] % 16 * 4);
      assert Group(b) == Group(b)[..2] + [Letter(b[1] % 16 * 4)];
    }
    if |b| == 3 {
      SpelledNext(Group(b)[..2], b[1] % 16 * 4 + b[2] / 64);
      SpelledNext(Group(b)[..3], b[2] % 64);
      assert Group(b)[..3] == Group(b)[..2] + [Letter(b[1] % 16 * 4 + b[2] / 64)];
      assert Group(b) == Group(b)[..3] + [Letter(b[2] % 64)];
    }
    assert Group(b)[..2] == [Letter(b[0] / 4), Letter(if |b| == 1 then b[0] % 4 * 16 else b[0] % 4 * 16 + b[1] / 16)];
  }

  lemma {:induction false} SpelledNext(t: string, d: nat)
    requires d < 64
    ensures Spelled(t + [Letter(d)]) == Spelled(t) * 64 + d
  {
    LetterRoundTrip(d);
    assert (t + [Letter(d)])[..|t|] == t;
  }

  lemma {:induction false} SpelledTwo(c: nat, d: nat)
    requires c < 64 && d < 64
    ensures Spelled([Letter(c), Letter(d)]) == c * 64 + d
  {
    SpelledNext("", c);
    SpelledNext([Letter(c)], d);
    assert "" + [Letter(c)] == [Letter(c)] && [Letter(c)] + [Letter(d)] == [Letter(c), Letter(d)];
  }

  /** `urlsafe_b64encode`: the last group is padded to four characters. */
  function EncodePadded(b: seq<Byte>): string {
    if |b| == 0 then ""
    else if |b| <= 3 then Group(b) + Pads(3 - |b|)
    else Group(b[..3]) + EncodePadded(b[3..])
  }

  function Pads(n: nat): string {
    seq(n, _ => '=')
  }

  /** `rstrip("=")` */
  function StripPadding(t: string): string {
    if t != "" && t[|t| - 1] == '=' then StripPadding(t[..|t| - 1]) else t
  }

  function Encode(b: seq<Byte>): string {
    StripPadding(EncodePadded(b))
  }

  /** `token + "=" * (-len(token) % 4)` */
  function Repad(token: string): string {
    token + Pads(Missing(|token|))
  }

  /** How far a length is from the next multiple of four. */
  function Missing(length: int): nat {
    (-length) % 4
  }

  // ---- decoding --------------------------------------------------------------------

  /** Bits carried over between the letters of a group. */
  predicate IsCarry(quad: nat, left: nat) {
    quad < 4 && left < (if quad == 0 then 1 else if quad == 1 then 64 else if quad == 2 then 16 else 4)
  }

  /** Reads letters, skipping every other character. Enough padding ends the text; a
      text that ends inside a group is an error. */
  function Scan(t: string, quad: nat, left: nat, pads: nat): Option<seq<Byte>>
    requires IsCarry(quad, left)
  {
    if t == "" then (if quad == 0 then Some([]) else None)
    else if t[0] == '=' then
      if quad < 2 then Scan(t[1..], quad, left, pads)
      else if quad + pads + 1 >= 4 then Some([])
      else Scan(t[1..], quad, left, pads + 1)
    else match Sextet(t[0])
      case None => Scan(t[1..], quad, left, pads)
      case Some(d) =>
        if quad == 0 then Scan(t[1..], 1, d, 0)
        else if quad == 1 then Emit(left * 4 + d / 16, Scan(t[1..], 2, d % 16, 0))
        else if quad == 2 then Emit(left * 16 + d / 4, Scan(t[1..], 3, d % 4, 0))
        else Emit(left * 64 + d, Scan(t[1..], 0, 0, 0))
  }

  function Emit(b: Byte, rest: Option<seq<Byte>>): Option<seq<Byte>> {
    if rest.None? then None else Some([b] + rest.value)
  }

  /** `urlsafe_b64decode`: text outside ASCII is an error. */
  function Decode(t: string): Option<seq<Byte>> {
    if exists i :: 0 <= i < |t| && t[i] as int >= 128 then None else Scan(t, 0, 0, 0)
  }

  // ---- padding ---------------------------------------------------------------------

  lemma {:induction false} StripPads(t: string, n: nat)
    requires t != "" && t[|t| - 1] != '='
    ensures StripPadding(t + Pads(n)) == t
  {
    if n == 0 {
      assert t + Pads(0) == t;
    } else {
      assert (t + Pads(n))[..|t + Pads(n)| - 1] == t + Pads(n - 1);
      StripPads(t, n - 1);
    }
  }

  lemma {:induction false} StripAfter(t: string, more: string)
    requires t != "" && t[|t| - 1] != '='
    ensures StripPadding(t + more) == t + StripPadding(more)
    decreases |more|
  {
    if more == "" {
      assert t + more == t;
    } else if more[|more| - 1] == '=' {
      assert (t + more)[..|t + more| - 1] == t + more[..|more| - 1];
      StripAfter(t, more[..|more| - 1]);
    }
  }

  lemma {:induction false} GroupShape(b: seq<Byte>)
    requires 1 <= |b| <= 3
    ensures |Group(b)| == |b| + 1 && Group(b)[|b|] != '=' && IsUrlSafe(Group(b))
  {
  }

  /** Stripping removes exactly the padding, which the length tells how to restore. */
  lemma {:induction false} EncodeShape(b: seq<Byte>)
    ensures EncodePadded(b) == Encode(b) + Pads((-|b|) % 3)
    ensures |Encode(b)| == (4 * |b| + 2) / 3 && IsUrlSafe(Encode(b))
  {
    hide Group, IsUrlSafe, EncodePadded, StripPadding;
    if |b| == 0 {
      NoText();
    } else if |b| <= 3 {
      GroupShape(b);
      LastGroup(b);
      StripPads(Group(b), 3 - |b|);
    } else {
      EncodeShape(b[3..]);
      var (first, rest, pads) := (Group(b[..3]), Encode(b[3..]), Pads((-|b|) % 3));
      GroupShape(b[..3]);
      FirstGroup(b);
      StripAfter(first, EncodePadded(b[3..]));
      assert (-|b|) % 3 == (-|b[3..]|) % 3;
      assert first + (rest + pads) == (first + rest) + pads;
      UrlSafeConcat(first, rest);
    }
  }

  lemma {:induction false} LastGroup(b: seq<Byte>)
    requires 1 <= |b| <= 3
    ensures EncodePadded(b) == Group(b) + Pads(3 - |b|)
  {
  }

  lemma {:induction false} FirstGroup(b: seq<Byte>)
    requires |b| > 3
    ensures EncodePadded(b) == Group(b[..3]) + EncodePadded(b[3..])
  {
  }

  lemma {:induction false} NoText()
    ensures EncodePadded([]) == "" && Encode([]) == "" && Pads(0) == "" && IsUrlSafe("")
  {
  }

  lemma {:induction false} UrlSafeConcat(a: string, b: string)
    requires IsUrlSafe(a) && IsUrlSafe(b)
    ensures IsUrlSafe(a + b)
  {
  }

  lemma {:induction false} PaddingArithmetic(n: int)
    requires n >= 0
    ensures Missing((4 * n + 2) / 3) == (-n) % 3
  {
    hide Missing;
    var (k, r) := (n / 3, n % 3);
    LettersOf(k, r);
    PadsOf(k, r);
    MissingOf(k, if r == 0 then 0 else r + 1);
  }

  lemma {:induction false} LettersOf(k: int, r: int)
    requires 0 <= r < 3
    ensures (4 * (3 * k + r) + 2) / 3 == 4 * k + if r == 0 then 0 else r + 1
  {
  }

  lemma {:induction false} PadsOf(k: int, r: int)
    requires 0 <= r < 3
    ensures (-(3 * k + r)) % 3 == if r == 0 then 0 else 3 - r
  {
  }

  lemma {:induction false} MissingOf(k: int, c: int)
    requires 0 <= c < 4
    ensures Missing(4 * k + c) == if c == 0 then 0 else 4 - c
  {
  }

  /** Re-adding `-len % 4` equals signs gives back the padded form. */
  lemma {:induction false} RepadEncode(b: seq<Byte>)
    ensures Repad(Encode(b)) == EncodePadded(b)
  {
    hide Encode, EncodePadded;
    EncodeShape(b);
    PaddingArithmetic(|b|);
  }

  // ---- round trip ------------------------------------------------------------------

  lemma {:induction false} ScanLetter(t: string, quad: nat, left: nat, pads: nat, d: nat)
    requires IsCarry(quad, left) && d < 64 && t != "" && t[0] == Letter(d)
    ensures Scan(t, quad, left, pads) ==
            if quad == 0 then Scan(t[1..], 1, d, 0)
            else if quad == 1 then Emit(left * 4 + d / 16, Scan(t[1..], 2, d % 16, 0))
            else if quad == 2 then Emit(left * 16 + d / 4, Scan(t[1..], 3, d % 4, 0))
            else Emit(left * 64 + d, Scan(t[1..], 0, 0, 0))
  {
    hide Letter;
    LetterRoundTrip(d);
  }

  /** A full group followed by more text. */
  lemma {:induction false} ScanGroup(b: seq<Byte>, more: string)
    requires |b| == 3
    ensures Scan(Group(b) + more, 0, 0, 0)
         == match Scan(more, 0, 0, 0) case None => None case Some(rest) => Some(b + rest)
  {
    hide Letter, Scan;
    var t := Group(b) + more;
    ScanLetter(t, 0, 0, 0, b[0] / 4);
    ScanLetter(t[1..], 1, b[0] / 4, 0, b[0] % 4 * 16 + b[1] / 16);
    ScanLetter(t[2..], 2, b[1] / 16, 0, b[1] % 16 * 4 + b[2] / 64);
    ScanLetter(t[3..], 3, b[2] / 64, 0, b[2] % 64);
    assert t[1..][1..] == t[2..] && t[2..][1..] == t[3..] && t[3..][1..] == more;
    if Scan(more, 0, 0, 0).Some? {
      var rest := Scan(more, 0, 0, 0).value;
      assert [b[0]] + ([b[1]] + ([b[2]] + rest)) == b + rest;
    }
  }

  /** A padded last group. */
  lemma {:induction false} ScanLast(b: seq<Byte>)
    requires 1 <= |b| <= 2
    ensures Scan(Group(b) + Pads(3 - |b|), 0, 0, 0) == Some(b)
  {
    hide Letter;
    var t := Group(b) + Pads(3 - |b|);
    ScanLetter(t, 0, 0, 0, b[0] / 4);
    if |b| == 1 {
      ScanLetter(t[1..], 1, b[0] / 4, 0, b[0] % 4 * 16);
      assert t[1..][1..] == "==" && "=="[1..] == "=";
      assert Scan("=", 2, 0, 1) == Some([]);
      assert Scan("==", 2, 0, 0) == Some([]);
      assert [b[0]] + [] == b;
    } else {
      ScanLetter(t[1..], 1, b[0] / 4, 0, b[0] % 4 * 16 + b[1] / 16);
      ScanLetter(t[2..], 2, b[1] / 16, 0, b[1] % 16 * 4);
      assert t[1..][1..] == t[2..] && t[2..][1..] == "=";
      assert Scan("=", 3, 0, 0) == Some([]);
      assert [b[0]] + ([b[1]] + []) == b;
    }
  }

  lemma {:induction false} ScanEncoded(b: seq<Byte>)
    ensures Scan(EncodePadded(b), 0, 0, 0) == Some(b)
  {
    hide Group, Scan;
    if |b| == 0 {
      ScanNothing();
    } else if |b| <= 2 {
      ScanLast(b);
    } else if |b| == 3 {
      ScanNothing();
      ScanGroup(b, "");
      assert Group(b) + Pads(0) == Group(b) + "";
      assert b + [] == b;
    } else {
      ScanGroup(b[..3], EncodePadded(b[3..]));
      ScanEncoded(b[3..]);
      assert b[..3] + b[3..] == b;
    }
  }

  lemma {:induction false} ScanNothing()
    ensures Scan("", 0, 0, 0) == Some([])
  {
  }

  /** Every byte string survives encoding without padding, re-padding and decoding. */
  lemma {:induction false} DecodeEncode(b: seq<Byte>)
    ensures Decode(Repad(Encode(b))) == Some(b)
  {
    hide Encode, EncodePadded, Repad, Scan;
    RepadEncode(b);
    EncodeShape(b);
    ScanEncoded(b);
  }

  lemma {:induction false} EncodeInjective(a: seq<Byte>, b: seq<Byte>)
    requires Encode(a) == Encode(b)
    ensures a == b
  {
    hide Encode, Decode;
    DecodeEncode(a);
    DecodeEncode(b);
  }

  // ---- which tokens decode --------------------------------------------------------------

  /** From inside a group, letters and the padding their number asks for. */
  lemma {:induction false} ScanUrlSafe(t: string, quad: nat, left: nat)
    requires IsCarry(quad, left) && IsUrlSafe(t)
    ensures Scan(t + Pads(Missing(quad + |t|)), quad, left, 0).Some? <==> (quad + |t|) % 4 != 1
    decreases |t|
  {
    hide IsUrlSafe, Letter, Pads, Missing, Scan;
    if t == "" {
      ScanPads(quad, left);
      assert "" + Pads(Missing(quad)) == Pads(Missing(quad));
    } else {
      UrlSafeLetter(t);
      var d := Sextet(t[0]).value;
      var n := Missing(quad + |t|);
      var u := t + Pads(n);
      ModularStep(quad, |t| - 1);
      assert u[1..] == t[1..] + Pads(n);
      ScanLetter(u, quad, left, 0, d);
      if quad == 0 { ScanUrlSafe(t[1..], 1, d); }
      else if quad == 1 { ScanUrlSafe(t[1..], 2, d % 16); }
      else if quad == 2 { ScanUrlSafe(t[1..], 3, d % 4); }
      else { ScanUrlSafe(t[1..], 0, 0); }
    }
  }

  lemma {:induction false} ModularStep(quad: nat, more: nat)
    requires quad < 4
    ensures Missing(quad + (more + 1)) == Missing((quad + 1) % 4 + more)
    ensures (quad + (more + 1)) % 4 == ((quad + 1) % 4 + more) % 4
  {
  }

  lemma {:induction false} UrlSafeLetter(t: string)
    requires IsUrlSafe(t) && t != ""
    ensures Sextet(t[0]).Some? && t[0] == Letter(Sextet(t[0]).value) && IsUrlSafe(t[1..])
  {
  }

  lemma {:induction false} ScanPads(quad: nat, left: nat)
    requires IsCarry(quad, left)
    ensures Scan(Pads(Missing(quad)), quad, left, 0).Some? <==> quad != 1
  {
    var t := Pads(Missing(quad));
    if quad > 0 { assert t[1..] == Pads(Missing(quad) - 1); }
    if quad == 2 { assert t[1..] == "=" && Scan("=", 2, left, 1) == Some([]); }
    if quad == 1 {
      assert Scan("", 1, left, 0).None?;
      assert Scan("=", 1, left, 0).None? by { assert "="[1..] == ""; }
      assert Scan("==", 1, left, 0).None? by { assert "=="[1..] == "="; }
      assert t[1..] == "==";
    }
  }

  /** A re-padded token of URL-safe letters decodes unless one letter is left over. */
  lemma {:induction false} DecodableTokens(token: string)
    requires IsUrlSafe(token)
    ensures Decode(Repad(token)).Some? <==> |token| % 4 != 1
  {
    hide Scan;
    ScanUrlSafe(token, 0, 0);
  }
}
