/** String facts shared by the other modules: code-point order, joining and
    splitting, decimal numerals. */
module Text {

  datatype Option<+T> = None | Some(value: T)

  predicate StartsWith(s: string, prefix: string) {
    |prefix| <= |s| && s[..|prefix|] == prefix
  }

  /** Python's `needle in s`. */
  predicate Contains(s: string, needle: string) {
    exists i :: 0 <= i <= |s| && StartsWith(s[i..], needle)
  }

  lemma {:induction false} PrefixedEqual(prefix: string, a: string, b: string)
    ensures (prefix + a)[|prefix|..] == a
    ensures prefix + a == prefix + b ==> a == b
  {
    assert (prefix + a)[|prefix|..] == a;
    assert (prefix + b)[|prefix|..] == b;
  }

  // ---- code-point order ------------------------------------------------------

  /** Strict lexicographic order by code point: Python's `<` on strings and
      the order of a string sort key. */
  predicate Less(a: string, b: string) {
    b != "" && (a == "" || a[0] < b[0] || (a[0] == b[0] && Less(a[1..], b[1..])))
  }

  lemma {:induction false} LessIrreflexive(a: string)
    ensures !Less(a, a)
  {
    if a != "" { LessIrreflexive(a[1..]); }
  }

  lemma {:induction false} LessTransitive(a: string, b: string, c: string)
    requires Less(a, b) && Less(b, c)
    ensures Less(a, c)
  {
    if a != "" && a[0] == b[0] == c[0] { LessTransitive(a[1..], b[1..], c[1..]); }
  }

  lemma {:induction false} LessAsymmetric(a: string, b: string)
    requires Less(a, b)
    ensures !Less(b, a) && a != b
  {
    LessIrreflexive(a);
    if Less(b, a) { LessTransitive(a, b, a); }
  }

  lemma {:induction false} LessTotal(a: string, b: string)
    ensures a == b || Less(a, b) || Less(b, a)
  {
    if a != "" && b != "" && a[0] == b[0] {
      LessTotal(a[1..], b[1..]);
      assert a == [a[0]] + a[1..] && b == [b[0]] + b[1..];
    }
  }

  /** Two heads of the same length decide first; equal heads leave it to the tails. */
  lemma {:induction false} LessConcat(a: string, x: string, b: string, y: string)
    requires |a| == |b|
    ensures Less(a + x, b + y) <==> Less(a, b) || (a == b && Less(x, y))
  {
    if a == "" {
      assert a + x == x && b + y == y;
    } else {
      assert (a + x)[1..] == a[1..] + x && (b + y)[1..] == b[1..] + y;
      assert a == [a[0]] + a[1..] && b == [b[0]] + b[1..];
      LessConcat(a[1..], x, b[1..], y);
    }
  }

  ghost predicate Increasing(keys: seq<string>) {
    forall i, j :: 0 <= i < j < |keys| ==> Less(keys[i], keys[j])
  }

  /** A set of strings has one increasing listing. */
  lemma {:induction false} IncreasingUnique(a: seq<string>, b: seq<string>)
    requires Increasing(a) && Increasing(b) && (set k | k in a) == (set k | k in b)
    ensures a == b
  {
    hide Less;
    if a == [] || b == [] {
      SameMembers(a, b);
    } else {
      SameMembers(a, b);
      FirstIsLeast(a, b[0]);
      FirstIsLeast(b, a[0]);
      if Less(a[0], b[0]) { LessAsymmetric(a[0], b[0]); }
      forall k ensures k in a[1..] <==> k in b[1..] {
        RestMember(a, k);
        RestMember(b, k);
      }
      assert (set k | k in a[1..]) == (set k | k in b[1..]);
      IncreasingUnique(a[1..], b[1..]);
      assert a == [a[0]] + a[1..] && b == [b[0]] + b[1..];
    }
  }

  lemma {:induction false} SameMembers(a: seq<string>, b: seq<string>)
    requires (set k | k in a) == (set k | k in b)
    ensures forall k :: k in a <==> k in b
    ensures a == [] <==> b == []
  {
    var (x, y) := (set k | k in a, set k | k in b);
    forall k ensures k in a <==> k in b {
      assert (k in x <==> k in a) && (k in y <==> k in b);
    }
    if a != [] { assert a[0] in b; }
    if b != [] { assert b[0] in a; }
  }

  lemma {:induction false} FirstIsLeast(a: seq<string>, k: string)
    requires Increasing(a) && k in a
    ensures k == a[0] || Less(a[0], k)
  {
    hide Less;
    var i :| 0 <= i < |a| && a[i] == k;
  }

  lemma {:induction false} RestMember(a: seq<string>, k: string)
    requires Increasing(a) && a != []
    ensures k in a[1..] <==> k in a && k != a[0]
  {
    hide Less;
    LessIrreflexive(a[0]);
  }

  ghost predicate IsLeast(m: string, keys: set<string>) {
    m in keys && forall k :: k in keys ==> k == m || Less(m, k)
  }

  lemma {:induction false} LeastExists(keys: set<string>)
    requires keys != {}
    ensures exists m :: IsLeast(m, keys)
  {
    var x :| x in keys;
    var others := keys - {x};
    if others == {} {
      assert forall k :: k in keys && k != x ==> k in others;
      assert IsLeast(x, keys);
    } else {
      LeastExists(others);
      var m :| IsLeast(m, others);
      LessTotal(x, m);
      if Less(x, m) {
        forall k | k in others && k != m ensures Less(x, k) { LessTransitive(x, m, k); }
        assert IsLeast(x, keys);
      } else {
        assert IsLeast(m, keys);
      }
    }
  }

  // ---- joining and splitting ---------------------------------------------------

  /** Python's `separator.join(parts)`. */
  function Join(parts: seq<string>, separator: string): string {
    if |parts| == 0 then ""
    else if |parts| == 1 then parts[0]
    else parts[0] + separator + Join(parts[1..], separator)
  }

  /** The text before the first separator, and the text after it if there is one. */
  function Cut(s: string, separator: string): (r: (string, Option<string>))
    requires separator != ""
    ensures r.1.Some? ==> |r.1.value| < |s|
  {
    if StartsWith(s, separator) then ("", Some(s[|separator|..]))
    else if s == "" then ("", None)
    else var rest := Cut(s[1..], separator); ([s[0]] + rest.0, rest.1)
  }

  /** Python's `s.split(separator)`. */
  function Split(s: string, separator: string): seq<string>
    requires separator != ""
    decreases |s|
  {
    var (head, tail) := Cut(s, separator);
    if tail.None? then [head] else [head] + Split(tail.value, separator)
  }

  lemma {:induction false} CutWhole(part: string, separator: string)
    requires separator != "" && separator[0] !in part
    ensures Cut(part, separator) == (part, None)
  {
    if part != "" {
      assert part[..1][0] == part[0] != separator[0];
      CutWhole(part[1..], separator);
      assert part == [part[0]] + part[1..];
    }
  }

  lemma {:induction false} CutAtSeparator(part: string, separator: string, rest: string)
    requires separator != "" && separator[0] !in part
    ensures Cut(part + separator + rest, separator) == (part, Some(rest))
  {
    var s := part + separator + rest;
    if part == "" {
      assert s == separator + rest;
      assert s[..|separator|] == separator && s[|separator|..] == rest;
    } else {
      assert s[0] == part[0] && s[1..] == part[1..] + separator + rest;
      assert s[..|separator|][0] == part[0];
      CutAtSeparator(part[1..], separator, rest);
      assert part == [part[0]] + part[1..];
    }
  }

  /** Splitting undoes joining when no part contains the separator's first character. */
  lemma {:induction false} SplitJoin(parts: seq<string>, separator: string)
    requires separator != "" && |parts| > 0
    requires forall p :: p in parts ==> separator[0] !in p
    ensures Split(Join(parts, separator), separator) == parts
  {
    hide Cut;
    if |parts| == 1 {
      CutWhole(parts[0], separator);
    } else {
      var rest := Join(parts[1..], separator);
      assert Join(parts, separator) == parts[0] + separator + rest;
      assert parts == [parts[0]] + parts[1..];
      CutAtSeparator(parts[0], separator, Join(parts[1..], separator));
      SplitJoin(parts[1..], separator);
    }
  }

  // ---- numerals ------------------------------------------------------------------

  function Digit(d: nat): char
    requires d < 10
  {
    '0' + d as char
  }

  /** Decimal numeral of a natural number, as an f-string prints it. */
  function Decimal(n: nat): string {
    if n < 10 then [Digit(n)] else Decimal(n / 10) + [Digit(n % 10)]
  }

  lemma {:induction false} DecimalDigits(n: nat)
    ensures Decimal(n) != "" && forall c :: c in Decimal(n) ==> '0' <= c <= '9'
  {
    if n >= 10 { DecimalDigits(n / 10); }
  }

  lemma {:induction false} DecimalInjective(m: nat, n: nat)
    requires Decimal(m) == Decimal(n)
    ensures m == n
  {
    DecimalDigits(m / 10);
    DecimalDigits(n / 10);
    if m >= 10 && n >= 10 {
      assert Decimal(m)[..|Decimal(m)| - 1] == Decimal(m / 10);
      assert Decimal(n)[..|Decimal(n)| - 1] == Decimal(n / 10);
      assert Decimal(m)[|Decimal(m)| - 1] == Digit(m % 10);
      assert Decimal(n)[|Decimal(n)| - 1] == Digit(n % 10);
      DecimalInjective(m / 10, n / 10);
    }
  }
}
