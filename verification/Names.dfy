/** Project-name rules: normalisation, acceptance and the uniqueness key
    (src/projects_api/domain/validation.py). */
module Names {
  import opened Text
  import opened Regex

  const NAME_MIN_LENGTH := 3
  const NAME_MAX_LENGTH := 63

  /** Unicode white space: what both `str.strip` and `\s` remove. */
  predicate IsSpace(c: char) {
    var n := c as int;
    || 0x09 <= n <= 0x0D || 0x1C <= n <= 0x20 || n == 0x85 || n == 0xA0 || n == 0x1680
    || 0x2000 <= n <= 0x200A || n == 0x2028 || n == 0x2029 || n == 0x202F || n == 0x205F || n == 0x3000
  }

  predicate IsAlphanumeric(c: char) {
    'A' <= c <= 'Z' || 'a' <= c <= 'z' || '0' <= c <= '9'
  }

  predicate IsNameChar(c: char) {
    IsAlphanumeric(c) || c == ' ' || c == '_' || c == '-'
  }

  function StripLeft(s: string): string {
    if s != "" && IsSpace(s[0]) then StripLeft(s[1..]) else s
  }

  function StripRight(s: string): string {
    if s != "" && IsSpace(s[|s| - 1]) then StripRight(s[..|s| - 1]) else s
  }

  /** Replaces every maximal run of white space by one space. */
  function Collapse(s: string): string
    decreases |s|
  {
    if s == "" then ""
    else if IsSpace(s[0]) then StripLeftShrinks(s); " " + Collapse(StripLeft(s))
    else [s[0]] + Collapse(s[1..])
  }

  lemma {:induction false} StripLeftShrinks(s: string)
    ensures |StripLeft(s)| <= |s|
    ensures s != "" && IsSpace(s[0]) ==> |StripLeft(s)| < |s|
    ensures StripLeft(s) == "" || !IsSpace(StripLeft(s)[0])
  {
    if s != "" && IsSpace(s[0]) { StripLeftShrinks(s[1..]); }
  }

  function Normalise(raw: string): string {
    Collapse(StripRight(StripLeft(raw)))
  }

  function LowerChar(c: char): char {
    if 'A' <= c <= 'Z' then ((c as int) + 32) as char else c
  }

  function Lower(s: string): string {
    seq(|s|, i requires 0 <= i < |s| => LowerChar(s[i]))
  }

  function NameKey(name: string): string {
    Lower(Normalise(name))
  }

  /** Membership in the language of NAME_PATTERN, written out. */
  predicate HasNameShape(name: string) {
    && name != ""
    && (forall i :: 0 <= i < |name| ==> IsNameChar(name[i]))
    && IsAlphanumeric(name[0]) && IsAlphanumeric(name[|name| - 1])
  }

  datatype NameError = TooShort | TooLong | BadShape
  datatype NameResult = Accepted(name: string) | Rejected(error: NameError)

  function ValidateName(raw: string): NameResult {
    var name := Normalise(raw);
    if |name| < NAME_MIN_LENGTH then Rejected(TooShort)
    else if |name| > NAME_MAX_LENGTH then Rejected(TooLong)
    else if !HasNameShape(name) then Rejected(BadShape)
    else Accepted(name)
  }

  // ---- the acceptance pattern --------------------------------------------------

  /** `A-Za-z0-9` */
  ghost function Alphanumerics(): set<char> { Range('A', 'Z') + Range('a', 'z') + Range('0', '9') }

  /** `A-Za-z0-9 _-` */
  ghost function NameChars(): set<char> { Alphanumerics() + {' ', '_', '-'} }

  /** `[A-Za-z0-9](?:[A-Za-z0-9 _-]*[A-Za-z0-9])?` */
  ghost function NamePattern(): Pattern {
    Then(Class(Alphanumerics()), Optional(Then(Star(Class(NameChars())), Class(Alphanumerics()))))
  }

  lemma {:induction false} NamePatternTail(s: string)
    ensures FullMatch(Then(Star(Class(NameChars())), Class(Alphanumerics())), s)
       <==> s != "" && All(s, NameChars()) && IsAlphanumeric(s[|s| - 1])
  {
    hide FullMatch;
    ThenClass(Star(Class(NameChars())), Alphanumerics(), s);
    if s != "" {
      StarOfClass(NameChars(), s[..|s| - 1]);
      assert s == s[..|s| - 1] + [s[|s| - 1]];
    }
  }

  /** The written-out predicate is the regular expression's language. */
  lemma {:induction false} NamePatternLanguage(s: string)
    ensures FullMatch(NamePattern(), s) <==> HasNameShape(s)
  {
    hide FullMatch;
    var p := NamePattern();
    ClassThen(Alphanumerics(), p.second, s);
    if s != "" {
      OptionalMatch(p.second.body, s[1..]);
      NamePatternTail(s[1..]);
      assert s == [s[0]] + s[1..];
    }
  }

  lemma {:induction false} OptionalMatch(body: Pattern, s: string)
    ensures FullMatch(Optional(body), s) <==> s == "" || FullMatch(body, s)
  {
  }

  /** `\s`, by code point. */
  ghost function WhiteSpace(): set<char> {
    Range('\U{9}', '\U{D}') + Range('\U{1C}', '\U{20}') + {'\U{85}', '\U{A0}', '\U{1680}'}
    + Range('\U{2000}', '\U{200A}') + {'\U{2028}', '\U{2029}', '\U{202F}', '\U{205F}', '\U{3000}'}
  }

  lemma {:induction false} SpacesAreWhiteSpace(c: char)
    ensures IsSpace(c) <==> c in WhiteSpace()
  {
  }

  // ---- words ---------------------------------------------------------------------

  function WordLength(s: string): (n: nat)
    ensures n <= |s|
    ensures s != "" && !IsSpace(s[0]) ==> n > 0
  {
    if s == "" || IsSpace(s[0]) then 0 else 1 + WordLength(s[1..])
  }

  /** Python's `s.split()`. */
  function Words(s: string): seq<string>
    decreases |s|
  {
    if s == "" then []
    else if IsSpace(s[0]) then Words(s[1..])
    else [s[..WordLength(s)]] + Words(s[WordLength(s)..])
  }

  ghost predicate IsWord(w: string) {
    w != "" && forall i :: 0 <= i < |w| ==> !IsSpace(w[i])
  }

  ghost predicate AreWords(ws: seq<string>) {
    forall i :: 0 <= i < |ws| ==> IsWord(ws[i])
  }

  lemma {:induction false} WordLengthScan(w: string, rest: string)
    requires forall i :: 0 <= i < |w| ==> !IsSpace(w[i])
    requires rest == "" || IsSpace(rest[0])
    ensures WordLength(w + rest) == |w|
  {
    if w == "" {
      assert w + rest == rest;
    } else {
      assert (w + rest)[1..] == w[1..] + rest;
      WordLengthScan(w[1..], rest);
    }
  }

  lemma {:induction false} WordLengthCut(s: string)
    ensures forall i :: 0 <= i < WordLength(s) ==> !IsSpace(s[i])
    ensures WordLength(s) < |s| ==> IsSpace(s[WordLength(s)])
  {
    if s != "" && !IsSpace(s[0]) {
      WordLengthCut(s[1..]);
      forall i | 0 <= i < WordLength(s) ensures !IsSpace(s[i]) {
        if i > 0 { assert s[i] == s[1..][i - 1]; }
      }
    }
  }

  lemma {:induction false} WordsAreWords(s: string)
    ensures AreWords(Words(s))
    decreases |s|
  {
    if s != "" {
      WordLengthCut(s);
      WordsAreWords(if IsSpace(s[0]) then s[1..] else s[WordLength(s)..]);
    }
  }

  lemma {:induction false} WordsIgnoreLeading(s: string)
    ensures Words(StripLeft(s)) == Words(s)
  {
    if s != "" && IsSpace(s[0]) { WordsIgnoreLeading(s[1..]); }
  }

  lemma {:induction false} WordsIgnoreTrailingSpace(s: string, c: char)
    requires IsSpace(c)
    ensures Words(s + [c]) == Words(s)
    decreases |s|
  {
    if s == "" {
      assert s + [c] == [c] && [c][1..] == "";
    } else if IsSpace(s[0]) {
      assert (s + [c])[1..] == s[1..] + [c];
      WordsIgnoreTrailingSpace(s[1..], c);
    } else {
      var n := WordLength(s);
      WordLengthCut(s);
      WordLengthScan(s[..n], s[n..] + [c]);
      assert s + [c] == s[..n] + (s[n..] + [c]);
      assert (s + [c])[n..] == s[n..] + [c] && (s + [c])[..n] == s[..n];
      WordsIgnoreTrailingSpace(s[n..], c);
    }
  }

  lemma {:induction false} WordsIgnoreTrailing(s: string)
    ensures Words(StripRight(s)) == Words(s)
  {
    if s != "" && IsSpace(s[|s| - 1]) {
      WordsIgnoreTrailing(s[..|s| - 1]);
      assert s == s[..|s| - 1] + [s[|s| - 1]];
      WordsIgnoreTrailingSpace(s[..|s| - 1], s[|s| - 1]);
    }
  }

  lemma {:induction false} StripRightEnds(s: string)
    ensures StripRight(s) <= s
    ensures StripRight(s) != "" ==> !IsSpace(StripRight(s)[|StripRight(s)| - 1])
  {
    if s != "" && IsSpace(s[|s| - 1]) { StripRightEnds(s[..|s| - 1]); }
  }

  lemma {:induction false} CollapseKeepsWord(w: string, rest: string)
    requires forall i :: 0 <= i < |w| ==> !IsSpace(w[i])
    ensures Collapse(w + rest) == w + Collapse(rest)
  {
    if w == "" {
      assert w + rest == rest;
    } else {
      assert (w + rest)[1..] == w[1..] + rest;
      CollapseKeepsWord(w[1..], rest);
      assert w == [w[0]] + w[1..];
    }
  }

  lemma {:induction false} StripLeftSuffix(s: string)
    ensures |StripLeft(s)| <= |s| && StripLeft(s) == s[|s| - |StripLeft(s)|..]
  {
    if s != "" && IsSpace(s[0]) { StripLeftSuffix(s[1..]); }
  }

  lemma {:induction false} CollapseJoinsWords(s: string)
    requires s != "" ==> !IsSpace(s[0]) && !IsSpace(s[|s| - 1])
    ensures Collapse(s) == Join(Words(s), " ")
    decreases |s|
  {
    hide Words, Collapse, StripLeft, Join, WordLength;
    if s == "" {
      NoWords();
    } else {
      var n := WordLength(s);
      WordLengthCut(s);
      FirstWord(s);
      CollapseKeepsWord(s[..n], s[n..]);
      assert s == s[..n] + s[n..];
      if n == |s| {
        NoWords();
      } else {
        var rest := StripLeft(s[n..]);
        StripLeftShrinks(s[n..]);
        StripLeftSuffix(s[n..]);
        if rest == "" { AllSpace(s[n..]); }
        CollapseSpace(s[n..]);
        WordsIgnoreLeading(s[n..]);
        CollapseJoinsWords(rest);
        FirstWord(rest);
        JoinFirst(s[..n], Words(rest));
      }
    }
  }

  lemma {:induction false} NoWords()
    ensures Words("") == [] && Collapse("") == "" && Join(Words(""), " ") == "" && StripLeft("") == ""
  {
  }

  lemma {:induction false} FirstWord(s: string)
    requires s != "" && !IsSpace(s[0])
    ensures Words(s) == [s[..WordLength(s)]] + Words(s[WordLength(s)..])
    ensures WordLength(s) == |s| ==> Words(s) == [s] && Join(Words(s), " ") == s
  {
    if WordLength(s) == |s| { assert s[..|s|] == s && s[|s|..] == ""; }
  }

  lemma {:induction false} CollapseSpace(s: string)
    requires s != "" && IsSpace(s[0])
    ensures Collapse(s) == " " + Collapse(StripLeft(s))
  {
  }

  lemma {:induction false} JoinFirst(w: string, ws: seq<string>)
    requires ws != []
    ensures Join([w] + ws, " ") == w + " " + Join(ws, " ")
  {
    assert ([w] + ws)[1..] == ws;
  }

  lemma {:induction false} AllSpace(s: string)
    requires StripLeft(s) == ""
    ensures s != "" ==> IsSpace(s[|s| - 1])
  {
    if |s| > 1 { AllSpace(s[1..]); }
  }

  /** Strip-and-collapse is split-and-join. */
  lemma {:induction false} NormaliseJoinsWords(raw: string)
    ensures Normalise(raw) == Join(Words(raw), " ")
  {
    var left := StripLeft(raw);
    var both := StripRight(left);
    StripLeftShrinks(raw);
    StripRightEnds(left);
    CollapseJoinsWords(both);
    WordsIgnoreTrailing(left);
    WordsIgnoreLeading(raw);
  }

  lemma {:induction false} WordsOfJoin(ws: seq<string>)
    requires AreWords(ws)
    ensures Words(Join(ws, " ")) == ws
  {
    if |ws| == 1 {
      assert IsWord(ws[0]);
      WordLengthScan(ws[0], "");
      assert ws[0] + "" == ws[0];
      assert ws[0][..|ws[0]|] == ws[0] && ws[0][|ws[0]|..] == "";
    } else if |ws| > 1 {
      assert IsWord(ws[0]);
      var rest := " " + Join(ws[1..], " ");
      var s := ws[0] + rest;
      assert s == Join(ws, " ");
      WordLengthScan(ws[0], rest);
      assert s[0] == ws[0][0] && s[..|ws[0]|] == ws[0] && s[|ws[0]|..] == rest;
      assert rest[1..] == Join(ws[1..], " ");
      WordsOfJoin(ws[1..]);
    }
  }

  lemma {:induction false} NormaliseIdempotent(raw: string)
    ensures Normalise(Normalise(raw)) == Normalise(raw)
    ensures Words(Normalise(raw)) == Words(raw)
  {
    NormaliseJoinsWords(raw);
    WordsAreWords(raw);
    WordsOfJoin(Words(raw));
    NormaliseJoinsWords(Normalise(raw));
  }

  /** Words are the runs of characters between white space: however a text starts, its
      words are its first such run and those of what follows. */
  lemma {:induction false} WordsAreRuns(lead: string, w: string, rest: string)
    requires All(lead, WhiteSpace()) && (forall i :: 0 <= i < |w| ==> w[i] !in WhiteSpace())
    requires rest != "" ==> rest[0] in WhiteSpace()
    ensures Words(lead + w + rest) == if w == "" then Words(rest) else [w] + Words(rest)
    ensures Words(lead) == []
    decreases |lead|
  {
    hide WhiteSpace, IsSpace;
    var s := lead + w + rest;
    if lead != "" {
      SpacesAreWhiteSpace(lead[0]);
      assert s[1..] == lead[1..] + w + rest;
      WordsAreRuns(lead[1..], w, rest);
    } else if w == "" {
      assert s == rest;
    } else {
      forall i | 0 <= i < |w| ensures !IsSpace(w[i]) { SpacesAreWhiteSpace(w[i]); }
      if rest != "" { SpacesAreWhiteSpace(rest[0]); }
      WordLengthScan(w, rest);
      assert s == w + rest && s[0] == w[0] && s[..|w|] == w && s[|w|..] == rest;
    }
  }

  // ---- the uniqueness key ----------------------------------------------------------

  /** The key is written in lower case. */
  lemma {:induction false} LowerMeaning(s: string)
    ensures EqualIgnoringCase(s, Lower(s)) && forall i :: 0 <= i < |Lower(s)| ==> !('A' <= Lower(s)[i] <= 'Z')
  {
  }

  function LowerAll(ws: seq<string>): seq<string> {
    seq(|ws|, i requires 0 <= i < |ws| => Lower(ws[i]))
  }

  lemma {:induction false} LowerJoin(ws: seq<string>)
    ensures Lower(Join(ws, " ")) == Join(LowerAll(ws), " ")
  {
    if |ws| > 1 {
      LowerJoin(ws[1..]);
      assert LowerAll(ws)[1..] == LowerAll(ws[1..]);
    }
  }

  /** The same letter in either case, or the same character. */
  predicate SameLetter(c: char, d: char) {
    || c == d
    || ('A' <= c <= 'Z' && 'a' <= d <= 'z' && c - 'A' == d - 'a')
    || ('A' <= d <= 'Z' && 'a' <= c <= 'z' && d - 'A' == c - 'a')
  }

  predicate EqualIgnoringCase(a: string, b: string) {
    |a| == |b| && forall i :: 0 <= i < |a| ==> SameLetter(a[i], b[i])
  }

  predicate WordsAgree(a: seq<string>, b: seq<string>) {
    |a| == |b| && forall i :: 0 <= i < |a| ==> EqualIgnoringCase(a[i], b[i])
  }

  lemma {:induction false} LowerIgnoresCase(a: string, b: string)
    ensures Lower(a) == Lower(b) <==> EqualIgnoringCase(a, b)
  {
    if Lower(a) == Lower(b) {
      assert |a| == |b|;
      forall i | 0 <= i < |a| ensures SameLetter(a[i], b[i]) { assert Lower(a)[i] == Lower(b)[i]; }
    }
  }

  lemma {:induction false} LowerAllIgnoresCase(a: seq<string>, b: seq<string>)
    ensures LowerAll(a) == LowerAll(b) <==> WordsAgree(a, b)
  {
    hide Lower, EqualIgnoringCase;
    if |a| == |b| {
      forall i | 0 <= i < |a| ensures Lower(a[i]) == Lower(b[i]) <==> EqualIgnoringCase(a[i], b[i]) {
        LowerIgnoresCase(a[i], b[i]);
      }
    }
    if LowerAll(a) == LowerAll(b) {
      assert |LowerAll(a)| == |a| && |LowerAll(b)| == |b|;
      forall i | 0 <= i < |a| ensures EqualIgnoringCase(a[i], b[i]) { assert LowerAll(a)[i] == LowerAll(b)[i]; }
    }
  }

  /** Two names collide exactly when their words agree ignoring case. */
  lemma {:induction false} SameKeySameWords(a: string, b: string)
    ensures NameKey(a) == NameKey(b) <==> WordsAgree(Words(a), Words(b))
  {
    hide Normalise, Words, Lower, LowerAll, WordsAgree, AreWords;
    NormaliseJoinsWords(a);
    NormaliseJoinsWords(b);
    LowerJoin(Words(a));
    LowerJoin(Words(b));
    WordsAreWords(a);
    WordsAreWords(b);
    LowerAreWords(Words(a));
    LowerAreWords(Words(b));
    WordsOfJoin(LowerAll(Words(a)));
    WordsOfJoin(LowerAll(Words(b)));
    LowerAllIgnoresCase(Words(a), Words(b));
  }

  lemma {:induction false} LowerAreWords(ws: seq<string>)
    requires AreWords(ws)
    ensures AreWords(LowerAll(ws))
  {
    forall i | 0 <= i < |ws| ensures IsWord(LowerAll(ws)[i]) { assert IsWord(ws[i]); }
  }

  /** What `ValidateName` accepts, what it returns, and that the returned
      display name is a fixed point with the raw name's key. */
  lemma {:induction false} ValidateNameMeaning(raw: string)
    ensures ValidateName(raw).Accepted? <==>
            3 <= |Normalise(raw)| <= 63 && FullMatch(NamePattern(), Normalise(raw))
    ensures ValidateName(raw) == Rejected(TooShort) <==> |Normalise(raw)| < 3
    ensures ValidateName(raw) == Rejected(TooLong) <==> |Normalise(raw)| > 63
    ensures ValidateName(raw).Accepted? ==>
            var name := ValidateName(raw).name;
            && name == Join(Words(raw), " ")
            && ValidateName(name) == Accepted(name)
            && NameKey(name) == NameKey(raw)
  {
    NamePatternLanguage(Normalise(raw));
    NormaliseIdempotent(raw);
    NormaliseJoinsWords(raw);
  }

  /** `lower` does to ASCII text what it should; to other text, as it likes. */
  ghost predicate LowersAscii(lower: string -> string) {
    forall s: string :: (forall i :: 0 <= i < |s| ==> (s[i] as int) < 128) ==> lower(s) == Lower(s)
  }

  lemma {:induction false} NameShapeIsAscii(s: string)
    requires HasNameShape(s)
    ensures forall i :: 0 <= i < |s| ==> (s[i] as int) < 128
  {
  }

  /** For accepted names the key ignores case however `lower` treats other alphabets: two
      raw names collide exactly when their words agree ignoring case. */
  lemma {:induction false} AcceptedNamesCollide(a: string, b: string, lower: string -> string)
    requires ValidateName(a).Accepted? && ValidateName(b).Accepted? && LowersAscii(lower)
    ensures lower(Normalise(a)) == NameKey(a) && lower(Normalise(b)) == NameKey(b)
    ensures lower(Normalise(a)) == lower(Normalise(b)) <==> WordsAgree(Words(a), Words(b))
  {
    hide Normalise, Lower, Words, WordsAgree, HasNameShape;
    NameShapeIsAscii(Normalise(a));
    NameShapeIsAscii(Normalise(b));
    SameKeySameWords(a, b);
  }
}
