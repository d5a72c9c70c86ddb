/** The fragment of Python's `re` the service's patterns use, with `fullmatch`
    semantics. The anchors `^` and `$` add nothing under `fullmatch`. */
module Regex {
  import opened Text

  datatype Pattern =
    | Class(allowed: set<char>)
    | Then(first: Pattern, second: Pattern)
    | Optional(body: Pattern)
    | Star(body: Pattern)
    | Times(body: Pattern, count: nat)

  predicate IsBetween(c: char, low: char, high: char) {
    low <= c <= high
  }

  /** A range in a character class. */
  ghost function Range(low: char, high: char): set<char> {
    set c: char | IsBetween(c, low, high)
  }

  ghost predicate FullMatch(p: Pattern, s: string)
    decreases p, 0, |s|
  {
    match p
    case Class(allowed) => |s| == 1 && s[0] in allowed
    case Then(first, second) => exists i :: 0 <= i <= |s| && FullMatch(first, s[..i]) && FullMatch(second, s[i..])
    case Optional(body) => s == "" || FullMatch(body, s)
    case Star(body) =>
      s == "" || exists i :: 0 < i <= |s| && FullMatch(body, s[..i]) && FullMatch(p, s[i..])
    case Times(body, count) => Repeats(body, count, s)
  }

  ghost predicate Repeats(body: Pattern, count: nat, s: string)
    decreases body, 1, count
  {
    if count == 0 then s == ""
    else exists i :: 0 <= i <= |s| && FullMatch(body, s[..i]) && Repeats(body, count - 1, s[i..])
  }

  ghost predicate All(s: string, allowed: set<char>) {
    forall i :: 0 <= i < |s| ==> s[i] in allowed
  }

  lemma {:induction false} ClassThen(allowed: set<char>, rest: Pattern, s: string)
    ensures FullMatch(Then(Class(allowed), rest), s) <==> s != "" && s[0] in allowed && FullMatch(rest, s[1..])
  {
    if s != "" && s[0] in allowed && FullMatch(rest, s[1..]) {
      assert FullMatch(Class(allowed), s[..1]) && FullMatch(rest, s[1..]);
    }
    if FullMatch(Then(Class(allowed), rest), s) {
      var i :| 0 <= i <= |s| && FullMatch(Class(allowed), s[..i]) && FullMatch(rest, s[i..]);
      assert i == 1 && s[..1][0] == s[0];
    }
  }

  /** A literal text, then `rest`. */
  ghost function Literally(text: string, rest: Pattern): Pattern {
    if text == "" then rest else Then(Class({text[0]}), Literally(text[1..], rest))
  }

  lemma {:induction false} LiterallyMatches(text: string, rest: Pattern, s: string)
    ensures FullMatch(Literally(text, rest), s) <==> StartsWith(s, text) && FullMatch(rest, s[|text|..])
  {
    hide FullMatch;
    if text == "" {
      assert s[0..] == s;
    } else {
      ClassThen({text[0]}, Literally(text[1..], rest), s);
      if s != "" {
        LiterallyMatches(text[1..], rest, s[1..]);
        assert text == [text[0]] + text[1..] && s == [s[0]] + s[1..];
        if |text| <= |s| {
          assert s[1..][|text| - 1..] == s[|text|..];
          assert s[..|text|] == [s[0]] + s[1..][..|text| - 1];
        }
      }
    }
  }

  lemma {:induction false} ThenClass(first: Pattern, allowed: set<char>, s: string)
    ensures FullMatch(Then(first, Class(allowed)), s) <==>
            s != "" && FullMatch(first, s[..|s| - 1]) && s[|s| - 1] in allowed
  {
    if s != "" && FullMatch(first, s[..|s| - 1]) && s[|s| - 1] in allowed {
      assert FullMatch(first, s[..|s| - 1]) && FullMatch(Class(allowed), s[|s| - 1..]);
    }
    if FullMatch(Then(first, Class(allowed)), s) {
      var i :| 0 <= i <= |s| && FullMatch(first, s[..i]) && FullMatch(Class(allowed), s[i..]);
      assert i == |s| - 1 && s[i..][0] == s[i];
    }
  }

  lemma {:induction false} StarOfClass(allowed: set<char>, s: string)
    ensures FullMatch(Star(Class(allowed)), s) <==> All(s, allowed)
  {
    if s != "" {
      if All(s, allowed) {
        StarOfClass(allowed, s[1..]);
        assert FullMatch(Class(allowed), s[..1]);
        assert FullMatch(Star(Class(allowed)), s[1..]);
      }
      if FullMatch(Star(Class(allowed)), s) {
        var i :| 0 < i <= |s| && FullMatch(Class(allowed), s[..i]) && FullMatch(Star(Class(allowed)), s[i..]);
        StarOfClass(allowed, s[i..]);
        assert s == s[..i] + s[i..];
      }
    }
  }

  lemma {:induction false} RepeatsOfClass(allowed: set<char>, count: nat, s: string)
    ensures FullMatch(Times(Class(allowed), count), s) <==> |s| == count && All(s, allowed)
  {
    if count > 0 {
      if Repeats(Class(allowed), count, s) {
        var i :| 0 <= i <= |s| && FullMatch(Class(allowed), s[..i]) && Repeats(Class(allowed), count - 1, s[i..]);
        RepeatsOfClass(allowed, count - 1, s[i..]);
        assert s == s[..i] + s[i..];
      }
      if |s| == count && All(s, allowed) {
        RepeatsOfClass(allowed, count - 1, s[1..]);
        assert FullMatch(Class(allowed), s[..1]) && Repeats(Class(allowed), count - 1, s[1..]);
      }
    }
  }
}
