/** The expressions of an UpdateItem call, read as text: `SET a = :b, c = :d` and
    `a = :b`, with placeholder names and values. */
module UpdateExpression {
  import opened Text
  import opened Dynamo

  type NameMap = map<string, string>
  type ValueMap = map<string, Value>

  datatype Evaluation = Evaluated(item: Item) | Rejected

  /** `left = right` */
  function ParseClause(text: string): Option<(string, string)> {
    var parts := Split(text, " = ");
    if |parts| == 2 then Some((parts[0], parts[1])) else None
  }

  /** Key attributes cannot be taken. */
  const KEY_ATTRIBUTES := {"PK", "SK"}

  /** Assigns in turn; an undefined placeholder, a key attribute or a second
      assignment to one attribute rejects the whole expression. */
  function EvalClauses(clauses: seq<string>, names: NameMap, values: ValueMap, item: Item,
                       taken: set<string>): Evaluation
    decreases |clauses|
  {
    if clauses == [] then Evaluated(item)
    else match ParseClause(clauses[0])
      case None => Rejected
      case Some((left, right)) =>
        if left !in names || right !in values || names[left] in taken + KEY_ATTRIBUTES then Rejected
        else EvalClauses(clauses[1..], names, values, item[names[left] := values[right]], taken + {names[left]})
  }

  function EvalUpdate(text: string, names: NameMap, values: ValueMap, item: Item): Evaluation {
    if StartsWith(text, "SET ") then EvalClauses(Split(text[4..], ", "), names, values, item, {}) else Rejected
  }

  /** `attribute = value`; None when a placeholder is undefined. */
  function EvalCondition(text: string, names: NameMap, values: ValueMap, item: Item): Option<bool> {
    match ParseClause(text)
    case None => None
    case Some((left, right)) =>
      if left in names && right in values then Some(Holds(Equals(names[left], values[right]), item)) else None
  }

  // ---- what `_transition` builds ---------------------------------------------------------

  type Entries = seq<(string, Value)>

  function NameAt(index: nat): string { "#x" + Decimal(index) }
  function ValueAt(index: nat): string { ":x" + Decimal(index) }
  function ClauseAt(index: nat): string { NameAt(index) + " = " + ValueAt(index) }

  const FIXED_CLAUSES := ["#s = :target", "#u = :now"]

  function ClausesUpTo(count: nat): (clauses: seq<string>)
    ensures |clauses| == count + 2
  {
    FIXED_CLAUSES + seq(count, i requires 0 <= i < count => ClauseAt(i))
  }

  /** The placeholders defined so far mean what the first `count` entries say. */
  ghost predicate Defines(names: NameMap, values: ValueMap, entries: Entries, count: nat, target: Value, now: Value)
    requires count <= |entries|
  {
    && "#s" in names && names["#s"] == "status" && "#u" in names && names["#u"] == "updatedAt"
    && ":target" in values && values[":target"] == target && ":now" in values && values[":now"] == now
    && (forall i :: 0 <= i < count ==> NameAt(i) in names && names[NameAt(i)] == entries[i].0)
    && (forall i :: 0 <= i < count ==> ValueAt(i) in values && values[ValueAt(i)] == entries[i].1)
  }

  /** The entries are those of a map, each key once. */
  ghost predicate Enumerates(entries: Entries, m: map<string, Value>) {
    && (forall i, j :: 0 <= i < j < |entries| ==> entries[i].0 != entries[j].0)
    && (forall i :: 0 <= i < |entries| ==> entries[i].0 in m && m[entries[i].0] == entries[i].1)
    && (forall k :: k in m ==> exists i :: 0 <= i < |entries| && entries[i].0 == k)
  }

  /** Fresh placeholders: numerals are injective, and no numeral spells `s` or `u`. */
  lemma {:induction false} PlaceholdersDistinct(i: nat, j: nat)
    requires i != j
    ensures NameAt(i) != NameAt(j) && ValueAt(i) != ValueAt(j)
    ensures NameAt(i) != "#s" && NameAt(i) != "#u" && NameAt(i)[1] == 'x'
    ensures ValueAt(i) != ":expected" && ValueAt(i) != ":target" && ValueAt(i) != ":now" && ValueAt(i)[1] == 'x'
  {
    PrefixedEqual("#x", Decimal(i), Decimal(j));
    PrefixedEqual(":x", Decimal(i), Decimal(j));
    if Decimal(i) == Decimal(j) { DecimalInjective(i, j); }
    assert NameAt(i)[1] == 'x' && "#s"[1] == 's' && "#u"[1] == 'u';
    assert ValueAt(i)[1] == 'x' && ":expected"[1] == 'e' && ":target"[1] == 't' && ":now"[1] == 'n';
  }

  lemma {:induction false} ParseTwo(left: string, right: string)
    requires ' ' !in left && ' ' !in right
    ensures ParseClause(left + " = " + right) == Some((left, right))
  {
    var parts := [left, right];
    assert parts[1..] == [right];
    assert Join(parts, " = ") == left + " = " + right;
    SplitJoin(parts, " = ");
  }

  lemma {:induction false} ClauseShape(index: nat)
    ensures ParseClause(ClauseAt(index)) == Some((NameAt(index), ValueAt(index)))
    ensures ',' !in ClauseAt(index)
  {
    DecimalDigits(index);
    ParseTwo(NameAt(index), ValueAt(index));
  }

  lemma {:induction false} FixedClauseShapes()
    ensures ParseClause("#s = :target") == Some(("#s", ":target"))
    ensures ParseClause("#u = :now") == Some(("#u", ":now"))
    ensures ParseClause("#s = :expected") == Some(("#s", ":expected"))
  {
    hide ParseClause;
    FixedClauseShape("#s", ":target", "#s = :target");
    FixedClauseShape("#u", ":now", "#u = :now");
    FixedClauseShape("#s", ":expected", "#s = :expected");
  }

  lemma {:induction false} FixedClauseShape(left: string, right: string, text: string)
    requires text == left + " = " + right && ' ' !in left && ' ' !in right
    ensures ParseClause(text) == Some((left, right))
  {
    hide ParseClause;
    ParseTwo(left, right);
  }

  lemma {:induction false} TextSplits(count: nat)
    ensures var text := "SET " + Join(ClausesUpTo(count), ", ");
            StartsWith(text, "SET ") && Split(text[4..], ", ") == ClausesUpTo(count)
  {
    var clauses := ClausesUpTo(count);
    forall c | c in clauses ensures ',' !in c {
      var i :| 0 <= i < |clauses| && clauses[i] == c;
      if i >= 2 { ClauseShape(i - 2); }
    }
    SplitJoin(clauses, ", ");
    assert ("SET " + Join(clauses, ", "))[4..] == Join(clauses, ", ");
  }

  function Overlay(item: Item, entries: Entries): Item
    decreases |entries|
  {
    if entries == [] then item else Overlay(item[entries[0].0 := entries[0].1], entries[1..])
  }

  predicate Assignable(attribute: string, taken: set<string>) {
    attribute !in taken + KEY_ATTRIBUTES
  }

  /** The attributes set by the fixed clauses and the first `count` entries. */
  ghost function SetSoFar(entries: Entries, count: nat): set<string>
    requires count <= |entries|
  {
    {"status", "updatedAt"} + set i | 0 <= i < count :: entries[i].0
  }

  lemma {:induction false} SetSoFarStep(entries: Entries, count: nat)
    requires count < |entries|
    requires forall i, j :: 0 <= i < j < |entries| ==> entries[i].0 != entries[j].0
    ensures SetSoFar(entries, count + 1) == SetSoFar(entries, count) + {entries[count].0}
    ensures Assignable(entries[count].0, SetSoFar(entries, count))
         == Assignable(entries[count].0, {"status", "updatedAt"})
  {
  }

  lemma {:induction false} ClausesFrom(count: nat, start: nat)
    requires start <= count
    ensures start < count ==>
              var clauses := ClausesUpTo(count)[2 + start..];
              clauses[0] == ClauseAt(start) && clauses[1..] == ClausesUpTo(count)[2 + (start + 1)..]
  {
    hide ClauseAt;
  }

  /** From clause `start` on, evaluation overlays the remaining entries, or is rejected
      exactly when one of them names an attribute it may not. */
  lemma {:induction false} EvalEntries(names: NameMap, values: ValueMap, entries: Entries, start: nat, target: Value,
                                       now: Value, item: Item)
    requires start <= |entries| && Defines(names, values, entries, |entries|, target, now)
    requires forall i, j :: 0 <= i < j < |entries| ==> entries[i].0 != entries[j].0
    ensures EvalClauses(ClausesUpTo(|entries|)[2 + start..], names, values, item, SetSoFar(entries, start))
         == if forall i :: start <= i < |entries| ==> Assignable(entries[i].0, {"status", "updatedAt"})
            then Evaluated(Overlay(item, entries[start..])) else Rejected
    decreases |entries| - start
  {
    hide ParseClause, NameAt, ValueAt, ClauseAt, SetSoFar, ClausesUpTo;
    var clauses := ClausesUpTo(|entries|)[2 + start..];
    ClausesFrom(|entries|, start);
    if start < |entries| {
      ClauseShape(start);
      SetSoFarStep(entries, start);
      assert entries[start..][1..] == entries[start + 1..];
      EvalEntries(names, values, entries, start + 1, target, now, item[entries[start].0 := entries[start].1]);
    }
  }

  lemma {:induction false} EnumeratesRest(entries: Entries, m: map<string, Value>)
    requires Enumerates(entries, m) && entries != []
    ensures Enumerates(entries[1..], m - {entries[0].0}) && entries[0].0 in m && m[entries[0].0] == entries[0].1
  {
    var (rest, m') := (entries[1..], m - {entries[0].0});
    forall i | 0 <= i < |rest| ensures rest[i].0 in m' && m'[rest[i].0] == rest[i].1 {
      assert rest[i] == entries[i + 1] && entries[0].0 != entries[i + 1].0;
    }
    forall k | k in m' ensures exists i :: 0 <= i < |rest| && rest[i].0 == k {
      var i :| 0 <= i < |entries| && entries[i].0 == k;
      assert rest[i - 1].0 == k;
    }
  }

  lemma {:induction false} OverlayIsMerge(item: Item, entries: Entries, m: map<string, Value>)
    requires Enumerates(entries, m)
    ensures Overlay(item, entries) == item + m
    decreases |entries|
  {
    if entries == [] {
      assert m == map[];
    } else {
      hide Enumerates;
      EnumeratesRest(entries, m);
      var (key, value) := (entries[0].0, entries[0].1);
      OverlayIsMerge(item[key := value], entries[1..], m - {key});
      assert item[key := value] + (m - {key}) == item + m;
    }
  }

  /** The map says something about `status`, `updatedAt` or a key attribute. */
  predicate Clashes(extra: map<string, Value>) {
    "status" in extra || "updatedAt" in extra || "PK" in extra || "SK" in extra
  }

  /** Compilation keeps its meaning: the built text, names and values update the item as
      the direct map update would; and it is rejected exactly when `extra` clashes. */
  lemma {:induction false} CompilationCorrect(names: NameMap, values: ValueMap, entries: Entries,
                                              extra: map<string, Value>, target: Value, now: Value, item: Item)
    requires Enumerates(entries, extra) && Defines(names, values, entries, |entries|, target, now)
    ensures EvalUpdate("SET " + Join(ClausesUpTo(|entries|), ", "), names, values, item)
         == if Clashes(extra) then Rejected else Evaluated(item["status" := target]["updatedAt" := now] + extra)
  {
    hide ParseClause, Decimal, Split, Join, Overlay;
    TextSplits(|entries|);
    FixedClauseShapes();
    var clauses := ClausesUpTo(|entries|);
    assert clauses[0] == "#s = :target" && clauses[1..][0] == "#u = :now";
    assert clauses[1..][1..] == clauses[2 + 0..];
    var updated := item["status" := target]["updatedAt" := now];
    assert SetSoFar(entries, 0) == {"status", "updatedAt"};
    EvalEntries(names, values, entries, 0, target, now, updated);
    assert entries[0..] == entries;
    OverlayIsMerge(updated, entries, extra);
    FixedEval(clauses, names, values, item);
    EntriesClash(entries, extra);
  }

  lemma {:induction false} EntriesClash(entries: Entries, extra: map<string, Value>)
    requires Enumerates(entries, extra)
    ensures Clashes(extra) <==> !(forall i :: 0 <= i < |entries| ==> Assignable(entries[i].0, {"status", "updatedAt"}))
  {
  }

  lemma {:induction false} FixedEval(clauses: seq<string>, names: NameMap, values: ValueMap, item: Item)
    requires |clauses| >= 2 && clauses[0] == "#s = :target" && clauses[1] == "#u = :now"
    requires "#s" in names && names["#s"] == "status" && "#u" in names && names["#u"] == "updatedAt"
    requires ":target" in values && ":now" in values
    ensures EvalClauses(clauses, names, values, item, {})
         == EvalClauses(clauses[2..], names, values,
                        item["status" := values[":target"]]["updatedAt" := values[":now"]], {"status", "updatedAt"})
  {
    hide ParseClause;
    FixedClauseShapes();
    assert clauses[1..][1..] == clauses[2..];
    assert {} + {"status"} == {"status"} && {"status"} + {"updatedAt"} == {"status", "updatedAt"};
  }
}
