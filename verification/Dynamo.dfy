/** What the service relies on from DynamoDB: conditional single-item updates
    and all-or-nothing conditional transactions over rows of attributes. */
module Dynamo {
  import opened Text

  /** A typed attribute value: `{"S": s}`, or another type with the text Python's `str` gives it. */
  datatype Value = S(s: string) | Other(kind: string, text: string)
  type Item = map<string, Value>
  datatype Key = Key(pk: string, sk: string)
  type Rows = map<Key, Item>

  /** Condition expressions. A comparison on a missing attribute is false. */
  datatype Condition =
    | Exists(attribute: string)
    | NotExists(attribute: string)
    | Equals(attribute: string, value: Value)
    | And(left: Condition, right: Condition)

  predicate Holds(c: Condition, item: Item) {
    match c
    case Exists(a) => a in item
    case NotExists(a) => a !in item
    case Equals(a, v) => a in item && item[a] == v
    case And(l, r) => Holds(l, item) && Holds(r, item)
  }

  /** The attributes of an item; a missing item has none. */
  function ItemAt(rows: Rows, key: Key): Item {
    if key in rows then rows[key] else map[]
  }

  datatype Write =
    | Put(key: Key, item: Item, condition: Condition)
    | Delete(key: Key, condition: Condition)

  /** Each write's condition, all judged in the same state. */
  function Conditions(rows: Rows, writes: seq<Write>): (conditions: seq<bool>)
    ensures |conditions| == |writes|
  {
    seq(|writes|, i requires 0 <= i < |writes| => Holds(writes[i].condition, ItemAt(rows, writes[i].key)))
  }

  function Apply(rows: Rows, writes: seq<Write>): Rows
    decreases |writes|
  {
    if writes == [] then rows
    else match writes[0]
      case Put(key, item, _) => Apply(rows[key := item], writes[1..])
      case Delete(key, _) => Apply(rows - {key}, writes[1..])
  }

  // ---- how one call can end ------------------------------------------------------

  datatype Reason = NoReason | ConditionalCheckFailed | OtherReason(code: string)

  /** The environment's part in a call. `NoFault`: it ends as its conditions say.
      `Cancel`: it is cancelled for the given reasons. `Break`: some other error is
      raised, after the write took effect (if its conditions held) or before. `Resent`: the
      client library lost the answer and sent the call again. A transaction carries a token
      that makes the second attempt repeat the first one's answer, and a read changes nothing;
      but an update that took effect the first time is judged anew, and refused. */
  datatype Fault =
    | NoFault
    | Cancel(reasons: seq<Reason>, message: string)
    | Break(code: string, applied: bool)
    | Resent

  /** A transaction or a read ends as it is judged. */
  predicate IsPlain(fault: Fault) {
    fault.NoFault? || fault.Resent?
  }

  datatype WriteResponse =
    | Committed
    | Canceled(reasons: seq<Reason>, message: string)
    | Failed(code: string)

  const CHECK_FAILED := "ConditionalCheckFailed"

  predicate AllTrue(conditions: seq<bool>) {
    forall i :: 0 <= i < |conditions| ==> conditions[i]
  }

  /** Reasons line up with the writes, and a failed condition is reported only
      where there is one. Some emulators leave the reasons out. */
  predicate HonestCancel(conditions: seq<bool>, reasons: seq<Reason>, message: string) {
    && (reasons == [] || |reasons| == |conditions|)
    && (forall i :: 0 <= i < |reasons| && reasons[i] == ConditionalCheckFailed ==> !conditions[i])
    && (reasons == [] && Contains(message, CHECK_FAILED) ==> !AllTrue(conditions))
  }

  function ExactReasons(conditions: seq<bool>): seq<Reason> {
    seq(|conditions|, i requires 0 <= i < |conditions| => if conditions[i] then NoReason else ConditionalCheckFailed)
  }

  function Respond(conditions: seq<bool>, fault: Fault): WriteResponse {
    if fault.Break? then Failed(fault.code)
    else if fault.Cancel? && HonestCancel(conditions, fault.reasons, fault.message) then
      Canceled(fault.reasons, fault.message)
    else if AllTrue(conditions) then Committed
    else Canceled(ExactReasons(conditions), CHECK_FAILED)
  }

  predicate TakesEffect(conditions: seq<bool>, fault: Fault) {
    AllTrue(conditions) && (Respond(conditions, fault).Committed? || (fault.Break? && fault.applied))
  }

  datatype UpdateResponse = Updated | ConditionFailed | UpdateFailed(code: string)

  function RespondUpdate(condition: bool, fault: Fault): UpdateResponse {
    if fault.Break? then UpdateFailed(fault.code)
    else if condition && !fault.Resent? then Updated else ConditionFailed
  }

  predicate UpdateTakesEffect(condition: bool, fault: Fault) {
    condition && (fault.Break? ==> fault.applied)
  }
}
