/** The DynamoDB client as the service sees it: one table, changed one call at a
    time, each call together with its fault. */
module Client {
  import opened Dynamo
  import opened OwnerIndex
  import opened UpdateExpression

  datatype GetResponse = Item(item: Item) | NoItem | GetFailed(code: string)

  const VALIDATION := "ValidationException"

  /** Both expressions of an update are checked before the condition is judged. */
  predicate IsValidUpdate(update: string, condition: string, names: NameMap, values: ValueMap, item: Item) {
    EvalUpdate(update, names, values, item).Evaluated? && EvalCondition(condition, names, values, item).Some?
  }

  class Table {
    var rows: Rows
    var queries: seq<Query>  // sent so far

    constructor ()
      ensures rows == map[] && queries == []
    {
      rows := map[];
      queries := [];
    }

    method TransactWriteItems(writes: seq<Write>, fault: Fault) returns (response: WriteResponse)
      modifies this`rows
      ensures response == Respond(Conditions(old(rows), writes), fault)
      ensures rows == if TakesEffect(Conditions(old(rows), writes), fault) then Apply(old(rows), writes) else old(rows)
    {
      var conditions := Conditions(rows, writes);
      response := Respond(conditions, fault);
      if TakesEffect(conditions, fault) {
        rows := Apply(rows, writes);
      }
    }

    method GetItem(key: Key, fault: Fault) returns (response: GetResponse)
      ensures response == if fault.Break? then GetFailed(fault.code)
                          else if key in rows then Item(rows[key]) else NoItem
    {
      if fault.Break? {
        response := GetFailed(fault.code);
      } else if key in rows {
        response := Item(rows[key]);
      } else {
        response := NoItem;
      }
    }

    method UpdateItem(key: Key, update: string, condition: string, names: NameMap, values: ValueMap, fault: Fault)
      returns (response: UpdateResponse)
      modifies this`rows
      ensures !IsValidUpdate(update, condition, names, values, ItemAt(old(rows), key)) ==>
                rows == old(rows) && response == UpdateFailed(VALIDATION)
      ensures IsValidUpdate(update, condition, names, values, ItemAt(old(rows), key)) ==>
                var holds := EvalCondition(condition, names, values, ItemAt(old(rows), key)).value;
                && response == RespondUpdate(holds, fault)
                && rows == if UpdateTakesEffect(holds, fault)
                           then old(rows)[key := EvalUpdate(update, names, values, ItemAt(old(rows), key)).item]
                           else old(rows)
    {
      var item := ItemAt(rows, key);
      if !IsValidUpdate(update, condition, names, values, item) {
        return UpdateFailed(VALIDATION);
      }
      var holds := EvalCondition(condition, names, values, item).value;
      response := RespondUpdate(holds, fault);
      if UpdateTakesEffect(holds, fault) {
        rows := rows[key := EvalUpdate(update, names, values, item).item];
      }
    }

    /** `reply` is what the index answers. */
    method Query(query: Query, reply: QueryReply) returns (response: QueryReply)
      requires reply.Page? ==> IsReply(rows, query, reply.items, reply.last)
      modifies this`queries
      ensures queries == old(queries) + [query] && response == reply
    {
      queries := queries + [query];
      response := reply;
    }

    /** Other clients' calls, run between two calls of this one, leave these rows. */
    method OthersRun(next: Rows)
      modifies this`rows
      ensures rows == next
    {
      rows := next;
    }
  }
}
