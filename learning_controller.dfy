/**
 * The learning-note endpoints: request validation by ordered early-exit
 * checks, creation of an item with its five fixed-offset review tasks, and
 * the endpoints that read, update and delete one note by id. The HTTP
 * response is the result value; the store is a class holding both tables.
 */
module LearningController {
  import opened Wrappers
  import opened ReviewTasks

  /** A value of a JSON request body, as JavaScript sees it. */
  datatype Json =
    | Undefined
    | Null
    | Bool(b: bool)
    | Num(n: int)
    | NaN
    | Str(s: string)
    | Arr(elems: seq<Json>)
    | Obj

  /** JavaScript truthiness. */
  predicate Truthy(v: Json)
  {
    match v
    case Undefined => false
    case Null => false
    case Bool(b) => b
    case Num(n) => n != 0
    case NaN => false
    case Str(s) => s != ""
    case Arr(_) => true
    case Obj => true
  }

  /** `Array.isArray(v) && !v.some(x => typeof x !== "string")`. */
  predicate IsStringArray(v: Json)
  {
    v.Arr? && forall i :: 0 <= i < |v.elems| ==> v.elems[i].Str?
  }

  function StringElems(v: Json): (r: seq<string>)
    requires IsStringArray(v)
    ensures |r| == |v.elems| && forall i :: 0 <= i < |r| ==> v.elems[i] == Str(r[i])
  {
    seq(|v.elems|, i requires 0 <= i < |v.elems| => v.elems[i].s)
  }

  /** The fields of a note request; an absent field is `Undefined`. */
  datatype NoteRequest = NoteRequest(topic: Json, goal: Json, resources: Json, startDay: Json)

  /** What the endpoint answers: a status code and a body. */
  datatype Payload =
    | ErrorMessage(message: string)
    | ItemPayload(item: Item)
    | NotePayload(item: Item, reviews: set<FixedTask>)
    | Empty
  datatype Response = Response(status: int, payload: Payload)

  const INVALID_ID: string := "Invalid note id"

  /** The day offsets of the review tasks of a new note. */
  const INTERVAL_DAYS: seq<int> := [1, 3, 7, 14, 30]

  /** The first failing check of a create request, in the order topic, goal, resources, start day. */
  function CreateError(req: NoteRequest, dateParse: Json -> Option<int>): Option<string>
  {
    if !Truthy(req.topic) || !req.topic.Str? then Some("Missing or invalid topic")
    else if !IsStringArray(req.goal) then Some("Goals must be an array of strings")
    else if Truthy(req.resources) && !IsStringArray(req.resources) then Some("Resources must be an array of strings")
    else if !Truthy(req.startDay) || dateParse(req.startDay).None? then Some("Missing or invalid startDay")
    else None
  }

  /** A create request passes exactly when its topic is a non-empty string, its goal a string list, its resources falsy or a string list, and its start day parses. */
  lemma CreateErrorMeaning(req: NoteRequest, dateParse: Json -> Option<int>)
    ensures CreateError(req, dateParse).None? <==>
      && req.topic.Str? && req.topic.s != ""
      && IsStringArray(req.goal)
      && (!Truthy(req.resources) || IsStringArray(req.resources))
      && Truthy(req.startDay) && dateParse(req.startDay).Some?
    ensures !req.topic.Str? || req.topic.s == "" ==> CreateError(req, dateParse) == Some("Missing or invalid topic")
    ensures req.topic.Str? && req.topic.s != "" && !IsStringArray(req.goal) ==>
      CreateError(req, dateParse) == Some("Goals must be an array of strings")
    ensures (req.topic.Str? && req.topic.s != "" && IsStringArray(req.goal)
             && Truthy(req.resources) && !IsStringArray(req.resources)) ==>
      CreateError(req, dateParse) == Some("Resources must be an array of strings")
    ensures (req.topic.Str? && req.topic.s != "" && IsStringArray(req.goal)
             && (!Truthy(req.resources) || IsStringArray(req.resources))
             && (!Truthy(req.startDay) || dateParse(req.startDay).None?)) ==>
      CreateError(req, dateParse) == Some("Missing or invalid startDay")
  {
  }

  /** The five tasks of a new note, before the store gives them ids. */
  function FanOut(itemId: int): (drafts: seq<(int, int)>)
  {
    seq(|INTERVAL_DAYS|, k requires 0 <= k < |INTERVAL_DAYS| => (INTERVAL_DAYS[k], itemId))
  }

  /** A note gets exactly five tasks, at days 1, 3, 7, 14 and 30 in that order, all pointing at it. */
  lemma FanOutFive(itemId: int)
    ensures |FanOut(itemId)| == 5
    ensures forall k :: 0 <= k < 5 ==> FanOut(itemId)[k].1 == itemId
    ensures [FanOut(itemId)[0].0, FanOut(itemId)[1].0, FanOut(itemId)[2].0, FanOut(itemId)[3].0, FanOut(itemId)[4].0]
      == [1, 3, 7, 14, 30]
  {
  }

  /** The stored tasks made from `drafts`, numbered consecutively from `first`. */
  function TasksFrom(first: int, drafts: seq<(int, int)>): map<int, FixedTask>
    decreases |drafts|
  {
    if |drafts| == 0 then map[]
    else
      var k := first + |drafts| - 1;
      TasksFrom(first, drafts[..|drafts| - 1])[k := FixedTask(k, drafts[|drafts| - 1].0, drafts[|drafts| - 1].1)]
  }

  /** Draft `j` becomes task `first + j`, and there are no other tasks. */
  lemma {:induction false} TasksFromMeaning(first: int, drafts: seq<(int, int)>)
    ensures forall k :: k in TasksFrom(first, drafts) <==> first <= k < first + |drafts|
    ensures forall j :: 0 <= j < |drafts| ==>
      TasksFrom(first, drafts)[first + j] == FixedTask(first + j, drafts[j].0, drafts[j].1)
    decreases |drafts|
  {
    if |drafts| > 0 {
      var init := drafts[..|drafts| - 1];
      TasksFromMeaning(first, init);
      forall j | 0 <= j < |drafts| - 1
        ensures first + j in TasksFrom(first, drafts) && TasksFrom(first, drafts)[first + j] == FixedTask(first + j, drafts[j].0, drafts[j].1)
      {
        assert init[j] == drafts[j];
        assert first + j in TasksFrom(first, init);
      }
    }
  }

  /** The five stored tasks of a new item: numbered from `first`, each pointing at the item. */
  lemma FanOutTasks(first: int, itemId: int)
    ensures forall k :: k in TasksFrom(first, FanOut(itemId)) ==>
      && first <= k < first + 5
      && TasksFrom(first, FanOut(itemId))[k].id == k
      && TasksFrom(first, FanOut(itemId))[k].itemId == itemId
  {
    var m := TasksFrom(first, FanOut(itemId));
    TasksFromMeaning(first, FanOut(itemId));
    FanOutFive(itemId);
    forall k | k in m
      ensures first <= k < first + 5 && m[k].id == k && m[k].itemId == itemId
    {
      assert m[first + (k - first)] == FixedTask(k, FanOut(itemId)[k - first].0, FanOut(itemId)[k - first].1);
    }
  }

  /** The fields an update request sets; `None` leaves a field as it was. */
  datatype Updates = Updates(
    topic: Option<string>, goal: Option<seq<string>>, resources: Option<seq<string>>, startDay: Option<int>)

  /** The updates of a request, or the message of its first invalid present field. */
  function UpdatesOf(req: NoteRequest, dateParse: Json -> Option<int>): Result<Updates, string>
  {
    if req.topic != Undefined && !req.topic.Str? then Err("Topic must be a string")
    else if req.goal != Undefined && !IsStringArray(req.goal) then Err("Goals must be an array of strings")
    else if req.resources != Undefined && !IsStringArray(req.resources) then Err("Resources must be an array of strings")
    else if req.startDay != Undefined && dateParse(req.startDay).None? then Err("Invalid startDay")
    else Ok(Updates(
      if req.topic == Undefined then None else Some(req.topic.s),
      if req.goal == Undefined then None else Some(StringElems(req.goal)),
      if req.resources == Undefined then None else Some(StringElems(req.resources)),
      if req.startDay == Undefined then None else Some(dateParse(req.startDay).value)))
  }

  /** `item` with the present updates written over it. */
  function Apply(item: Item, u: Updates): Item
  {
    item.(
      topic := if u.topic.Some? then u.topic.value else item.topic,
      goal := if u.goal.Some? then u.goal.value else item.goal,
      resources := if u.resources.Some? then u.resources.value else item.resources,
      startDay := if u.startDay.Some? then u.startDay.value else item.startDay)
  }

  /** Only fields that are present take part: an absent field neither fails the request nor changes the item. */
  lemma UpdatesOnlyPresentFields(req: NoteRequest, dateParse: Json -> Option<int>, item: Item)
    ensures UpdatesOf(req, dateParse).Ok? <==>
      && (req.topic == Undefined || req.topic.Str?)
      && (req.goal == Undefined || IsStringArray(req.goal))
      && (req.resources == Undefined || IsStringArray(req.resources))
      && (req.startDay == Undefined || dateParse(req.startDay).Some?)
    ensures UpdatesOf(req, dateParse).Ok? ==>
      var after := Apply(item, UpdatesOf(req, dateParse).value);
      && after.id == item.id && after.createdAt == item.createdAt
      && (req.topic == Undefined ==> after.topic == item.topic)
      && (req.topic != Undefined ==> Str(after.topic) == req.topic)
      && (req.goal == Undefined ==> after.goal == item.goal)
      && (req.goal != Undefined ==> after.goal == StringElems(req.goal))
      && (req.resources == Undefined ==> after.resources == item.resources)
      && (req.resources != Undefined ==> after.resources == StringElems(req.resources))
      && (req.startDay == Undefined ==> after.startDay == item.startDay)
      && (req.startDay != Undefined ==> Some(after.startDay) == dateParse(req.startDay))
  {
  }

  /** Every task points at a stored item. */
  predicate NoOrphans(items: map<int, Item>, tasks: map<int, FixedTask>)
  {
    forall k :: k in tasks ==> tasks[k].itemId in items
  }

  /** The tasks that do not point at item `id`. */
  function WithoutTasksOf(tasks: map<int, FixedTask>, id: int): (r: map<int, FixedTask>)
  {
    map k | k in tasks && tasks[k].itemId != id :: tasks[k]
  }

  /**
   * Deleting the item's tasks before the item keeps every task pointing at
   * an item; deleting the item first does so only when no task points at it.
   */
  lemma DeleteOrder(items: map<int, Item>, tasks: map<int, FixedTask>, id: int)
    requires NoOrphans(items, tasks)
    ensures NoOrphans(items, WithoutTasksOf(tasks, id))
    ensures NoOrphans(items - {id}, WithoutTasksOf(tasks, id))
    ensures NoOrphans(items - {id}, tasks) <==> forall k :: k in tasks ==> tasks[k].itemId != id
  {
    if !NoOrphans(items - {id}, tasks) {
      var k :| k in tasks && tasks[k].itemId !in items - {id};
      assert tasks[k].itemId == id;
    }
  }

  /** The learning-item and review-task tables. */
  class LearningStore {
    var items: map<int, Item>
    var tasks: map<int, FixedTask>
    var nextItemId: int
    var nextTaskId: int

    /** Ids are keys, and no task points at a missing item. */
    ghost predicate Valid()
      reads this
    {
      && (forall id :: id in items ==> items[id].id == id && id < nextItemId)
      && (forall id :: id in tasks ==> tasks[id].id == id && id < nextTaskId)
      && NoOrphans(items, tasks)
    }

    constructor ()
      ensures Valid() && items == map[] && tasks == map[]
    {
      items, tasks, nextItemId, nextTaskId := map[], map[], 1, 1;
    }

    /** The tasks of item `id`. */
    function TasksOf(id: int): (r: set<FixedTask>)
      reads this
      ensures forall t :: t in r <==> t in tasks.Values && t.itemId == id
    {
      set t | t in tasks.Values && t.itemId == id
    }

    /**
     * POST: validate, create the item, then its five review tasks. A falsy
     * `resources` other than `undefined` passes the checks but is not a list,
     * so the store refuses it.
     */
    method CreateNote(req: NoteRequest, dateParse: Json -> Option<int>, now: int) returns (res: Response)
      requires Valid()
      modifies this
      ensures Valid()
      ensures CreateError(req, dateParse).Some? ==>
        res == Response(400, ErrorMessage(CreateError(req, dateParse).value))
        && items == old(items) && tasks == old(tasks)
      ensures CreateError(req, dateParse).None? && !req.resources.Undefined? && !req.resources.Arr? ==>
        res.status == 500 && items == old(items) && tasks == old(tasks)
      ensures CreateError(req, dateParse).None? && (req.resources.Undefined? || req.resources.Arr?) ==>
        var id := old(nextItemId);
        var item := Item(id, req.topic.s, StringElems(req.goal),
                         if req.resources.Undefined? then [] else StringElems(req.resources),
                         dateParse(req.startDay).value, now);
        && id !in old(items)
        && items == old(items)[id := item]
        && res == Response(201, ItemPayload(item))
        && tasks == old(tasks) + TasksFrom(old(nextTaskId), FanOut(id))
        && old(tasks).Keys !! TasksFrom(old(nextTaskId), FanOut(id)).Keys
    {
      var error := CreateError(req, dateParse);
      if error.Some? {
        return Response(400, ErrorMessage(error.value));
      }
      if !req.resources.Undefined? && !req.resources.Arr? {
        return Response(500, ErrorMessage("Argument `resources` must be a list"));
      }
      var resources := if req.resources.Undefined? then [] else StringElems(req.resources);
      var id := nextItemId;
      var item := Item(id, req.topic.s, StringElems(req.goal), resources, dateParse(req.startDay).value, now);
      items := items[id := item];
      nextItemId := nextItemId + 1;
      var drafts := FanOut(id);
      var first := nextTaskId;
      FanOutTasks(first, id);
      var created := TasksFrom(first, drafts);
      assert tasks.Keys !! created.Keys;
      tasks := tasks + created;
      nextTaskId := first + |drafts|;
      res := Response(201, ItemPayload(item));
    }

    /** GET by id: 400 for a non-numeric id, 404 for an unknown one, else the item with its tasks. */
    method GetNoteById(id: Option<int>) returns (res: Response)
      requires Valid()
      ensures id.None? ==> res == Response(400, ErrorMessage(INVALID_ID))
      ensures id.Some? && id.value !in items ==> res == Response(404, ErrorMessage("Note not found"))
      ensures id.Some? && id.value in items ==>
        res.status == 200 && res.payload.NotePayload? && res.payload.item == items[id.value]
        && res.payload.reviews == TasksOf(id.value)
    {
      if id.None? {
        return Response(400, ErrorMessage(INVALID_ID));
      }
      if id.value !in items {
        return Response(404, ErrorMessage("Note not found"));
      }
      res := Response(200, NotePayload(items[id.value], TasksOf(id.value)));
    }

    /** PUT by id: build the updates field by field, stopping at the first invalid one, then write them. */
    method UpdateNote(id: Option<int>, req: NoteRequest, dateParse: Json -> Option<int>) returns (res: Response)
      requires Valid()
      modifies this
      ensures Valid() && tasks == old(tasks)
      ensures id.None? ==> res == Response(400, ErrorMessage(INVALID_ID)) && items == old(items)
      ensures id.Some? && UpdatesOf(req, dateParse).Err? ==>
        res == Response(400, ErrorMessage(UpdatesOf(req, dateParse).error)) && items == old(items)
      ensures id.Some? && UpdatesOf(req, dateParse).Ok? && id.value !in old(items) ==>
        res.status == 500 && items == old(items)
      ensures id.Some? && UpdatesOf(req, dateParse).Ok? && id.value in old(items) ==>
        var after := Apply(old(items)[id.value], UpdatesOf(req, dateParse).value);
        res == Response(200, ItemPayload(after)) && items == old(items)[id.value := after]
    {
      if id.None? {
        return Response(400, ErrorMessage(INVALID_ID));
      }
      var updates := Updates(None, None, None, None);
      if req.topic != Undefined {
        if !req.topic.Str? {
          return Response(400, ErrorMessage("Topic must be a string"));
        }
        updates := updates.(topic := Some(req.topic.s));
      }
      if req.goal != Undefined {
        if !IsStringArray(req.goal) {
          return Response(400, ErrorMessage("Goals must be an array of strings"));
        }
        updates := updates.(goal := Some(StringElems(req.goal)));
      }
      if req.resources != Undefined {
        if !IsStringArray(req.resources) {
          return Response(400, ErrorMessage("Resources must be an array of strings"));
        }
        updates := updates.(resources := Some(StringElems(req.resources)));
      }
      if req.startDay != Undefined {
        var parsed := dateParse(req.startDay);
        if parsed.None? {
          return Response(400, ErrorMessage("Invalid startDay"));
        }
        updates := updates.(startDay := Some(parsed.value));
      }
      assert updates == UpdatesOf(req, dateParse).value;
      if id.value !in items {
        return Response(500, ErrorMessage("Record to update not found."));
      }
      var after := Apply(items[id.value], updates);
      items := items[id.value := after];
      res := Response(200, ItemPayload(after));
    }

    /**
     * DELETE by id: first the item's tasks, then the item. The tasks are
     * gone even when the item turns out not to exist.
     */
    method DeleteNote(id: Option<int>) returns (res: Response)
      requires Valid()
      modifies this
      ensures Valid()
      ensures id.None? ==> res == Response(400, ErrorMessage(INVALID_ID)) && items == old(items) && tasks == old(tasks)
      ensures id.Some? ==>
        && tasks == WithoutTasksOf(old(tasks), id.value)
        && (id.value in old(items) ==> res == Response(204, Empty) && items == old(items) - {id.value})
        && (id.value !in old(items) ==> res.status == 500 && items == old(items))
    {
      if id.None? {
        return Response(400, ErrorMessage(INVALID_ID));
      }
      var target := id.value;
      DeleteOrder(items, tasks, target);
      tasks := WithoutTasksOf(tasks, target);
      if target !in items {
        return Response(500, ErrorMessage("Record to delete does not exist."));
      }
      items := items - {target};
      res := Response(204, Empty);
    }
  }
}
