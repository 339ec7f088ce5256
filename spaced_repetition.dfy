/**
 * The growing-interval scheduler. Every collection owns one review task that
 * walks through a fixed table of day gaps as reviews are completed, and can
 * be reset to the start of the table.
 */
module SpacedRepetition {
  import opened Wrappers
  import opened Time

  /** The gaps between reviews, in days. */
  const REVIEW_INTERVALS: seq<nat> := [1, 3, 7, 14, 30, 60, 90, 180, 365]

  /** The last position of the table; progress stops there. */
  const LAST_INDEX: nat := |REVIEW_INTERVALS| - 1

  /** The gap, in days, for table position `i`, clamped to the last entry. */
  function IntervalFor(i: nat): (days: nat)
    ensures days >= 1
    ensures i < |REVIEW_INTERVALS| ==> days == REVIEW_INTERVALS[i]
    ensures i >= LAST_INDEX ==> days == 365
  {
    REVIEW_INTERVALS[if i < LAST_INDEX then i else LAST_INDEX]
  }

  /** Later positions never give shorter gaps. */
  lemma IntervalsNonDecreasing(i: nat, j: nat)
    requires i <= j
    ensures IntervalFor(i) <= IntervalFor(j)
  {
  }

  /** Midnight `IntervalFor(i)` days after the day of `now`: the day after a review at position `i`. */
  function NextReviewDate(i: nat, now: int): (r: int)
    ensures r % DAY == 0
    ensures r - StartOfDay(now) == IntervalFor(i) * DAY
    ensures r > EndOfDay(now) > now - 1
  {
    StartOfDay(now) + IntervalFor(i) * DAY
  }

  /** The review schedule of one collection. */
  datatype Task = Task(
    id: int,
    collectionId: int,
    intervalIndex: nat,
    nextReview: int,
    lastReviewed: int,
    reviewCount: nat)

  /** Why a store operation failed. */
  datatype StoreError =
    | TaskNotFound       // thrown by completeReview itself, as "Review task not found"
    | RecordNotFound     // thrown by the store when an update names no record
    | UniqueViolation    // thrown by the store when a collection already has a task

  /** The first review task of a collection created at `now`. */
  function InitialTask(id: int, collectionId: int, now: int): Task
  {
    Task(id, collectionId, 0, StartOfDay(now) + DAY, StartOfDay(now), 0)
  }

  /** The task after its review is completed at `now`. */
  function Completed(t: Task, now: int): Task
  {
    var next := if t.intervalIndex + 1 < LAST_INDEX then t.intervalIndex + 1 else LAST_INDEX;
    t.(intervalIndex := next, nextReview := NextReviewDate(next, now),
       lastReviewed := now, reviewCount := t.reviewCount + 1)
  }

  /** The task after its progress is reset at `now`; the review count is kept. */
  function Reset(t: Task, now: int): Task
  {
    var tomorrow := StartOfDay(now) + DAY;
    t.(intervalIndex := 0, nextReview := tomorrow, lastReviewed := now)
  }

  /** A new task sits at position 0, is due at the first millisecond of tomorrow and counts no review. */
  lemma InitialTaskDueTomorrow(id: int, collectionId: int, now: int)
    ensures var t := InitialTask(id, collectionId, now);
      && t.intervalIndex == 0 && t.reviewCount == 0
      && t.nextReview == NextReviewDate(0, now) == EndOfDay(now) + 1
      && t.lastReviewed == StartOfDay(now) <= now
      && !(t.nextReview <= now) && t.nextReview <= now + 25 * 60 * 60 * 1000
  {
  }

  /** Completing moves one position forward (stopping at the last), counts one review and schedules from the new position. */
  lemma CompletedAdvances(t: Task, now: int)
    ensures var u := Completed(t, now);
      && u.intervalIndex == (if t.intervalIndex + 1 < LAST_INDEX then t.intervalIndex + 1 else LAST_INDEX)
      && u.reviewCount == t.reviewCount + 1
      && u.nextReview == NextReviewDate(u.intervalIndex, now) > now
      && u.lastReviewed == now
      && u.id == t.id && u.collectionId == t.collectionId
  {
  }

  /** The task after one completion per time in `nows`, in order. */
  function CompletedAll(t: Task, nows: seq<int>): Task
    decreases |nows|
  {
    if |nows| == 0 then t else CompletedAll(Completed(t, nows[0]), nows[1..])
  }

  /** n completions move the position n steps, capped at the last one, and count n reviews. */
  lemma {:induction false} CompletedAllProgress(t: Task, nows: seq<int>)
    ensures var u := CompletedAll(t, nows);
      && u.intervalIndex == (if |nows| == 0 then t.intervalIndex
                             else if t.intervalIndex + |nows| < LAST_INDEX then t.intervalIndex + |nows|
                             else LAST_INDEX)
      && u.reviewCount == t.reviewCount + |nows|
      && u.id == t.id && u.collectionId == t.collectionId
      && (|nows| > 0 ==>
            u.lastReviewed == nows[|nows| - 1]
            && u.nextReview == NextReviewDate(u.intervalIndex, nows[|nows| - 1]))
    decreases |nows|
  {
    if |nows| > 0 {
      CompletedAllProgress(Completed(t, nows[0]), nows[1..]);
    }
  }

  /** On the plateau every further completion keeps the last position and schedules 365 days out. */
  lemma CompletedPlateau(t: Task, nows: seq<int>)
    requires t.intervalIndex >= LAST_INDEX
    requires |nows| > 0
    ensures var u := CompletedAll(t, nows);
      && u.intervalIndex == LAST_INDEX
      && u.reviewCount == t.reviewCount + |nows|
      && u.nextReview == StartOfDay(nows[|nows| - 1]) + 365 * DAY
  {
    CompletedAllProgress(t, nows);
  }

  /** Eight or more completions from any start reach the plateau. */
  lemma CompletedReachesPlateau(t: Task, nows: seq<int>)
    requires |nows| >= LAST_INDEX
    ensures CompletedAll(t, nows).intervalIndex == LAST_INDEX
  {
    CompletedAllProgress(t, nows);
  }

  /** Reset goes back to position 0 and to tomorrow's midnight whatever the prior state, and keeps the count. */
  lemma ResetForgetsProgress(t: Task, t': Task, now: int)
    requires t.id == t'.id && t.collectionId == t'.collectionId
    ensures Reset(t, now).reviewCount == t.reviewCount
    ensures Reset(t, now) == Reset(t', now).(reviewCount := t.reviewCount)
    ensures Reset(t, now).nextReview == NextReviewDate(0, now) == EndOfDay(now) + 1
    ensures Reset(t, now).intervalIndex == 0 && Reset(t, now).lastReviewed == now
  {
  }

  /** After a reset the schedule continues as for a new task: the next completion lands on position 1. */
  lemma ResetThenCompleteLikeNew(t: Task, now: int, later: int)
    ensures var a := Completed(Reset(t, now), later);
            var b := Completed(InitialTask(t.id, t.collectionId, now), later);
      a.intervalIndex == b.intervalIndex == 1 && a.nextReview == b.nextReview
      && a.reviewCount == t.reviewCount + 1 && b.reviewCount == 1
  {
  }

  /** The owner of a collection, as the global due query selects it. */
  datatype User = User(id: int, email: string)

  /** A collection with the words it holds. */
  datatype Collection = Collection(id: int, name: string, owner: User, words: seq<string>)

  /** A collection together with its review task, as the due queries return it. */
  datatype DueCollection = DueCollection(collection: Collection, reviewTask: Task)

  /** Whether `c` passes a due filter: its task exists and is due by `cutoff`, and it belongs to `owner` when one is given. */
  predicate Selected(c: Collection, byCollection: map<int, Task>, cutoff: int, owner: Option<int>)
  {
    && (owner.Some? ==> c.owner.id == owner.value)
    && c.id in byCollection
    && byCollection[c.id].nextReview <= cutoff
  }

  /** No two collections share an id, as rows of the collection table do not. */
  predicate DistinctIds(cs: seq<Collection>)
  {
    forall i, j :: 0 <= i < j < |cs| ==> cs[i].id != cs[j].id
  }

  /** No collection appears twice in a due list. */
  predicate OncePerCollection(r: seq<DueCollection>)
  {
    forall i, j :: 0 <= i < j < |r| ==> r[i].collection.id != r[j].collection.id
  }

  /** The collections of `cs`, in order, that pass the filter, each joined with its task. */
  function DueCollections(cs: seq<Collection>, byCollection: map<int, Task>, cutoff: int, owner: Option<int>)
    : (r: seq<DueCollection>)
    ensures |r| <= |cs|
    ensures DistinctIds(cs) ==> OncePerCollection(r)
    ensures forall i :: 0 <= i < |r| ==>
      && r[i].collection in cs
      && Selected(r[i].collection, byCollection, cutoff, owner)
      && r[i].reviewTask == byCollection[r[i].collection.id]
    ensures forall c :: c in cs && Selected(c, byCollection, cutoff, owner) ==>
      DueCollection(c, byCollection[c.id]) in r
  {
    if |cs| == 0 then []
    else
      var rest := DueCollections(cs[1..], byCollection, cutoff, owner);
      var c := cs[0];
      if Selected(c, byCollection, cutoff, owner) then [DueCollection(c, byCollection[c.id])] + rest else rest
  }

  /** The per-user query: that user's collections whose task is due by the end of today. */
  function GetTodayDueCollections(cs: seq<Collection>, byCollection: map<int, Task>, userId: int, now: int)
    : (r: seq<DueCollection>)
    ensures forall d :: d in r ==>
      d.collection in cs && d.collection.owner.id == userId
      && d.collection.id in byCollection && d.reviewTask == byCollection[d.collection.id]
      && d.reviewTask.nextReview <= EndOfDay(now)
    ensures forall c ::
      (c in cs && c.owner.id == userId && c.id in byCollection
       && byCollection[c.id].nextReview <= EndOfDay(now)) ==> DueCollection(c, byCollection[c.id]) in r
    ensures DistinctIds(cs) ==> OncePerCollection(r)
  {
    DueCollections(cs, byCollection, EndOfDay(now), Some(userId))
  }

  /** The global query: every collection whose task is due by the end of today. */
  function GetAllDueCollections(cs: seq<Collection>, byCollection: map<int, Task>, now: int)
    : (r: seq<DueCollection>)
    ensures forall d :: d in r ==>
      d.collection in cs && d.collection.id in byCollection
      && d.reviewTask == byCollection[d.collection.id]
      && d.reviewTask.nextReview <= EndOfDay(now)
    ensures forall c ::
      (c in cs && c.id in byCollection
       && byCollection[c.id].nextReview <= EndOfDay(now)) ==> DueCollection(c, byCollection[c.id]) in r
    ensures DistinctIds(cs) ==> OncePerCollection(r)
  {
    DueCollections(cs, byCollection, EndOfDay(now), None)
  }

  /** A task completed or reset today is not due again today, and a reset one is due tomorrow. */
  lemma TransitionsLeaveTodaysQuery(t: Task, now: int)
    ensures Completed(t, now).nextReview > EndOfDay(now)
    ensures Reset(t, now).nextReview > EndOfDay(now)
    ensures Reset(t, now).nextReview <= EndOfDay(now + DAY)
  {
    StartOfDayShift(now, 1);
  }

  /** The task each indexed collection points at. */
  function Index(tasks: map<int, Task>, taskOfCollection: map<int, int>): map<int, Task>
    requires forall c :: c in taskOfCollection ==> taskOfCollection[c] in tasks
  {
    map c | c in taskOfCollection :: tasks[taskOfCollection[c]]
  }

  /** Storing a new task under a fresh id and indexing it under a new collection adds exactly that entry. */
  lemma IndexInsert(tasks: map<int, Task>, taskOfCollection: map<int, int>, c: int, t: Task)
    requires forall c' :: c' in taskOfCollection ==> taskOfCollection[c'] in tasks
    requires t.id !in tasks && c !in taskOfCollection
    ensures Index(tasks[t.id := t], taskOfCollection[c := t.id]) == Index(tasks, taskOfCollection)[c := t]
  {
    var before := Index(tasks, taskOfCollection);
    var after := Index(tasks[t.id := t], taskOfCollection[c := t.id]);
    forall c' | c' in after
      ensures c' in before[c := t] && after[c'] == before[c := t][c']
    {
      if c' != c {
        assert taskOfCollection[c'] != t.id;
      }
    }
  }

  /** The review-task table: tasks by id, and the unique index from collection to task id. */
  class ReviewStore {
    var tasks: map<int, Task>
    var taskOfCollection: map<int, int>
    var nextId: int

    ghost predicate Valid()
      reads this
    {
      && (forall id :: id in tasks ==> tasks[id].id == id && id < nextId)
      && (forall c :: c in taskOfCollection ==>
            taskOfCollection[c] in tasks && tasks[taskOfCollection[c]].collectionId == c)
      && (forall id :: id in tasks ==>
            tasks[id].collectionId in taskOfCollection && taskOfCollection[tasks[id].collectionId] == id)
    }

    constructor ()
      ensures Valid() && tasks == map[] && taskOfCollection == map[]
    {
      tasks, taskOfCollection, nextId := map[], map[], 1;
    }

    /** The task of each collection that has one, keyed by collection id. */
    function ByCollection(): (m: map<int, Task>)
      reads this
      requires Valid()
      ensures forall c :: c in m ==> m[c] in tasks.Values && m[c].collectionId == c
      ensures forall id :: id in tasks ==> tasks[id].collectionId in m && m[tasks[id].collectionId] == tasks[id]
    {
      Index(tasks, taskOfCollection)
    }

    /** Creates the first review task of a collection; a second task for the same collection is refused. */
    method CreateInitialReviewTask(collectionId: int, now: int) returns (r: Result<Task, StoreError>)
      requires Valid()
      modifies this
      ensures Valid()
      ensures collectionId in old(ByCollection()) ==>
        r == Err(UniqueViolation) && tasks == old(tasks) && taskOfCollection == old(taskOfCollection)
      ensures collectionId !in old(ByCollection()) ==>
        && r == Ok(InitialTask(old(nextId), collectionId, now))
        && r.value.id !in old(tasks)
        && tasks == old(tasks)[r.value.id := r.value]
        && ByCollection() == old(ByCollection())[collectionId := r.value]
    {
      if collectionId in taskOfCollection {
        return Err(UniqueViolation);
      }
      var t := InitialTask(nextId, collectionId, now);
      IndexInsert(tasks, taskOfCollection, collectionId, t);
      tasks := tasks[nextId := t];
      taskOfCollection := taskOfCollection[collectionId := nextId];
      nextId := nextId + 1;
      r := Ok(t);
    }

    /** Records a completed review of task `taskId` at `now`; no other task changes. */
    method CompleteReview(taskId: int, now: int) returns (r: Result<Task, StoreError>)
      requires Valid()
      modifies this
      ensures Valid()
      ensures taskOfCollection == old(taskOfCollection) && nextId == old(nextId)
      ensures taskId !in old(tasks) ==> r == Err(TaskNotFound) && tasks == old(tasks)
      ensures taskId in old(tasks) ==>
        r == Ok(Completed(old(tasks)[taskId], now)) && tasks == old(tasks)[taskId := r.value]
    {
      if taskId !in tasks {
        return Err(TaskNotFound);
      }
      var task := tasks[taskId];
      var updated := Completed(task, now);
      tasks := tasks[taskId := updated];
      r := Ok(updated);
    }

    /** Puts task `taskId` back at the start of the table at `now`; no other task changes. */
    method ResetReviewProgress(taskId: int, now: int) returns (r: Result<Task, StoreError>)
      requires Valid()
      modifies this
      ensures Valid()
      ensures taskOfCollection == old(taskOfCollection) && nextId == old(nextId)
      ensures taskId !in old(tasks) ==> r == Err(RecordNotFound) && tasks == old(tasks)
      ensures taskId in old(tasks) ==>
        r == Ok(Reset(old(tasks)[taskId], now)) && tasks == old(tasks)[taskId := r.value]
    {
      if taskId !in tasks {
        return Err(RecordNotFound);
      }
      var updated := Reset(tasks[taskId], now);
      tasks := tasks[taskId := updated];
      r := Ok(updated);
    }
  }
}
