/**
 * The older scheduler that the "review today" endpoint uses: a shorter
 * table without the 180-day step, a due cutoff at the start of today, and a
 * next date that keeps the time of day.
 */
module ReviewService {
  import opened Wrappers
  import opened Time
  import SR = SpacedRepetition

  /** The gaps between reviews, in days. */
  const INTERVALS: seq<nat> := [1, 3, 7, 14, 30, 60, 90, 365]

  /** The gap, in days, for position `i`, clamped to the last entry. */
  function IntervalFor(i: nat): (days: nat)
    ensures days >= 1
    ensures i < |INTERVALS| ==> days == INTERVALS[i]
    ensures i >= |INTERVALS| - 1 ==> days == 365
  {
    INTERVALS[if i < |INTERVALS| - 1 then i else |INTERVALS| - 1]
  }

  /** `now` plus `IntervalFor(i)` days, at the same time of day as `now`. */
  function NextReviewDate(i: nat, now: int): (r: int)
    ensures r > now
    ensures r % DAY == now % DAY
    ensures (r - now) / DAY == IntervalFor(i) && (r - now) % DAY == 0
  {
    now + IntervalFor(i) * DAY
  }

  /** The user's collections whose task is due by midnight at the start of today. */
  function GetTodayDueCollections(cs: seq<SR.Collection>, byCollection: map<int, SR.Task>, userId: int, now: int)
    : (r: seq<SR.DueCollection>)
    ensures forall d :: d in r ==>
      d.collection in cs && d.collection.owner.id == userId
      && d.collection.id in byCollection && d.reviewTask == byCollection[d.collection.id]
      && d.reviewTask.nextReview <= StartOfDay(now)
    ensures forall c ::
      (c in cs && c.owner.id == userId && c.id in byCollection
       && byCollection[c.id].nextReview <= StartOfDay(now)) ==> SR.DueCollection(c, byCollection[c.id]) in r
    ensures SR.DistinctIds(cs) ==> SR.OncePerCollection(r)
  {
    SR.DueCollections(cs, byCollection, StartOfDay(now), Some(userId))
  }

  /** The two tables agree everywhere except position 7. */
  lemma TablesAgreeExceptSeven(i: nat)
    ensures i != 7 <==> IntervalFor(i) == SR.IntervalFor(i)
  {
    if i >= 8 {
    } else if i != 7 {
      assert INTERVALS[..7] == SR.REVIEW_INTERVALS[..7];
      assert INTERVALS[i] == INTERVALS[..7][i];
    }
  }

  /** At position 7 the older table jumps to 365 days where the newer one gives 180. */
  lemma TablesDifferAtSeven()
    ensures IntervalFor(7) == 365 && SR.IntervalFor(7) == 180
  {
  }

  /** Where the tables agree, the older next date is the newer one shifted by the time of day of `now`. */
  lemma NextDatesDifferByTimeOfDay(i: nat, now: int)
    requires i != 7
    ensures NextReviewDate(i, now) == SR.NextReviewDate(i, now) + now % DAY
    ensures NextReviewDate(i, now) == SR.NextReviewDate(i, now) <==> now % DAY == 0
  {
    TablesAgreeExceptSeven(i);
  }

  /** Everything the older per-user query returns, the newer one returns too. */
  lemma OlderQueryIsNarrower(cs: seq<SR.Collection>, byCollection: map<int, SR.Task>, userId: int, now: int)
    ensures forall d :: d in GetTodayDueCollections(cs, byCollection, userId, now) ==>
      d in SR.GetTodayDueCollections(cs, byCollection, userId, now)
  {
    forall d | d in GetTodayDueCollections(cs, byCollection, userId, now)
      ensures d in SR.GetTodayDueCollections(cs, byCollection, userId, now)
    {
      assert StartOfDay(now) <= EndOfDay(now);
    }
  }

  /** A task due later today, after midnight, is in the newer query and not in the older one. */
  lemma DueLaterTodayOnlyInNewer(cs: seq<SR.Collection>, byCollection: map<int, SR.Task>, c: SR.Collection, now: int)
    requires c in cs && c.id in byCollection
    requires StartOfDay(now) < byCollection[c.id].nextReview <= EndOfDay(now)
    ensures SR.DueCollection(c, byCollection[c.id]) in SR.GetTodayDueCollections(cs, byCollection, c.owner.id, now)
    ensures SR.DueCollection(c, byCollection[c.id]) !in GetTodayDueCollections(cs, byCollection, c.owner.id, now)
  {
  }

  /** A task created today is left out of the older query today and picked up by it tomorrow. */
  lemma FreshTaskNotDueToday(id: int, collectionId: int, now: int)
    ensures !(SR.InitialTask(id, collectionId, now).nextReview <= StartOfDay(now))
    ensures SR.InitialTask(id, collectionId, now).nextReview <= StartOfDay(now + DAY)
  {
    StartOfDayShift(now, 1);
  }
}
