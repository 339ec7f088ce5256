/**
 * The older "learning item" flavour of reviews: each item carries a fixed
 * list of review tasks, and today's tasks are those of the items whose start
 * day falls in the current UTC day, flattened in order.
 */
module ReviewTasks {
  import opened Time

  /** A learning item as stored. */
  datatype Item = Item(
    id: int, topic: string, goal: seq<string>, resources: seq<string>, startDay: int, createdAt: int)

  /** A review task at a fixed day offset from its item's start. */
  datatype FixedTask = FixedTask(id: int, intervalDay: int, itemId: int)

  /** An item loaded together with its review tasks. */
  datatype ItemWithReviews = ItemWithReviews(item: Item, reviews: seq<FixedTask>)

  /** A review task with a copy of its item. */
  datatype TaskWithItem = TaskWithItem(id: int, intervalDay: int, itemId: int, item: Item)

  /** The window of the query: from 00:00 of the UTC day of `now` up to, but excluding, 23:59:59.999. */
  predicate InTodayWindow(startDay: int, now: int)
  {
    StartOfDay(now) <= startDay < EndOfDay(now)
  }

  /** The window holds midnight and leaves out the day's last millisecond; everything in it is on today's date. */
  lemma WindowBounds(now: int)
    ensures InTodayWindow(StartOfDay(now), now)
    ensures !InTodayWindow(EndOfDay(now), now)
    ensures forall t :: InTodayWindow(t, now) ==> StartOfDay(t) == StartOfDay(now)
  {
    forall t | InTodayWindow(t, now) ensures StartOfDay(t) == StartOfDay(now) {
      MidnightIsUnique(t, StartOfDay(now));
    }
  }

  /** The items of `items`, in order, whose start day is in today's window. */
  function SelectToday(items: seq<ItemWithReviews>, now: int): (r: seq<ItemWithReviews>)
    ensures forall x :: x in r <==> x in items && InTodayWindow(x.item.startDay, now)
  {
    if |items| == 0 then []
    else
      var last := items[|items| - 1];
      assert forall x :: x in items <==> x in items[..|items| - 1] || x == last;
      SelectToday(items[..|items| - 1], now) + (if InTodayWindow(last.item.startDay, now) then [last] else [])
  }

  /** One output task: the review's own fields and a copy of its item. */
  function WithItem(review: FixedTask, item: Item): TaskWithItem
  {
    TaskWithItem(review.id, review.intervalDay, review.itemId, item)
  }

  function ReviewsOf(x: ItemWithReviews): (r: seq<TaskWithItem>)
    ensures |r| == |x.reviews|
    ensures forall j :: 0 <= j < |r| ==> r[j] == WithItem(x.reviews[j], x.item)
  {
    seq(|x.reviews|, j requires 0 <= j < |x.reviews| => WithItem(x.reviews[j], x.item))
  }

  /** The reviews of every item, item after item. */
  function Flatten(items: seq<ItemWithReviews>): seq<TaskWithItem>
  {
    if |items| == 0 then [] else ReviewsOf(items[0]) + Flatten(items[1..])
  }

  /** The number of reviews of all items together. */
  function TotalReviews(items: seq<ItemWithReviews>): nat
  {
    if |items| == 0 then 0 else |items[0].reviews| + TotalReviews(items[1..])
  }

  /** Today's tasks: the reviews of today's items, flattened. */
  function GetTodayReviewTasks(items: seq<ItemWithReviews>, now: int): seq<TaskWithItem>
  {
    Flatten(SelectToday(items, now))
  }

  /** The flattened list is as long as all review lists together. */
  lemma {:induction false} FlattenLength(items: seq<ItemWithReviews>)
    ensures |Flatten(items)| == TotalReviews(items)
  {
    if |items| > 0 {
      FlattenLength(items[1..]);
    }
  }

  /** Review `b` of item `a` sits right after the reviews of the items before `a`. */
  lemma {:induction false} FlattenAt(items: seq<ItemWithReviews>, a: nat, b: nat)
    requires a < |items| && b < |items[a].reviews|
    ensures TotalReviews(items[..a]) + b < |Flatten(items)|
    ensures Flatten(items)[TotalReviews(items[..a]) + b] == WithItem(items[a].reviews[b], items[a].item)
  {
    FlattenLength(items);
    if a == 0 {
      assert items[..0] == [];
    } else {
      FlattenAt(items[1..], a - 1, b);
      assert items[1..][..a - 1] == items[..a][1..];
      assert items[..a][0] == items[0];
    }
  }

  /** Every output task is a review of one of the items and carries that item, so its item id is the parent's. */
  lemma {:induction false} FlattenFromParents(items: seq<ItemWithReviews>)
    ensures forall t :: t in Flatten(items) ==>
      exists x :: x in items && t.item == x.item && FixedTask(t.id, t.intervalDay, t.itemId) in x.reviews
  {
    if |items| > 0 {
      FlattenFromParents(items[1..]);
      forall t | t in Flatten(items)
        ensures exists x :: x in items && t.item == x.item && FixedTask(t.id, t.intervalDay, t.itemId) in x.reviews
      {
        if t in ReviewsOf(items[0]) {
          var j :| 0 <= j < |items[0].reviews| && ReviewsOf(items[0])[j] == t;
          assert FixedTask(t.id, t.intervalDay, t.itemId) == items[0].reviews[j];
        } else {
          var x :| x in items[1..] && t.item == x.item && FixedTask(t.id, t.intervalDay, t.itemId) in x.reviews;
          assert x in items;
        }
      }
    }
  }

  /** Flattening one more item appends its reviews. */
  lemma {:induction false} FlattenAppend(items: seq<ItemWithReviews>, x: ItemWithReviews)
    ensures Flatten(items + [x]) == Flatten(items) + ReviewsOf(x)
  {
    if |items| == 0 {
      assert [x][1..] == [];
    } else {
      assert (items + [x])[1..] == items[1..] + [x];
      FlattenAppend(items[1..], x);
    }
  }

  /** Selecting from one more item keeps the earlier choices and adds the new item exactly when it starts today. */
  lemma SelectTodayAppend(items: seq<ItemWithReviews>, x: ItemWithReviews, now: int)
    ensures SelectToday(items + [x], now)
      == SelectToday(items, now) + (if InTodayWindow(x.item.startDay, now) then [x] else [])
  {
    assert (items + [x])[..|items|] == items;
  }

  /** An item with no reviews, or one outside today's window, adds nothing to today's tasks. */
  lemma ExtraItemContributes(items: seq<ItemWithReviews>, x: ItemWithReviews, now: int)
    ensures GetTodayReviewTasks(items + [x], now)
      == GetTodayReviewTasks(items, now) + (if InTodayWindow(x.item.startDay, now) then ReviewsOf(x) else [])
    ensures x.reviews == [] || !InTodayWindow(x.item.startDay, now) ==>
      GetTodayReviewTasks(items + [x], now) == GetTodayReviewTasks(items, now)
  {
    SelectTodayAppend(items, x, now);
    if InTodayWindow(x.item.startDay, now) {
      FlattenAppend(SelectToday(items, now), x);
    } else {
      assert SelectToday(items, now) + [] == SelectToday(items, now);
    }
  }
}
