/**
 * The daily notification: due collections are grouped by their owner's
 * email, one message per group is composed and sent in turn. The message is
 * modelled by the values it shows (counts, labels, word preview); its HTML
 * and the mail transport are not.
 */
module ReviewEmail {
  import opened Wrappers
  import opened Strings
  import SR = SpacedRepetition

  function EmailOf(d: SR.DueCollection): string
  {
    d.collection.owner.email
  }

  /** The emails of `cs`, each once, in the order they first appear. */
  function DistinctEmails(cs: seq<SR.DueCollection>): (r: seq<string>)
    ensures |r| <= |cs|
  {
    if |cs| == 0 then []
    else
      var p := DistinctEmails(cs[..|cs| - 1]);
      var e := EmailOf(cs[|cs| - 1]);
      if e in p then p else p + [e]
  }

  /** The collections of `cs` owned by `email`, in input order. */
  function GroupOf(cs: seq<SR.DueCollection>, email: string): (r: seq<SR.DueCollection>)
    ensures |r| <= |cs|
  {
    if |cs| == 0 then []
    else GroupOf(cs[..|cs| - 1], email) + (if EmailOf(cs[|cs| - 1]) == email then [cs[|cs| - 1]] else [])
  }

  /** An email is listed exactly when some collection of `cs` is owned by it, and it is listed once. */
  lemma {:induction false} DistinctEmailsMembers(cs: seq<SR.DueCollection>)
    ensures forall e :: e in DistinctEmails(cs) <==> exists d :: d in cs && EmailOf(d) == e
    ensures NoDuplicates(DistinctEmails(cs))
    decreases |cs|
  {
    if |cs| > 0 {
      var init := cs[..|cs| - 1];
      DistinctEmailsMembers(init);
      assert forall d :: d in cs <==> d in init || d == cs[|cs| - 1];
      var p := DistinctEmails(init);
      var e := EmailOf(cs[|cs| - 1]);
      if e !in p {
        assert DistinctEmails(cs) == p + [e];
        AppendKeepsDistinct(p, e);
      }
    }
  }

  /** No email is listed twice. */
  predicate NoDuplicates(s: seq<string>)
  {
    forall i, j :: 0 <= i < j < |s| ==> s[i] != s[j]
  }

  lemma AppendKeepsDistinct(p: seq<string>, e: string)
    requires NoDuplicates(p)
    requires e !in p
    ensures NoDuplicates(p + [e])
  {
    var r := p + [e];
    forall i, j | 0 <= i < j < |r| ensures r[i] != r[j] {
      if j == |p| {
        assert r[i] == p[i];
      } else {
        assert r[i] == p[i] && r[j] == p[j];
      }
    }
  }

  /** A group holds exactly the collections of its email. */
  lemma {:induction false} GroupOfMembers(cs: seq<SR.DueCollection>, email: string)
    ensures forall d :: d in GroupOf(cs, email) <==> d in cs && EmailOf(d) == email
    decreases |cs|
  {
    if |cs| > 0 {
      var init := cs[..|cs| - 1];
      GroupOfMembers(init, email);
      assert forall d :: d in cs <==> d in init || d == cs[|cs| - 1];
    }
  }

  /** Grouping lists each collection at most once when the input does. */
  lemma {:induction false} GroupKeepsOnce(cs: seq<SR.DueCollection>, email: string)
    requires SR.OncePerCollection(cs)
    ensures SR.OncePerCollection(GroupOf(cs, email))
    decreases |cs|
  {
    if |cs| > 0 {
      var init := cs[..|cs| - 1];
      var last := cs[|cs| - 1];
      assert forall i :: 0 <= i < |init| ==> init[i] == cs[i];
      GroupKeepsOnce(init, email);
      var g := GroupOf(init, email);
      if EmailOf(last) == email {
        GroupOfMembers(init, email);
        forall i | 0 <= i < |g|
          ensures g[i].collection.id != last.collection.id
        {
          assert g[i] in init;
          var k :| 0 <= k < |init| && init[k] == g[i];
          assert cs[k] == g[i];
        }
        assert GroupOf(cs, email) == g + [last];
      } else {
        assert GroupOf(cs, email) == g;
      }
    }
  }

  /** An email not yet met has an empty group so far. */
  lemma UnseenEmailHasNoGroup(cs: seq<SR.DueCollection>, email: string)
    requires email !in DistinctEmails(cs)
    ensures GroupOf(cs, email) == []
  {
    DistinctEmailsMembers(cs);
    GroupOfMembers(cs, email);
    if GroupOf(cs, email) != [] {
      assert GroupOf(cs, email)[0] in GroupOf(cs, email);
    }
  }

  /** One more collection of the input lists its email if it is new. */
  lemma DistinctStep(cs: seq<SR.DueCollection>, i: nat)
    requires i < |cs|
    ensures DistinctEmails(cs[..i + 1]) ==
      (if EmailOf(cs[i]) in DistinctEmails(cs[..i]) then DistinctEmails(cs[..i])
       else DistinctEmails(cs[..i]) + [EmailOf(cs[i])])
  {
    assert cs[..i + 1][..i] == cs[..i];
  }

  /** One more collection of the input grows its own email's group and no other. */
  lemma GroupStep(cs: seq<SR.DueCollection>, i: nat)
    requires i < |cs|
    ensures forall x :: GroupOf(cs[..i + 1], x) == GroupOf(cs[..i], x) + (if EmailOf(cs[i]) == x then [cs[i]] else [])
  {
    assert cs[..i + 1][..i] == cs[..i];
  }

  /** The dictionary the notifier builds: each listed email with its group. */
  function Groups(cs: seq<SR.DueCollection>): (m: map<string, seq<SR.DueCollection>>)
  {
    map e | e in DistinctEmails(cs) :: GroupOf(cs, e)
  }

  /** One more collection adds its email to the dictionary's keys. */
  lemma GroupsKeysStep(cs: seq<SR.DueCollection>, i: nat)
    requires i < |cs|
    ensures Groups(cs[..i + 1]).Keys == Groups(cs[..i]).Keys + {EmailOf(cs[i])}
  {
    DistinctStep(cs, i);
  }

  /** One more collection joins its own email's entry, which starts empty when the email is new; other entries keep their value. */
  lemma GroupsValueStep(cs: seq<SR.DueCollection>, i: nat, x: string)
    requires i < |cs|
    requires x in Groups(cs[..i + 1])
    ensures var p, e := Groups(cs[..i]), EmailOf(cs[i]);
      && (x != e ==> x in p)
      && Groups(cs[..i + 1])[x] == if x == e then (if e in p then p[e] else []) + [cs[i]] else p[x]
  {
    var e := EmailOf(cs[i]);
    GroupsKeysStep(cs, i);
    GroupStep(cs, i);
    if x == e {
      if e !in DistinctEmails(cs[..i]) {
        UnseenEmailHasNoGroup(cs[..i], e);
      }
    } else {
      assert GroupOf(cs[..i + 1], x) == GroupOf(cs[..i], x) + [];
    }
  }

  /** One more collection appends it to its email's entry, creating the entry when the email is new. */
  lemma GroupsStep(cs: seq<SR.DueCollection>, i: nat)
    requires i < |cs|
    ensures var p, e := Groups(cs[..i]), EmailOf(cs[i]);
      Groups(cs[..i + 1]) == p[e := (if e in p then p[e] else []) + [cs[i]]]
  {
    var e := EmailOf(cs[i]);
    var p := Groups(cs[..i]);
    var q := p[e := (if e in p then p[e] else []) + [cs[i]]];
    GroupsKeysStep(cs, i);
    forall x | x in q
      ensures Groups(cs[..i + 1])[x] == q[x]
    {
      GroupsValueStep(cs, i, x);
    }
  }

  /** One turn of the grouping loop: a new email is listed with an empty entry, then the collection joins its entry. */
  lemma GroupByEmailStep(cs: seq<SR.DueCollection>, i: nat, emails: seq<string>, groups: map<string, seq<SR.DueCollection>>)
    requires i < |cs|
    requires emails == DistinctEmails(cs[..i]) && groups == Groups(cs[..i])
    ensures var e := EmailOf(cs[i]);
      var g := if e !in groups then groups[e := []] else groups;
      && DistinctEmails(cs[..i + 1]) == (if e !in groups then emails + [e] else emails)
      && Groups(cs[..i + 1]) == g[e := g[e] + [cs[i]]]
  {
    DistinctStep(cs, i);
    GroupsStep(cs, i);
  }

  /** Builds the per-email dictionary, keeping the order in which emails were first met. */
  method GroupByEmail(cs: seq<SR.DueCollection>) returns (emails: seq<string>, groups: map<string, seq<SR.DueCollection>>)
    ensures emails == DistinctEmails(cs)
    ensures groups == Groups(cs)
  {
    emails, groups := [], map[];
    var i := 0;
    while i < |cs|
      invariant 0 <= i <= |cs|
      invariant emails == DistinctEmails(cs[..i])
      invariant groups == Groups(cs[..i])
    {
      var d := cs[i];
      var e := d.collection.owner.email;
      GroupByEmailStep(cs, i, emails, groups);
      if e !in groups {
        groups := groups[e := []];
        emails := emails + [e];
      }
      groups := groups[e := groups[e] + [d]];
      i := i + 1;
    }
    assert cs[..|cs|] == cs;
  }

  /** The total size of the groups of `emails`. */
  function GroupSizes(cs: seq<SR.DueCollection>, emails: seq<string>): nat
  {
    if |emails| == 0 then 0
    else GroupSizes(cs, emails[..|emails| - 1]) + |GroupOf(cs, emails[|emails| - 1])|
  }

  /** Appending a collection grows exactly one group among distinct emails, if its email is listed. */
  lemma {:induction false} GroupSizesAppend(p: seq<SR.DueCollection>, d: SR.DueCollection, emails: seq<string>)
    requires NoDuplicates(emails)
    ensures GroupSizes(p + [d], emails) == GroupSizes(p, emails) + (if EmailOf(d) in emails then 1 else 0)
    decreases |emails|
  {
    if |emails| > 0 {
      var init := emails[..|emails| - 1];
      GroupSizesAppend(p, d, init);
      assert (p + [d])[..|p|] == p;
      assert EmailOf(d) in emails <==> EmailOf(d) in init || EmailOf(d) == emails[|emails| - 1];
      assert emails[|emails| - 1] !in init;
    }
  }

  /** The groups partition the input: their sizes add up to the number of collections. */
  lemma {:induction false} GroupsPartition(cs: seq<SR.DueCollection>)
    ensures GroupSizes(cs, DistinctEmails(cs)) == |cs|
    decreases |cs|
  {
    if |cs| > 0 {
      var p := cs[..|cs| - 1];
      var d := cs[|cs| - 1];
      assert cs == p + [d];
      GroupsPartition(p);
      var dp := DistinctEmails(p);
      DistinctEmailsMembers(p);
      GroupSizesAppend(p, d, dp);
      if EmailOf(d) !in dp {
        UnseenEmailHasNoGroup(p, EmailOf(d));
        assert (dp + [EmailOf(d)])[..|dp|] == dp;
      }
    }
  }

  /** Each collection lies in exactly one group: the one of its owner's email. */
  lemma EachCollectionInOneGroup(cs: seq<SR.DueCollection>, d: SR.DueCollection, email: string)
    requires d in cs
    ensures EmailOf(d) in DistinctEmails(cs)
    ensures d in GroupOf(cs, email) <==> email == EmailOf(d)
  {
    DistinctEmailsMembers(cs);
    GroupOfMembers(cs, email);
  }

  /** There is one group per distinct email. */
  lemma GroupCount(cs: seq<SR.DueCollection>)
    ensures |DistinctEmails(cs)| == |set d | d in cs :: EmailOf(d)|
  {
    var r := DistinctEmails(cs);
    DistinctEmailsMembers(cs);
    DistinctCardinality(r);
    assert (set e | e in r) == (set d | d in cs :: EmailOf(d));
  }

  lemma {:induction false} DistinctCardinality(s: seq<string>)
    requires NoDuplicates(s)
    ensures |set e | e in s| == |s|
    decreases |s|
  {
    if |s| > 0 {
      var init := s[..|s| - 1];
      DistinctCardinality(init);
      assert (set e | e in s) == (set e | e in init) + {s[|s| - 1]};
      assert s[|s| - 1] !in init;
    }
  }

  /** `${n} ${noun}` with an "s" unless n is 1. */
  function CountLabel(n: nat, noun: string): string
  {
    NatToString(n) + " " + noun + (if n != 1 then "s" else "")
  }

  /** The singular is used exactly when the count is 1. */
  lemma CountLabelSingularIff(n: nat, noun: string)
    ensures CountLabel(n, noun) == NatToString(n) + " " + noun <==> n == 1
  {
    if n != 1 {
      assert |CountLabel(n, noun)| == |NatToString(n) + " " + noun| + 1;
    }
  }

  /** The label of the review to come: one more than the reviews done. */
  function ReviewNumber(reviewCount: nat): string
  {
    "Review #" + NatToString(reviewCount + 1)
  }

  /** The number in the label reads back as the review count plus one. */
  lemma ReviewNumberReadsBack(reviewCount: nat)
    ensures var s := ReviewNumber(reviewCount);
      |s| > 8 && s[..8] == "Review #"
      && (forall i :: 8 <= i < |s| ==> '0' <= s[i] <= '9')
      && DigitsValue(s[8..]) == reviewCount + 1
  {
    var s := ReviewNumber(reviewCount);
    assert s[8..] == NatToString(reviewCount + 1);
    NatToStringRoundTrip(reviewCount + 1);
  }

  /** The first three words joined by ", ", then " and N more" for the N words left out. */
  function WordPreview(words: seq<string>): string
  {
    var shown := if |words| <= 3 then words else words[..3];
    Join(shown, ", ") + (if |words| > 3 then " and " + NatToString(|words| - 3) + " more" else "")
  }

  /** Up to three words the preview lists them all; beyond, it lists three and a count that reads back as the rest. */
  lemma WordPreviewAccountsForAll(words: seq<string>)
    ensures |words| <= 3 ==> WordPreview(words) == Join(words, ", ")
    ensures |words| > 3 ==>
      var k := NatToString(|words| - 3);
      && WordPreview(words) == Join(words[..3], ", ") + (" and " + k + " more")
      && 3 + DigitsValue(k) == |words|
  {
    if |words| > 3 {
      NatToStringRoundTrip(|words| - 3);
    }
  }

  /** What the message shows for one collection. */
  datatype CollectionSummary = CollectionSummary(
    collectionId: int, name: string, wordCount: string, reviewNumber: string, wordPreview: string)

  /** What one user's message shows. */
  datatype Message = Message(to: string, collectionCount: string, collections: seq<CollectionSummary>)

  /** The messages sent, in order, and the email whose send threw, if one did. */
  datatype SendOutcome = SendOutcome(sent: seq<Message>, failure: Option<string>)

  function Summarize(d: SR.DueCollection): CollectionSummary
  {
    var words := d.collection.words;
    CollectionSummary(d.collection.id, d.collection.name, CountLabel(|words|, "word"),
                      ReviewNumber(d.reviewTask.reviewCount), WordPreview(words))
  }

  /** The message to `email` about `group`. */
  function Compose(email: string, group: seq<SR.DueCollection>): Message
  {
    Message(email, CountLabel(|group|, "collection"), seq(|group|, i requires 0 <= i < |group| => Summarize(group[i])))
  }

  /**
   * The message to `email` about the due collections `cs`: it goes to that
   * address, counts that address's collections, and summarises exactly those
   * collections, in input order, each with its review number. When the due
   * list names each collection once, so does the message, and the count is
   * a count of distinct collections.
   */
  lemma ComposeShowsGroup(cs: seq<SR.DueCollection>, email: string)
    ensures var g := GroupOf(cs, email);
      var m := Compose(email, g);
      && m.to == email
      && m.collectionCount == CountLabel(|g|, "collection")
      && |m.collections| == |g|
      && (forall i :: 0 <= i < |g| ==>
            && m.collections[i] == Summarize(g[i])
            && m.collections[i].collectionId == g[i].collection.id
            && m.collections[i].reviewNumber == ReviewNumber(g[i].reviewTask.reviewCount))
      && (forall d :: (d in cs && EmailOf(d) == email) <==>
            exists i :: 0 <= i < |m.collections| && g[i] == d)
      && (SR.OncePerCollection(cs) ==>
            forall i, j :: 0 <= i < j < |m.collections| ==> m.collections[i].collectionId != m.collections[j].collectionId)
  {
    GroupOfMembers(cs, email);
    if SR.OncePerCollection(cs) {
      GroupKeepsOnce(cs, email);
    }
  }

  /**
   * Groups `cs` and sends one message per group, in order of first
   * appearance; a send to an address in `failing` throws, which ends the run.
   */
  method SendDailyReviewEmail(cs: seq<SR.DueCollection>, failing: set<string>) returns (outcome: SendOutcome)
    ensures var keys := DistinctEmails(cs);
      && |outcome.sent| <= |keys|
      && (forall i :: 0 <= i < |outcome.sent| ==>
            keys[i] !in failing && outcome.sent[i] == Compose(keys[i], GroupOf(cs, keys[i])))
      && (outcome.failure.None? <==> |outcome.sent| == |keys|)
      && (outcome.failure.Some? ==>
            keys[|outcome.sent|] in failing && outcome.failure.value == keys[|outcome.sent|])
  {
    var emails, groups := GroupByEmail(cs);
    var sent: seq<Message> := [];
    var i := 0;
    while i < |emails|
      invariant 0 <= i <= |emails| && |sent| == i
      invariant forall k :: 0 <= k < i ==>
        emails[k] !in failing && sent[k] == Compose(emails[k], GroupOf(cs, emails[k]))
    {
      var email := emails[i];
      if email in failing {
        outcome := SendOutcome(sent, Some(email));
        return;
      }
      assert email in Groups(cs);
      var message := Compose(email, groups[email]);
      sent := sent + [message];
      i := i + 1;
    }
    outcome := SendOutcome(sent, None);
  }
}
