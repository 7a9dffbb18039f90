/** Merging the same snapshot twice. */
module ConversationRepeat {
  import opened Wrappers
  import opened Conversation
  import opened ConversationLaws

  /** The last update for an identity. */
  function LastFor(updates: seq<Update>, identity: Identity): (last: Option<Update>)
    ensures last.Some? ==> Target(last.value) == identity
  {
    if updates == [] then None
    else
      var n := |updates| - 1;
      if Target(updates[n]) == identity then Some(updates[n]) else LastFor(updates[..n], identity)
  }

  predicate AllPresent(items: seq<Item>, updates: seq<Update>) {
    forall k :: 0 <= k < |updates| ==> First(items, Target(updates[k])) < |items|
  }

  /** What the updates make of the item at `i`, if none of them adds an item. */
  function Revised(items: seq<Item>, updates: seq<Update>, i: nat): (item: Item)
    requires i < |items|
    ensures IdentityOf(item) == IdentityOf(items[i])
  {
    var identity := IdentityOf(items[i]);
    var last := LastFor(updates, identity);
    if First(items, identity) == i && last.Some? then Made(last.value, KeyOf(items[i])) else items[i]
  }

  function Overlay(items: seq<Item>, updates: seq<Update>): (overlaid: seq<Item>)
    ensures |overlaid| == |items|
    ensures forall i :: 0 <= i < |items| ==> overlaid[i] == Revised(items, updates, i)
  {
    seq(|items|, i requires 0 <= i < |items| => Revised(items, updates, i))
  }

  predicate SameIdentities(a: seq<Item>, b: seq<Item>) {
    |a| <= |b| && forall i :: 0 <= i < |a| ==> IdentityOf(a[i]) == IdentityOf(b[i])
  }

  lemma FirstIsStable(a: seq<Item>, b: seq<Item>, identity: Identity)
    requires SameIdentities(a, b)
    ensures First(a, identity) < |a| ==> First(b, identity) == First(a, identity)
    ensures First(b, identity) < |a| ==> First(a, identity) == First(b, identity)
  {
    var i, j := First(a, identity), First(b, identity);
    if i < |a| {
      assert IdentityOf(b[i]) == identity;
    }
    if j < |a| {
      assert IdentityOf(a[j]) == identity;
    }
  }

  lemma LastForPush(updates: seq<Update>, identity: Identity)
    requires updates != []
    ensures var n := |updates| - 1;
            LastFor(updates, identity)
            == if Target(updates[n]) == identity then Some(updates[n]) else LastFor(updates[..n], identity)
  {
  }

  /** Where every update finds its item, the last update for each item is what counts. */
  lemma {:induction false} AppliedOverlays(items: seq<Item>, next: nat, updates: seq<Update>)
    requires AllPresent(items, updates)
    ensures Applied(Listing(items, next), updates) == Listing(Overlay(items, updates), next)
  {
    if updates == [] {
      assert Overlay(items, updates) == items;
    } else {
      var n := |updates| - 1;
      AppliedOverlays(items, next, updates[..n]);
      OverlayPush(items, updates, next);
    }
  }

  lemma OverlayPush(items: seq<Item>, updates: seq<Update>, next: nat)
    requires updates != [] && AllPresent(items, updates)
    ensures var n := |updates| - 1;
            Upsert(Listing(Overlay(items, updates[..n]), next), updates[n]) == Listing(Overlay(items, updates), next)
  {
    var n := |updates| - 1;
    var before, after := Overlay(items, updates[..n]), Overlay(items, updates);
    var target := Target(updates[n]);
    var p := First(items, target);
    FirstIsStable(items, before, target);
    assert First(before, target) == p < |items|;
    var revised := before[p := Made(updates[n], KeyOf(before[p]))];
    forall i | 0 <= i < |items| ensures revised[i] == after[i] {
      LastForPush(updates, IdentityOf(items[i]));
      if i == p {
        MadeAgain(items[p], before[p], updates[n]);
      } else if IdentityOf(items[i]) == target {
        assert First(items, target) != i;
      }
    }
    assert revised == after;
  }

  /** An item and its revision give an update the same key. */
  lemma MadeAgain(item: Item, revision: Item, update: Update)
    requires IdentityOf(item) == IdentityOf(revision) == Target(update)
    requires revision == item || exists u: Update :: Target(u) == Target(update) && revision == Made(u, KeyOf(item))
    ensures Made(update, KeyOf(item)) == Made(update, KeyOf(revision))
  {
  }

  /** An update revises the item at `i` if that is the first of its identity, and only then. */
  lemma RevisedOnceMore(items: seq<Item>, listing: Listing, updates: seq<Update>, i: nat)
    requires updates != [] && i < |items| && SameIdentities(items, listing.items)
    requires listing.items[i] == Revised(items, updates[..|updates| - 1], i)
    ensures Upsert(listing, updates[|updates| - 1]).items[i] == Revised(items, updates, i)
  {
    var update := updates[|updates| - 1];
    FirstIsStable(items, listing.items, Target(update));
    LastForPush(updates, IdentityOf(items[i]));
    if First(listing.items, Target(update)) == i {
      MadeAgain(items[i], listing.items[i], update);
    }
  }

  /** Whatever the updates add, an item already there is as the last update for it has it if it is
      the first of its identity, and unchanged otherwise. */
  lemma {:induction false} AppliedRevises(listing: Listing, updates: seq<Update>, i: nat)
    requires i < |listing.items|
    ensures i < |Applied(listing, updates).items|
    ensures Applied(listing, updates).items[i] == Revised(listing.items, updates, i)
  {
    if updates != [] {
      var n := |updates| - 1;
      AppliedRevises(listing, updates[..n], i);
      AppliedExtends(listing, updates[..n]);
      RevisedOnceMore(listing.items, Applied(listing, updates[..n]), updates, i);
    }
  }

  /** Every update has its item, and the first item of each identity is as its last update has it. */
  predicate Settled(items: seq<Item>, updates: seq<Update>) {
    AllPresent(items, updates) && forall i :: 0 <= i < |items| ==> Revised(items, updates, i) == items[i]
  }

  lemma {:induction false} AppliedSettles(listing: Listing, updates: seq<Update>)
    ensures Settled(Applied(listing, updates).items, updates)
  {
    if updates != [] {
      var n := |updates| - 1;
      AppliedSettles(listing, updates[..n]);
      UpsertSettles(Applied(listing, updates[..n]), updates);
    }
  }

  lemma MadeKey(update: Update, key: nat)
    ensures Made(update, KeyOf(Made(update, key))) == Made(update, key)
  {
  }

  /** An upsert leaves its item first of its identity and moves no other. */
  lemma UpsertPlaces(listing: Listing, update: Update)
    ensures var before, after := listing.items, Upsert(listing, update).items;
            var p := First(before, Target(update));
            && SameIdentities(before, after)
            && p < |after| && First(after, Target(update)) == p
            && Made(update, KeyOf(after[p])) == after[p]
            && forall i :: 0 <= i < |after| && i != p ==> i < |before| && after[i] == before[i]
  {
    var before, after := listing.items, Upsert(listing, update).items;
    var p := First(before, Target(update));
    assert SameIdentities(before, after);
    FirstIsStable(before, after, Target(update));
    assert IdentityOf(after[p]) == Target(update);
    MadeKey(update, if p < |before| then KeyOf(before[p]) else listing.next);
  }

  lemma UpsertSettles(listing: Listing, updates: seq<Update>)
    requires updates != [] && Settled(listing.items, updates[..|updates| - 1])
    ensures Settled(Upsert(listing, updates[|updates| - 1]).items, updates)
  {
    var n := |updates| - 1;
    var before, after := listing.items, Upsert(listing, updates[n]).items;
    UpsertPlaces(listing, updates[n]);
    forall k | 0 <= k < |updates| ensures First(after, Target(updates[k])) < |after| {
      if k < n {
        assert First(before, Target(updates[..n][k])) < |before|;
        FirstIsStable(before, after, Target(updates[k]));
      }
    }
    forall i | 0 <= i < |after| ensures Revised(after, updates, i) == after[i] {
      StaysRevised(before, after, updates, i);
    }
  }

  lemma StaysRevised(before: seq<Item>, after: seq<Item>, updates: seq<Update>, i: nat)
    requires updates != [] && i < |after| && SameIdentities(before, after)
    requires var update := updates[|updates| - 1];
             && First(after, Target(update)) == First(before, Target(update)) < |after|
             && Made(update, KeyOf(after[First(before, Target(update))])) == after[First(before, Target(update))]
             && (i != First(before, Target(update)) ==>
                  && i < |before| && after[i] == before[i]
                  && Revised(before, updates[..|updates| - 1], i) == before[i])
    ensures Revised(after, updates, i) == after[i]
  {
    LastForPush(updates, IdentityOf(after[i]));
    if i < |before| {
      FirstIsStable(before, after, IdentityOf(after[i]));
    }
  }

  /** Applying the same updates again changes nothing. */
  lemma AppliedAgain(listing: Listing, updates: seq<Update>)
    ensures Applied(Applied(listing, updates), updates) == Applied(listing, updates)
  {
    var once := Applied(listing, updates);
    AppliedSettles(listing, updates);
    AppliedOverlays(once.items, once.next, updates);
    assert Overlay(once.items, updates) == once.items;
  }

  // ----- When a second merge changes nothing -----

  /** The snapshot shows no live text and adds nothing, and the list ends in two local messages:
      the first merge takes one away and the second the other. */
  predicate TakesTwoAway(items: seq<Item>, snapshot: RunSnapshot) {
    && !IsLive(snapshot)
    && |items| >= 2 && IsLocal(items[|items| - 1]) && IsLocal(items[|items| - 2])
    && AllPresent(items, Updates(snapshot))
  }

  lemma LocalIsNoTarget(item: Item, updates: seq<Update>, k: nat)
    requires IsLocal(item) && ServerIds(updates) && k < |updates|
    ensures Target(updates[k]) != IdentityOf(item)
  {
  }

  /** A local message at the end is not what an update looks for. */
  lemma PresentInBase(items: seq<Item>, updates: seq<Update>)
    requires ServerIds(updates)
    ensures AllPresent(items, updates) <==> AllPresent(Base(items), updates)
  {
    var base := Base(items);
    assert SameIdentities(base, items);
    forall k | 0 <= k < |updates|
      ensures First(items, Target(updates[k])) < |items| <==> First(base, Target(updates[k])) < |base|
    {
      FirstIsStable(base, items, Target(updates[k]));
      if EndsLocal(items) {
        LocalIsNoTarget(items[|items| - 1], updates, k);
      }
    }
  }

  lemma {:induction false} LastForServerId(updates: seq<Update>, identity: Identity)
    requires ServerIds(updates)
    ensures var last := LastFor(updates, identity);
            last.Some? && identity.MessageIs? ==> identity.number > 0
  {
    if updates != [] {
      LastForServerId(updates[..|updates| - 1], identity);
    }
  }

  /** Revising a list does not change whether it ends in a local message. */
  lemma OverlayEndsAlike(items: seq<Item>, updates: seq<Update>)
    requires ServerIds(updates)
    ensures EndsLocal(Overlay(items, updates)) <==> EndsLocal(items)
  {
    if items != [] {
      var last := items[|items| - 1];
      LastForServerId(updates, IdentityOf(last));
      assert Overlay(items, updates)[|items| - 1] == Revised(items, updates, |items| - 1);
    }
  }

  /** Without live text, the merged list ends in a local message only if nothing was added. */
  lemma MergedEndsLocal(items: seq<Item>, next: nat, updates: seq<Update>)
    requires ServerIds(updates)
    ensures EndsLocal(Applied(Listing(items, next), updates).items) <==> EndsLocal(items) && AllPresent(items, updates)
  {
    var merged := Applied(Listing(items, next), updates).items;
    if AllPresent(items, updates) {
      AppliedOverlays(items, next, updates);
      OverlayEndsAlike(items, updates);
    } else {
      var k :| 0 <= k < |updates| && First(items, Target(updates[k])) >= |items|;
      AppliedSettles(Listing(items, next), updates);
      AppliedExtends(Listing(items, next), updates);
      FirstIsStable(items, merged, Target(updates[k]));
      AddsServerItems(Listing(items, next), updates);
      assert |merged| > |items|;
    }
  }

  /** Merging a snapshot with live text twice is merging it once. */
  lemma LiveMergeRepeats(chat: Chat, snapshot: RunSnapshot)
    requires IsLive(snapshot) && chat.lastLocal <= 0
    ensures Merge(Merge(chat, snapshot), snapshot) == Merge(chat, snapshot)
  {
    var session, content := SessionOf(snapshot.items), LiveContent(snapshot);
    var listing := Applied(Listing(Base(chat.items), chat.nextItem), Updates(snapshot));
    LiveRepeats(chat, listing, session, content);
    AppliedAgain(Listing(Base(chat.items), chat.nextItem), Updates(snapshot));
  }

  lemma LiveRepeats(chat: Chat, listing: Listing, sessionId: int, content: string)
    requires chat.lastLocal <= 0
    ensures var once := WithLive(listing, Placeholder(chat.items), chat.lastLocal, sessionId, content);
            && Base(once.items) == listing.items && once.nextItem == listing.next
            && WithLive(listing, Placeholder(once.items), once.lastLocal, sessionId, content) == once
  {
    LiveItemId(chat, sessionId, content);
  }

  lemma QuietMergeRepeats(chat: Chat, snapshot: RunSnapshot)
    requires !IsLive(snapshot) && ServerIds(Updates(snapshot))
    ensures Merge(Merge(chat, snapshot), snapshot) == Merge(chat, snapshot) <==> !EndsLocal(Merge(chat, snapshot).items)
  {
    var updates := Updates(snapshot);
    var once := Merge(chat, snapshot);
    AppliedAgain(Listing(Base(chat.items), chat.nextItem), updates);
    if EndsLocal(once.items) {
      AppliedSettles(Listing(Base(chat.items), chat.nextItem), updates);
      PresentInBase(once.items, updates);
      AppliedOverlays(Base(once.items), once.nextItem, updates);
      assert |Merge(once, snapshot).items| < |once.items|;
    }
  }

  /** With positive server ids, merging the same snapshot twice gives the same list and nonces as
      merging it once, exactly unless the two merges take two local messages away. */
  lemma MergeIsIdempotent(chat: Chat, snapshot: RunSnapshot)
    requires ServerIds(Updates(snapshot)) && chat.lastLocal <= 0
    ensures Merge(Merge(chat, snapshot), snapshot) == Merge(chat, snapshot) <==> !TakesTwoAway(chat.items, snapshot)
  {
    if IsLive(snapshot) {
      LiveMergeRepeats(chat, snapshot);
    } else {
      QuietMergeRepeats(chat, snapshot);
      MergedEndsLocal(Base(chat.items), chat.nextItem, Updates(snapshot));
      PresentInBase(chat.items, Updates(snapshot));
    }
  }

  /** After two local notices, an empty snapshot takes one away each time it is merged. */
  lemma TwoNoticesAreTakenAway(sessionId: int, first: string, second: string)
    ensures var items := [LocalMessage(-1, sessionId, first), LocalMessage(-2, sessionId, second)];
            var chat, snapshot := Chat(items, 0, -2), RunSnapshot([], [], "", "");
            Merge(Merge(chat, snapshot), snapshot) != Merge(chat, snapshot)
  {
    var items := [LocalMessage(-1, sessionId, first), LocalMessage(-2, sessionId, second)];
    MergeIsIdempotent(Chat(items, 0, -2), RunSnapshot([], [], "", ""));
  }
}
