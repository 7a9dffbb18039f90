/** What merging a snapshot keeps: the order and keys of the items, the uniqueness of keys, and,
    merging once more, the list itself. */
module ConversationLaws {
  import opened Conversation

  // ----- Keys -----

  /** What a list key is made from. */
  datatype Handle =
    | TaskHandle(name: string) | MessageHandle(number: int) | StepHandle(key: nat)
    | StopHandle(key: nat) | NoticeHandle(key: nat)

  function HandleOf(item: Item): Handle {
    match item
    case Task(task) => TaskHandle(task.id)
    case Message(message) => MessageHandle(message.id)
    case ToolStep(key, _, _) => StepHandle(key)
    case Stopped(nonce) => StopHandle(nonce)
    case Notice(nonce, _) => NoticeHandle(nonce)
  }

  function NatText(n: nat): (s: string)
    ensures s != ""
  {
    var digit := [(n % 10 + '0' as int) as char];
    if n < 10 then digit else NatText(n / 10) + digit
  }

  function IntText(n: int): string {
    if n < 0 then "-" + NatText(-n) else NatText(n)
  }

  /** `item_key`. */
  function ItemKey(item: Item): string {
    match item
    case Task(task) => "task-" + task.id
    case Message(message) => "m-" + IntText(message.id)
    case ToolStep(key, _, _) => "t-" + NatText(key)
    case Stopped(nonce) => "s-" + NatText(nonce)
    case Notice(nonce, _) => "n-" + NatText(nonce)
  }

  lemma {:induction false} NatTextIsInjective(a: nat, b: nat)
    requires NatText(a) == NatText(b)
    ensures a == b
  {
    var s, t := NatText(a), NatText(b);
    assert s[|s| - 1] == (a % 10 + '0' as int) as char && t[|t| - 1] == (b % 10 + '0' as int) as char;
    if a >= 10 {
      assert |s| > 1;
      assert b >= 10;
      assert s[..|s| - 1] == NatText(a / 10) && t[..|t| - 1] == NatText(b / 10);
      NatTextIsInjective(a / 10, b / 10);
    } else {
      assert b < 10;
    }
  }

  lemma {:induction false} NatTextHasNoSign(n: nat)
    ensures NatText(n)[0] != '-'
  {
    if n >= 10 {
      NatTextHasNoSign(n / 10);
    }
  }

  lemma IntTextIsInjective(a: int, b: int)
    requires IntText(a) == IntText(b)
    ensures a == b
  {
    NatTextHasNoSign(if a < 0 then -a else a);
    NatTextHasNoSign(if b < 0 then -b else b);
    if a < 0 {
      assert IntText(a)[1..] == NatText(-a) && IntText(b)[1..] == NatText(-b);
      NatTextIsInjective(-a, -b);
    } else {
      NatTextIsInjective(a, b);
    }
  }

  /** Two items share a list key exactly when they share a handle. */
  lemma KeysAreHandles(a: Item, b: Item)
    ensures ItemKey(a) == ItemKey(b) <==> HandleOf(a) == HandleOf(b)
  {
    var s, t := ItemKey(a), ItemKey(b);
    if s == t {
      assert s[0] == t[0] && s[1] == t[1];
      if a.Task? {
        assert s[5..] == a.task.id && t[5..] == b.task.id;
      } else if a.Message? {
        assert s[2..] == IntText(a.message.id) && t[2..] == IntText(b.message.id);
        IntTextIsInjective(a.message.id, b.message.id);
      } else if a.ToolStep? {
        assert s[2..] == NatText(a.key) && t[2..] == NatText(b.key);
        NatTextIsInjective(a.key, b.key);
      } else {
        assert s[2..] == NatText(a.nonce) && t[2..] == NatText(b.nonce);
        NatTextIsInjective(a.nonce, b.nonce);
      }
    }
  }

  // ----- Order and keys are kept -----

  /** The first items keep their handles, in place. */
  predicate Extends(items: seq<Item>, longer: seq<Item>) {
    && |items| <= |longer|
    && forall i :: 0 <= i < |items| ==>
         HandleOf(longer[i]) == HandleOf(items[i]) && IdentityOf(longer[i]) == IdentityOf(items[i])
  }

  lemma {:induction false} AppliedExtends(listing: Listing, updates: seq<Update>)
    ensures Extends(listing.items, Applied(listing, updates).items)
    ensures listing.next <= Applied(listing, updates).next
  {
    if updates != [] {
      AppliedExtends(listing, updates[..|updates| - 1]);
    }
  }

  /** Some update is for the item with this identity. */
  predicate Targeted(updates: seq<Update>, identity: Identity) {
    exists k :: 0 <= k < |updates| && Target(updates[k]) == identity
  }

  /** Items no update is for keep their contents. */
  lemma {:induction false} OthersAreLeftAlone(listing: Listing, updates: seq<Update>, i: nat)
    requires i < |listing.items| && !Targeted(updates, IdentityOf(listing.items[i]))
    ensures i < |Applied(listing, updates).items|
    ensures Applied(listing, updates).items[i] == listing.items[i]
  {
    if updates != [] {
      var n := |updates| - 1;
      forall k | 0 <= k < n ensures Target(updates[..n][k]) != IdentityOf(listing.items[i]) {
        assert updates[..n][k] == updates[k];
      }
      OthersAreLeftAlone(listing, updates[..n], i);
      assert Target(updates[n]) != IdentityOf(listing.items[i]);
    }
  }

  /** Merging neither reorders nor drops any item but a local message at the end; every item kept
      keeps its list key, and one the snapshot does not mention keeps its contents. */
  lemma MergeKeepsOrderAndKeys(chat: Chat, snapshot: RunSnapshot)
    ensures var base, merged := Base(chat.items), Merge(chat, snapshot).items;
            && |base| <= |merged|
            && (forall i :: 0 <= i < |base| ==> ItemKey(merged[i]) == ItemKey(base[i]))
            && (forall i :: 0 <= i < |base| && !Targeted(Updates(snapshot), IdentityOf(base[i])) ==>
                  merged[i] == base[i])
  {
    var base, merged := Base(chat.items), Merge(chat, snapshot).items;
    AppliedExtends(Listing(base, chat.nextItem), Updates(snapshot));
    forall i | 0 <= i < |base| ensures ItemKey(merged[i]) == ItemKey(base[i]) {
      KeysAreHandles(merged[i], base[i]);
    }
    forall i | 0 <= i < |base| && !Targeted(Updates(snapshot), IdentityOf(base[i])) ensures merged[i] == base[i] {
      OthersAreLeftAlone(Listing(base, chat.nextItem), Updates(snapshot), i);
    }
  }

  // ----- Keys stay distinct -----

  predicate ServerIds(updates: seq<Update>) {
    forall i :: 0 <= i < |updates| ==> Target(updates[i]).MessageIs? ==> Target(updates[i]).number > 0
  }

  /** No two items share a handle, and the nonces are ahead of every key and local id in use. */
  predicate Healthy(items: seq<Item>, next: nat, lastLocal: int) {
    && (forall i, j :: 0 <= i < j < |items| ==> HandleOf(items[i]) != HandleOf(items[j]))
    && (forall i :: 0 <= i < |items| && items[i].ToolStep? ==> items[i].key < next)
    && (forall i :: 0 <= i < |items| && items[i].Message? && items[i].message.id <= 0 ==>
          lastLocal <= items[i].message.id)
    && lastLocal <= 0
  }

  lemma {:induction false} AppliedStaysHealthy(listing: Listing, updates: seq<Update>, lastLocal: int)
    requires Healthy(listing.items, listing.next, lastLocal) && ServerIds(updates)
    ensures var after := Applied(listing, updates); Healthy(after.items, after.next, lastLocal)
  {
    if updates != [] {
      var n := |updates| - 1;
      AppliedStaysHealthy(listing, updates[..n], lastLocal);
      UpsertStaysHealthy(Applied(listing, updates[..n]), updates[n], lastLocal);
    }
  }

  lemma UpsertStaysHealthy(listing: Listing, update: Update, lastLocal: int)
    requires Healthy(listing.items, listing.next, lastLocal)
    requires Target(update).MessageIs? ==> Target(update).number > 0
    ensures var after := Upsert(listing, update); Healthy(after.items, after.next, lastLocal)
  {
    var k := First(listing.items, Target(update));
    var after := Upsert(listing, update).items;
    forall i, j | 0 <= i < j < |after| ensures HandleOf(after[i]) != HandleOf(after[j]) {
      if j == |listing.items| {
        assert IdentityOf(listing.items[i]) != Target(update);
      }
    }
  }

  /** Merging keeps all list keys distinct. */
  lemma MergeStaysHealthy(chat: Chat, snapshot: RunSnapshot)
    requires Healthy(chat.items, chat.nextItem, chat.lastLocal) && ServerIds(Updates(snapshot))
    ensures var after := Merge(chat, snapshot); Healthy(after.items, after.nextItem, after.lastLocal)
  {
    var base := Base(chat.items);
    AppliedStaysHealthy(Listing(base, chat.nextItem), Updates(snapshot), chat.lastLocal);
    if IsLive(snapshot) {
      var session, content := SessionOf(snapshot.items), LiveContent(snapshot);
      var listing := Applied(Listing(base, chat.nextItem), Updates(snapshot));
      LiveItemId(chat, session, content);
      LiveIdIsFresh(chat, Updates(snapshot));
      PushStaysHealthy(listing.items, listing.next, chat.lastLocal,
                       LiveItem(Placeholder(chat.items), chat.lastLocal, session, content),
                       if EndsLocal(chat.items) then chat.lastLocal else chat.lastLocal - 1);
    }
  }

  /** The id of the live item. */
  function LiveId(chat: Chat): int {
    if EndsLocal(chat.items) then chat.items[|chat.items| - 1].message.id else chat.lastLocal - 1
  }

  lemma LiveItemId(chat: Chat, sessionId: int, content: string)
    ensures var item := LiveItem(Placeholder(chat.items), chat.lastLocal, sessionId, content);
            item.Message? && item.message.id == LiveId(chat) && item.message.role == Assistant
  {
  }

  /** The live item's id is not in use. */
  lemma LiveIdIsFresh(chat: Chat, updates: seq<Update>)
    requires Healthy(chat.items, chat.nextItem, chat.lastLocal) && ServerIds(updates)
    ensures LiveId(chat) <= 0
    ensures var items := Applied(Listing(Base(chat.items), chat.nextItem), updates).items;
            forall i :: 0 <= i < |items| ==> HandleOf(items[i]) != MessageHandle(LiveId(chat))
  {
    var base := Base(chat.items);
    var items := Applied(Listing(base, chat.nextItem), updates).items;
    AppliedExtends(Listing(base, chat.nextItem), updates);
    AddsServerItems(Listing(base, chat.nextItem), updates);
    forall i | 0 <= i < |items| ensures HandleOf(items[i]) != MessageHandle(LiveId(chat)) {
      if i < |base| {
        assert HandleOf(items[i]) == HandleOf(base[i]) == HandleOf(chat.items[i]);
      }
    }
  }

  lemma PushStaysHealthy(items: seq<Item>, next: nat, lastLocal: int, item: Item, newLocal: int)
    requires Healthy(items, next, lastLocal) && newLocal <= lastLocal
    requires item.Message? && (item.message.id <= 0 ==> newLocal <= item.message.id)
    requires forall i :: 0 <= i < |items| ==> HandleOf(items[i]) != HandleOf(item)
    ensures Healthy(items + [item], next, newLocal)
  {
  }

  /** What a snapshot adds is never a message with a local id. */
  lemma {:induction false} AddsServerItems(listing: Listing, updates: seq<Update>)
    requires ServerIds(updates)
    ensures var items := Applied(listing, updates).items;
            forall i :: |listing.items| <= i < |items| && items[i].Message? ==> items[i].message.id > 0
  {
    if updates != [] {
      var n := |updates| - 1;
      AddsServerItems(listing, updates[..n]);
      AppliedExtends(listing, updates[..n]);
    }
  }

  predicate DistinctKeys(items: seq<Item>) {
    forall i, j :: 0 <= i < j < |items| ==> ItemKey(items[i]) != ItemKey(items[j])
  }

  /** A run of merges. */
  function MergeAll(chat: Chat, snapshots: seq<RunSnapshot>): Chat
    decreases |snapshots|
  {
    if snapshots == [] then chat else MergeAll(Merge(chat, snapshots[0]), snapshots[1..])
  }

  /** Over any sequence of merges all list keys stay distinct. */
  lemma {:induction false} KeysStayDistinct(chat: Chat, snapshots: seq<RunSnapshot>)
    requires Healthy(chat.items, chat.nextItem, chat.lastLocal)
    requires forall k :: 0 <= k < |snapshots| ==> ServerIds(Updates(snapshots[k]))
    ensures DistinctKeys(MergeAll(chat, snapshots).items)
    decreases |snapshots|
  {
    if snapshots == [] {
      forall i, j | 0 <= i < j < |chat.items| ensures ItemKey(chat.items[i]) != ItemKey(chat.items[j]) {
        KeysAreHandles(chat.items[i], chat.items[j]);
      }
    } else {
      MergeStaysHealthy(chat, snapshots[0]);
      KeysStayDistinct(Merge(chat, snapshots[0]), snapshots[1..]);
    }
  }
}
