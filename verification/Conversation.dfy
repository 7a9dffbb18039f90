/** The conversation list and the merge of a run snapshot into it. */
module Conversation {
  import opened Wrappers
  import opened Strings

  datatype Role = System | User | Assistant | Tool

  /** `extra` stands for the fields the merge only copies. */
  datatype ChatMessage = ChatMessage(id: int, sessionId: int, role: Role, content: string, extra: string)
  datatype StepDetail = StepDetail(name: string, summary: string, awaitingPermission: bool, extra: string)
  datatype TaskSnapshot = TaskSnapshot(id: string, extra: string)

  datatype Item =
    | Task(task: TaskSnapshot)
    | Message(message: ChatMessage)
    | ToolStep(key: nat, id: string, detail: StepDetail)
    | Stopped(nonce: nat)
    | Notice(nonce: nat, text: string)

  datatype RunItem = RunMessage(message: ChatMessage) | RunStep(id: string, detail: StepDetail)
  datatype RunSnapshot = RunSnapshot(tasks: seq<TaskSnapshot>, items: seq<RunItem>, text: string, reasoning: string)

  // ----- Updates -----

  /** One thing a snapshot brings: an item of the run, or a task. */
  datatype Update = FromItem(item: RunItem) | FromTask(task: TaskSnapshot)

  /** What an update and the item it belongs to have in common. */
  datatype Identity = MessageIs(number: int) | StepIs(id: string) | TaskIs(id: string) | Local

  function IdentityOf(item: Item): Identity {
    match item
    case Task(task) => TaskIs(task.id)
    case Message(message) => MessageIs(message.id)
    case ToolStep(_, id, _) => StepIs(id)
    case _ => Local
  }

  function Target(update: Update): (identity: Identity)
    ensures !identity.Local?
  {
    match update
    case FromItem(RunMessage(message)) => MessageIs(message.id)
    case FromItem(RunStep(id, _)) => StepIs(id)
    case FromTask(task) => TaskIs(task.id)
  }

  /** The item an update makes; a tool step keeps the key it is given. */
  function Made(update: Update, key: nat): (item: Item)
    ensures IdentityOf(item) == Target(update)
  {
    match update
    case FromItem(RunMessage(message)) => Message(message)
    case FromItem(RunStep(id, detail)) => ToolStep(key, id, detail)
    case FromTask(task) => Task(task)
  }

  function KeyOf(item: Item): nat {
    if item.ToolStep? then item.key else 0
  }

  /** The index of the first item with this identity, or the number of items. */
  function First(items: seq<Item>, identity: Identity): (i: nat)
    ensures i <= |items|
    ensures i < |items| ==> IdentityOf(items[i]) == identity
    ensures forall j :: 0 <= j < i ==> IdentityOf(items[j]) != identity
  {
    if items == [] then 0
    else if IdentityOf(items[0]) == identity then 0
    else 1 + First(items[1..], identity)
  }

  /** The list and the next item nonce. */
  datatype Listing = Listing(items: seq<Item>, next: nat)

  function Upsert(listing: Listing, update: Update): Listing {
    var i := First(listing.items, Target(update));
    if i < |listing.items| then listing.(items := listing.items[i := Made(update, KeyOf(listing.items[i]))])
    else
      Listing(listing.items + [Made(update, listing.next)],
              if Target(update).StepIs? then listing.next + 1 else listing.next)
  }

  function Applied(listing: Listing, updates: seq<Update>): Listing {
    if updates == [] then listing
    else Upsert(Applied(listing, updates[..|updates| - 1]), updates[|updates| - 1])
  }

  function ItemUpdates(items: seq<RunItem>): (updates: seq<Update>)
    ensures |updates| == |items|
  {
    seq(|items|, i requires 0 <= i < |items| => FromItem(items[i]))
  }

  function TaskUpdates(tasks: seq<TaskSnapshot>): (updates: seq<Update>)
    ensures |updates| == |tasks|
  {
    seq(|tasks|, i requires 0 <= i < |tasks| => FromTask(tasks[i]))
  }

  function Updates(snapshot: RunSnapshot): seq<Update> {
    ItemUpdates(snapshot.items) + TaskUpdates(snapshot.tasks)
  }

  // ----- The live text -----

  const ESCAPED_REASONING_OPEN := "<think data-escaped>"

  function EscapeReasoning(reasoning: string): string {
    Replace(Replace(Replace(reasoning, '&', "&amp;"), '<', "&lt;"), '>', "&gt;")
  }

  function WithReasoning(reasoning: string, answer: string): string {
    if reasoning == "" then answer
    else if '&' in reasoning || '<' in reasoning || '>' in reasoning then
      ESCAPED_REASONING_OPEN + EscapeReasoning(reasoning) + "</think>" + answer
    else "<think>" + reasoning + "</think>" + answer
  }

  predicate IsLive(snapshot: RunSnapshot) {
    snapshot.text != "" || snapshot.reasoning != ""
  }

  function LiveContent(snapshot: RunSnapshot): string {
    if snapshot.text == "" && snapshot.reasoning != "" then ESCAPED_REASONING_OPEN + EscapeReasoning(snapshot.reasoning)
    else WithReasoning(snapshot.reasoning, snapshot.text)
  }

  /** The session of the first message in the snapshot, or zero. */
  function SessionOf(items: seq<RunItem>): int {
    if items == [] then 0
    else if items[0].RunMessage? then items[0].message.sessionId
    else SessionOf(items[1..])
  }

  /** A local assistant message: a live placeholder, or a notice of the client's own. */
  predicate IsLocal(item: Item) {
    item.Message? && item.message.id <= 0 && item.message.role == Assistant
  }

  predicate EndsLocal(items: seq<Item>) {
    items != [] && IsLocal(items[|items| - 1])
  }

  function LocalMessage(id: int, sessionId: int, content: string): Item {
    Message(ChatMessage(id, sessionId, Assistant, content, ""))
  }

  // ----- The merge -----

  /** The list with the two nonces: the next item key, and the last local id handed out. */
  datatype Chat = Chat(items: seq<Item>, nextItem: nat, lastLocal: int)

  /** The items without a local message at the end. */
  function Base(items: seq<Item>): seq<Item> {
    if EndsLocal(items) then items[..|items| - 1] else items
  }

  function Placeholder(items: seq<Item>): Option<ChatMessage> {
    if EndsLocal(items) then Some(items[|items| - 1].message) else None
  }

  /** The item that shows the live text: the placeholder, or a new local message. */
  function LiveItem(placeholder: Option<ChatMessage>, lastLocal: int, sessionId: int, content: string): Item {
    match placeholder
    case Some(message) => Message(message.(sessionId := sessionId, content := content))
    case None => LocalMessage(lastLocal - 1, sessionId, content)
  }

  /** The live item goes last. */
  function WithLive(listing: Listing, placeholder: Option<ChatMessage>, lastLocal: int, sessionId: int,
                    content: string): Chat
  {
    Chat(listing.items + [LiveItem(placeholder, lastLocal, sessionId, content)], listing.next,
         if placeholder.Some? then lastLocal else lastLocal - 1)
  }

  function Merge(chat: Chat, snapshot: RunSnapshot): Chat {
    var listing := Applied(Listing(Base(chat.items), chat.nextItem), Updates(snapshot));
    if IsLive(snapshot) then
      WithLive(listing, Placeholder(chat.items), chat.lastLocal, SessionOf(snapshot.items), LiveContent(snapshot))
    else Chat(listing.items, listing.next, chat.lastLocal)
  }

  class ConversationList {
    var items: seq<Item>
    var nextItemNonce: nat
    var lastLocalId: int

    ghost function Now(): Chat
      reads this
    {
      Chat(items, nextItemNonce, lastLocalId)
    }

    method FindItem(identity: Identity) returns (i: nat)
      ensures i == First(items, identity)
    {
      i := 0;
      while i < |items| && IdentityOf(items[i]) != identity
        invariant i <= |items|
        invariant forall j :: 0 <= j < i ==> IdentityOf(items[j]) != identity
      {
        i := i + 1;
      }
    }

    method Put(update: Update)
      modifies this
      ensures Listing(items, nextItemNonce) == Upsert(old(Listing(items, nextItemNonce)), update)
      ensures lastLocalId == old(lastLocalId)
    {
      var i := FindItem(Target(update));
      if i < |items| {
        items := items[i := Made(update, KeyOf(items[i]))];
      } else {
        items := items + [Made(update, nextItemNonce)];
        if Target(update).StepIs? {
          nextItemNonce := nextItemNonce + 1;
        }
      }
    }

    method PutAll(updates: seq<Update>)
      modifies this
      ensures Listing(items, nextItemNonce) == Applied(old(Listing(items, nextItemNonce)), updates)
      ensures lastLocalId == old(lastLocalId)
    {
      for i := 0 to |updates|
        invariant Listing(items, nextItemNonce) == Applied(old(Listing(items, nextItemNonce)), updates[..i])
        invariant lastLocalId == old(lastLocalId)
      {
        assert updates[..i + 1][..i] == updates[..i];
        Put(updates[i]);
      }
      assert updates[..|updates|] == updates;
    }

    method MergeSnapshot(snapshot: RunSnapshot)
      modifies this
      ensures Now() == Merge(old(Now()), snapshot)
    {
      ghost var start := Listing(Base(items), nextItemNonce);
      var placeholder: Option<ChatMessage> := None;
      if EndsLocal(items) {
        placeholder := Some(items[|items| - 1].message);
        items := items[..|items| - 1];
      }
      PutAll(ItemUpdates(snapshot.items));
      PutAll(TaskUpdates(snapshot.tasks));
      AppliedConcat(start, ItemUpdates(snapshot.items), TaskUpdates(snapshot.tasks));
      assert Listing(items, nextItemNonce) == Applied(start, Updates(snapshot));
      if snapshot.text != "" || snapshot.reasoning != "" {
        PushLive(placeholder, SessionOf(snapshot.items), LiveContent(snapshot));
      }
    }

    /** The live text goes last, under the placeholder's id if there was one. */
    method PushLive(placeholder: Option<ChatMessage>, sessionId: int, content: string)
      modifies this
      ensures Now() == WithLive(old(Listing(items, nextItemNonce)), placeholder, old(lastLocalId), sessionId, content)
    {
      if placeholder.Some? {
        items := items + [Message(placeholder.value.(sessionId := sessionId, content := content))];
      } else {
        lastLocalId := lastLocalId - 1;
        items := items + [LocalMessage(lastLocalId, sessionId, content)];
      }
    }
  }

  lemma {:induction false} AppliedConcat(listing: Listing, a: seq<Update>, b: seq<Update>)
    ensures Applied(listing, a + b) == Applied(Applied(listing, a), b)
    decreases |b|
  {
    if b == [] {
      assert a + b == a;
    } else {
      var n := |b| - 1;
      assert (a + b)[..|a + b| - 1] == a + b[..n];
      AppliedConcat(listing, a, b[..n]);
    }
  }
}
