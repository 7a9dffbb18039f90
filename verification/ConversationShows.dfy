/** What a merged conversation shows, in terms of the snapshot's own fields. */
module ConversationShows {
  import opened Collections
  import opened Wrappers
  import opened Strings
  import opened Conversation
  import opened ConversationLaws
  import opened Reasoning

  // ----- The live text -----

  /** The text a snapshot shows live: reasoning still under way is left open, reasoning before a text
      is closed, and written escaped if it holds markup. */
  function Shown(reasoning: string, text: string): string {
    if reasoning == "" then text
    else if text == "" then "<think data-escaped>" + Escaped(reasoning)
    else if '&' in reasoning || '<' in reasoning || '>' in reasoning then
      "<think data-escaped>" + Escaped(reasoning) + "</think>" + text
    else "<think>" + reasoning + "</think>" + text
  }

  lemma ContentIsShown(snapshot: RunSnapshot)
    requires snapshot.text != "" || snapshot.reasoning != ""
    ensures LiveContent(snapshot) == Shown(snapshot.reasoning, snapshot.text)
  {
    EscapesEachChar(snapshot.reasoning);
  }

  /** An assistant message with this text in this session: under the id of the local message it takes
      the place of, and with all else it says, or under the next local id. */
  predicate ShowsLive(item: Item, items: seq<Item>, lastLocal: int, sessionId: int, content: string) {
    && item.Message? && item.message.role == Assistant
    && item.message.content == content && item.message.sessionId == sessionId
    && if Base(items) == items then item.message.id == lastLocal - 1 && item.message.extra == ""
       else item.message.id == items[|items| - 1].message.id && item.message.extra == items[|items| - 1].message.extra
  }

  lemma LiveItemShows(items: seq<Item>, lastLocal: int, sessionId: int, content: string)
    ensures Base(items) == items <==> !EndsLocal(items)
    ensures ShowsLive(LiveItem(Placeholder(items), lastLocal, sessionId, content), items, lastLocal, sessionId, content)
  {
    assert EndsLocal(items) ==> |Base(items)| < |items|;
  }

  /** A snapshot with text or reasoning shows it in the last item, in the session of the snapshot's
      first message; a new message draws the next local id. */
  lemma LiveTextIsShown(chat: Chat, snapshot: RunSnapshot)
    requires snapshot.text != "" || snapshot.reasoning != ""
    ensures var after := Merge(chat, snapshot);
            && after.items != []
            && ShowsLive(after.items[|after.items| - 1], chat.items, chat.lastLocal, SessionOf(snapshot.items),
                         Shown(snapshot.reasoning, snapshot.text))
            && after.lastLocal == if Base(chat.items) == chat.items then chat.lastLocal - 1 else chat.lastLocal
  {
    var session, content := SessionOf(snapshot.items), LiveContent(snapshot);
    ContentIsShown(snapshot);
    LiveItemShows(chat.items, chat.lastLocal, session, content);
    var listing := Applied(Listing(Base(chat.items), chat.nextItem), Updates(snapshot));
    assert Merge(chat, snapshot) == WithLive(listing, Placeholder(chat.items), chat.lastLocal, session, content);
  }

  /** Without text and reasoning nothing but the updates is shown. */
  lemma NothingLiveIsShown(chat: Chat, snapshot: RunSnapshot)
    requires snapshot.text == "" && snapshot.reasoning == ""
    ensures var applied := Applied(Listing(Base(chat.items), chat.nextItem), Updates(snapshot));
            Merge(chat, snapshot) == Chat(applied.items, applied.next, chat.lastLocal)
  {
  }

  /** What is taken off the end of the list: an assistant message with an id that is not positive, and
      nothing else. */
  lemma LocalMessagesAreTaken(front: seq<Item>, last: Item)
    ensures Base([]) == []
    ensures last.Message? && last.message.id <= 0 && last.message.role == Assistant ==> Base(front + [last]) == front
    ensures last.Message? && (last.message.id > 0 || last.message.role != Assistant) ==>
              Base(front + [last]) == front + [last]
    ensures !last.Message? ==> Base(front + [last]) == front + [last]
  {
    assert (front + [last])[..|front|] == front;
  }

  lemma {:induction false} SessionOfFirst(steps: seq<RunItem>, message: ChatMessage, rest: seq<RunItem>)
    requires forall i :: 0 <= i < |steps| ==> steps[i].RunStep?
    ensures SessionOf(steps + [RunMessage(message)] + rest) == message.sessionId
    ensures SessionOf(steps) == 0
  {
    var items := steps + [RunMessage(message)] + rest;
    if steps != [] {
      assert items[0] == steps[0] && items[1..] == steps[1..] + [RunMessage(message)] + rest;
      SessionOfFirst(steps[1..], message, rest);
    }
  }

  // ----- The updates -----

  /** First the run's items, then its tasks, each in order. */
  lemma UpdatesInOrder(snapshot: RunSnapshot, i: nat)
    requires i < |snapshot.items| + |snapshot.tasks|
    ensures |Updates(snapshot)| == |snapshot.items| + |snapshot.tasks|
    ensures Updates(snapshot)[i]
            == if i < |snapshot.items| then FromItem(snapshot.items[i])
               else FromTask(snapshot.tasks[i - |snapshot.items|])
  {
  }

  /** Messages are told apart by id, steps by the id of their call, tasks by theirs; other items are
      never looked for. */
  lemma LooksForTheSameId(items: seq<Item>, i: nat, message: ChatMessage, id: string, detail: StepDetail,
                          task: TaskSnapshot)
    requires i < |items|
    ensures IdentityOf(items[i]) == Target(FromItem(RunMessage(message))) <==>
              items[i].Message? && items[i].message.id == message.id
    ensures IdentityOf(items[i]) == Target(FromItem(RunStep(id, detail))) <==>
              items[i].ToolStep? && items[i].id == id
    ensures IdentityOf(items[i]) == Target(FromTask(task)) <==> items[i].Task? && items[i].task.id == task.id
  {
  }

  /** An update takes the place of the first item it belongs to, and a step keeps that item's key; it
      goes last if there is none, and a new step draws the next key. */
  lemma UpdatesReplaceOrAdd(listing: Listing, message: ChatMessage, id: string, detail: StepDetail, task: TaskSnapshot)
    ensures var p := First(listing.items, MessageIs(message.id));
            Upsert(listing, FromItem(RunMessage(message)))
            == Listing(Put(listing.items, p, Message(message)), listing.next)
    ensures var p := First(listing.items, TaskIs(task.id));
            Upsert(listing, FromTask(task)) == Listing(Put(listing.items, p, Task(task)), listing.next)
    ensures var p := First(listing.items, StepIs(id));
            Upsert(listing, FromItem(RunStep(id, detail)))
            == if p < |listing.items| then
                 Listing(Put(listing.items, p, ToolStep(listing.items[p].key, id, detail)), listing.next)
               else Listing(Put(listing.items, p, ToolStep(listing.next, id, detail)), listing.next + 1)
  {
  }

  function Put(items: seq<Item>, p: nat, item: Item): seq<Item>
    requires p <= |items|
  {
    if p < |items| then items[p := item] else items + [item]
  }

  // ----- List keys -----

  lemma NumbersAreWritten()
    ensures NatText(0) == "0" && NatText(7) == "7" && NatText(42) == "42" && NatText(305) == "305"
  {
    assert NatText(4) == "4" && NatText(3) == "3" && NatText(30) == "30";
  }

  /** The keys as the list uses them. */
  lemma KeysAreWritten(task: TaskSnapshot, message: ChatMessage, detail: StepDetail, text: string)
    ensures ItemKey(Task(task)) == "task-" + task.id
    ensures ItemKey(Message(message.(id := 42))) == "m-42" && ItemKey(Message(message.(id := -7))) == "m--7"
    ensures ItemKey(ToolStep(305, "call", detail)) == "t-305"
    ensures ItemKey(Stopped(0)) == "s-0" && ItemKey(Notice(7, text)) == "n-7"
  {
    NumbersAreWritten();
  }
}
