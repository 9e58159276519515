/** The chat page (js/chat.js) as a sequential transition system over
    immutable state: the four module-level variables of the page, the
    browser's table of live intervals, what the conversation list shows and
    the text in the message box. Every API reply is a parameter of the
    operation that awaits it; the operations return the requests they issue
    and the alerts they raise. */
module Chat {
  import opened Js
  import opened Web

  datatype Participant = Participant(id: string, name: Option<string>)

  datatype Conversation = Conversation(
    id: string,
    listingTitle: Option<string>,  // `conv.listing?.title`
    participants: seq<Participant>,
    lastMessage: Option<string>)

  datatype Message = Message(id: string, sender: Participant, text: string)

  /** An interval handle as `setInterval` returns it. */
  type Handle = nat

  /** The page's module-level state: `conversations`, `currentConversation`,
      `currentMessages` and `refreshInterval`. */
  datatype Session = Session(
    conversations: seq<Conversation>,
    current: Option<Conversation>,
    messages: seq<Message>,
    refresh: Option<Handle>)

  /** The browser's live intervals, each polling the conversation it was
      created for, and the handle the next `setInterval` returns. */
  datatype Timers = Timers(active: map<Handle, string>, next: Handle)

  /** What the conversation-list container shows. */
  datatype ListPanel = Unrendered | Listed | NoConversations | ConversationsError

  datatype Page = Page(session: Session, timers: Timers, list: ListPanel, input: string)

  /** The state an operation leaves and the effects it had, in order. */
  datatype Step = Step(page: Page, effects: seq<Effect>)

  const Initial := Page(Session([], None, [], None), Timers(map[], 1), Unrendered, "")

  const FetchConversations := Send(Request(Get, ChatsPath, true, []))

  function FetchMessages(id: string): Effect {
    Send(Request(Get, ChatsPath + "/" + id, true, []))
  }

  function PostMessage(id: string, text: string): Effect {
    Send(Request(Post, ChatsPath + "/" + id + "/messages", true, [("text", text)]))
  }

  // ------------------------------------------------------------ lookups

  /** `conversations.find(c => c._id === id)`, as the index of the match. */
  function FindConversation(cs: seq<Conversation>, id: string): (k: Option<nat>)
    ensures k.Some? ==> k.value < |cs| && cs[k.value].id == id
    ensures k.Some? ==> forall j :: 0 <= j < k.value ==> cs[j].id != id
    ensures k.None? ==> forall j :: 0 <= j < |cs| ==> cs[j].id != id
  {
    if |cs| == 0 then None
    else if cs[0].id == id then Some(0)
    else
      match FindConversation(cs[1..], id)
      case None => None
      case Some(k) => Some(k + 1)
  }

  /** `participants.find(p => p._id !== userId)`: the other side of the chat. */
  function OtherParticipant(ps: seq<Participant>, userId: string): (r: Option<Participant>)
    ensures r.None? <==> forall i :: 0 <= i < |ps| ==> ps[i].id == userId
    ensures r.Some? ==> exists k :: (0 <= k < |ps| && ps[k] == r.value && r.value.id != userId
      && forall j :: 0 <= j < k ==> ps[j].id == userId)
  {
    if |ps| == 0 then None
    else if ps[0].id != userId then Some(ps[0])
    else
      var r := OtherParticipant(ps[1..], userId);
      if r.Some? then
        var k :| 0 <= k < |ps[1..]| && ps[1..][k] == r.value && r.value.id != userId
          && forall j :: 0 <= j < k ==> ps[1..][j].id == userId;
        assert ps[k + 1] == r.value;
        r
      else r
  }

  // -------------------------------------------------------- transitions

  /** `loadConversations`: the list is replaced only by a successful,
      non-empty reply; a successful reply without the field throws while
      reading its length and shows the error. */
  function LoadConversations(p: Page, reply: Reply<seq<Conversation>>): (r: Step)
    ensures r.effects == [FetchConversations]
    ensures r.page.list != Unrendered
    ensures r.page.list == Listed <==> (reply.Succeeded() && reply.payload.Some? && |reply.payload.value| > 0)
    ensures r.page.list == ConversationsError <==> (reply.Thrown? || (reply.Succeeded() && reply.payload.None?))
    ensures r.page.list == Listed ==> r.page.session.conversations == reply.payload.value
    ensures r.page.list != Listed ==> r.page.session == p.session
    ensures r.page.session.(conversations := p.session.conversations) == p.session
    ensures r.page.timers == p.timers && r.page.input == p.input
  {
    var effects := [FetchConversations];
    match reply
    case Thrown(_) => Step(p.(list := ConversationsError), effects)
    case Answer(ok, cs) =>
      if !ok then Step(p.(list := NoConversations), effects)
      else if cs.None? then Step(p.(list := ConversationsError), effects)
      else if |cs.value| == 0 then Step(p.(list := NoConversations), effects)
      else Step(p.(session := p.session.(conversations := cs.value), list := Listed), effects)
  }

  /** `loadMessages(id)`: the messages are replaced only by a successful reply. */
  function LoadMessages(p: Page, id: string, reply: Reply<seq<Message>>): (r: Step)
    ensures r.effects == [FetchMessages(id)]
    ensures reply.Succeeded() && reply.payload.Some? ==> r.page.session.messages == reply.payload.value
    ensures !(reply.Succeeded() && reply.payload.Some?) ==> r.page == p
    ensures r.page.(session := r.page.session.(messages := p.session.messages)) == p
  {
    if reply.Succeeded() && reply.payload.Some? then
      Step(p.(session := p.session.(messages := reply.payload.value)), [FetchMessages(id)])
    else Step(p, [FetchMessages(id)])
  }

  /** The interval table once `clearInterval(refreshInterval)` has run, when
      there is a handle to clear. */
  function ClearRefresh(p: Page): (t: Timers)
    ensures t.next == p.timers.next
    ensures t.active.Keys <= p.timers.active.Keys
    ensures p.session.refresh.Some? ==> p.session.refresh.value !in t.active
    ensures forall h :: h in t.active ==> t.active[h] == p.timers.active[h]
    ensures forall h :: h in p.timers.active && Some(h) != p.session.refresh ==> h in t.active
  {
    if p.session.refresh.Some? then p.timers.(active := p.timers.active - {p.session.refresh.value})
    else p.timers
  }

  /** `selectConversation(id)`: nothing happens for an id the list does not
      hold; otherwise the first match becomes current, its messages are
      fetched once, the previous interval is cleared and a fresh one polls
      the new conversation. */
  function SelectConversation(p: Page, id: string, reply: Reply<seq<Message>>): (r: Step)
    ensures FindConversation(p.session.conversations, id).None? ==> r == Step(p, [])
    ensures FindConversation(p.session.conversations, id).Some? ==>
      var k := FindConversation(p.session.conversations, id).value;
      && r.page.session.current == Some(p.session.conversations[k])
      && r.effects == [FetchMessages(id)]
      && r.page.session.refresh == Some(p.timers.next)
      && r.page.timers.active == ClearRefresh(p).active[p.timers.next := id]
      && r.page.timers.next == p.timers.next + 1
      && r.page.session.conversations == p.session.conversations
      && r.page.list == Listed
      && r.page.input == p.input
      && r.page.session.messages
         == (if reply.Succeeded() && reply.payload.Some? then reply.payload.value else p.session.messages)
  {
    match FindConversation(p.session.conversations, id)
    case None => Step(p, [])
    case Some(k) =>
      var selected := p.(session := p.session.(current := Some(p.session.conversations[k])), list := Listed);
      var loaded := LoadMessages(selected, id, reply);
      var q := loaded.page;
      var h := q.timers.next;
      var timers := Timers(ClearRefresh(q).active[h := id], h + 1);
      Step(q.(session := q.session.(refresh := Some(h)), timers := timers), loaded.effects)
  }

  /** One tick of interval `h`: a live interval reloads the conversation it
      was created for; a cleared one does nothing. */
  function Poll(p: Page, h: Handle, reply: Reply<seq<Message>>): (r: Step)
    ensures h in p.timers.active ==> r == LoadMessages(p, p.timers.active[h], reply)
    ensures h !in p.timers.active ==> r == Step(p, [])
  {
    if h in p.timers.active then LoadMessages(p, p.timers.active[h], reply) else Step(p, [])
  }

  /** `sendMessage`: nothing happens without trimmed text or a current
      conversation. Otherwise the trimmed text is posted; a successful reply
      empties the box and reloads the messages, a refusal keeps the box as it
      is, and an exception raises an alert. */
  function SendMessage(p: Page, post: Reply<()>, reload: Reply<seq<Message>>): (r: Step)
    ensures (Trim(p.input) == "" || p.session.current.None?) ==> r == Step(p, [])
    ensures Trim(p.input) != "" && p.session.current.Some? ==>
      var id := p.session.current.value.id;
      && |r.effects| >= 1
      && r.effects[0] == PostMessage(id, Trim(p.input))
      && (post.Succeeded() ==>
            r.page.input == "" && r.effects == [PostMessage(id, Trim(p.input)), FetchMessages(id)])
      && (post.Succeeded() ==>
            r.page.timers == p.timers && r.page.list == p.list
            && r.page.session.(messages := p.session.messages) == p.session)
      && (post.Succeeded() ==>
            r.page.session.messages
            == if reload.Succeeded() && reload.payload.Some? then reload.payload.value else p.session.messages)
      && (post.Answer? && !post.success ==> r == Step(p, [PostMessage(id, Trim(p.input))]))
      && (post.Thrown? ==> r.page == p && r.effects[1..] == [Alert("Error sending message: " + post.message)])
  {
    var text := Trim(p.input);
    if text == "" || p.session.current.None? then Step(p, [])
    else
      var id := p.session.current.value.id;
      var posted := [PostMessage(id, text)];
      match post
      case Thrown(m) => Step(p, posted + [Alert("Error sending message: " + m)])
      case Answer(ok, _) =>
        if ok then
          var loaded := LoadMessages(p.(input := ""), id, reload);
          Step(loaded.page, posted + loaded.effects)
        else Step(p, posted)
  }

  /** The `beforeunload` handler: the interval is cleared, the handle
      variable keeps its (now dead) value. */
  function Teardown(p: Page): (q: Page)
    ensures p.session.refresh.Some? ==> p.session.refresh.value !in q.timers.active
    ensures q.session == p.session
    ensures q.timers.active.Keys <= p.timers.active.Keys
  {
    p.(timers := ClearRefresh(p))
  }

  // -------------------------------------------------- the timer invariant

  /** At most the one interval `refreshInterval` names is live, it was
      created after every handle the page holds, and it polls the current
      conversation. */
  predicate TimersTrackSelection(p: Page) {
    && (forall h :: h in p.timers.active ==> p.session.refresh == Some(h))
    && (forall h :: h in p.timers.active ==>
          p.session.current.Some? && p.timers.active[h] == p.session.current.value.id)
    && (forall h :: h in p.timers.active ==> h < p.timers.next)
    && (p.session.refresh.Some? ==> p.session.refresh.value < p.timers.next)
  }

  datatype Event =
    | ListLoaded(conversations: Reply<seq<Conversation>>)
    | Selected(id: string, messages: Reply<seq<Message>>)
    | Ticked(handle: Handle, messages: Reply<seq<Message>>)
    | Typed(text: string)
    | SendPressed(post: Reply<()>, reload: Reply<seq<Message>>)
    | Unloaded

  function Apply(p: Page, e: Event): Page {
    match e
    case ListLoaded(reply) => LoadConversations(p, reply).page
    case Selected(id, reply) => SelectConversation(p, id, reply).page
    case Ticked(h, reply) => Poll(p, h, reply).page
    case Typed(text) => p.(input := text)
    case SendPressed(post, reload) => SendMessage(p, post, reload).page
    case Unloaded => Teardown(p)
  }

  function Run(p: Page, events: seq<Event>): Page
    decreases |events|
  {
    if |events| == 0 then p else Run(Apply(p, events[0]), events[1..])
  }

  /** The invariant bounds the live intervals to one. */
  lemma AtMostOneTimer(p: Page)
    requires TimersTrackSelection(p)
    ensures |p.timers.active| <= 1
    ensures p.session.refresh.None? ==> p.timers.active == map[]
  {
    var keys := p.timers.active.Keys;
    if p.session.refresh.Some? {
      var v := p.session.refresh.value;
      if v in keys {
        assert keys == {v};
      } else {
        assert keys == {};
      }
    } else {
      assert keys == {};
    }
  }

  lemma InitialTracksSelection()
    ensures TimersTrackSelection(Initial)
  {
  }

  /** Every event keeps the invariant. */
  lemma ApplyPreserves(p: Page, e: Event)
    requires TimersTrackSelection(p)
    ensures TimersTrackSelection(Apply(p, e))
  {
    match e
    case Selected(id, reply) =>
      var k := FindConversation(p.session.conversations, id);
      if k.Some? {
        assert p.session.conversations[k.value].id == id;
      }
    case _ =>
  }

  /** Any run of the page from its initial state keeps the invariant, so at
      no point are two intervals live. */
  lemma {:induction false} RunPreserves(p: Page, events: seq<Event>)
    requires TimersTrackSelection(p)
    ensures TimersTrackSelection(Run(p, events))
    ensures |Run(p, events).timers.active| <= 1
    decreases |events|
  {
    if |events| == 0 {
      AtMostOneTimer(p);
    } else {
      ApplyPreserves(p, events[0]);
      RunPreserves(Apply(p, events[0]), events[1..]);
    }
  }

  /** A successful selection leaves exactly one live interval: the one
      `refreshInterval` now names, polling the selected conversation. */
  lemma SelectLeavesOneTimer(p: Page, id: string, reply: Reply<seq<Message>>)
    requires TimersTrackSelection(p)
    requires FindConversation(p.session.conversations, id).Some?
    ensures var q := SelectConversation(p, id, reply).page;
      q.session.refresh.Some? && q.timers.active == map[q.session.refresh.value := id]
  {
    var q := SelectConversation(p, id, reply).page;
    AtMostOneTimer(p);
    var cleared := ClearRefresh(p).active;
    assert cleared == map[] by {
      if p.session.refresh.Some? {
        assert cleared.Keys <= p.timers.active.Keys - {p.session.refresh.value};
      }
    }
  }

  /** Selecting A and then B leaves one interval, polling B. */
  lemma SelectTwice(p: Page, a: string, ra: Reply<seq<Message>>, b: string, rb: Reply<seq<Message>>)
    requires TimersTrackSelection(p)
    requires FindConversation(p.session.conversations, a).Some?
    requires FindConversation(p.session.conversations, b).Some?
    ensures var q := SelectConversation(SelectConversation(p, a, ra).page, b, rb).page;
      q.session.refresh.Some? && q.timers.active == map[q.session.refresh.value := b]
      && q.session.current.value.id == b
  {
    var p1 := SelectConversation(p, a, ra).page;
    ApplyPreserves(p, Selected(a, ra));
    SelectLeavesOneTimer(p1, b, rb);
  }

  /** Every tick of a live interval fetches the messages of the current
      conversation, and nothing else. */
  lemma PollFetchesCurrent(p: Page, h: Handle, reply: Reply<seq<Message>>)
    requires TimersTrackSelection(p)
    requires h in p.timers.active
    ensures p.session.current.Some?
    ensures Poll(p, h, reply).effects == [FetchMessages(p.session.current.value.id)]
  {
  }

  /** After the page is unloaded no interval is live. */
  lemma TeardownStopsPolling(p: Page, h: Handle, reply: Reply<seq<Message>>)
    requires TimersTrackSelection(p)
    ensures Teardown(p).timers.active == map[]
    ensures Poll(Teardown(p), h, reply) == Step(Teardown(p), [])
  {
    AtMostOneTimer(p);
    if p.session.refresh.Some? {
      assert Teardown(p).timers.active.Keys <= p.timers.active.Keys - {p.session.refresh.value};
    }
  }

  /** Selecting a conversation whose messages fail to load keeps the
      previous conversation's messages under the new conversation's header. */
  lemma FailedSelectKeepsOldMessages(p: Page, id: string, reply: Reply<seq<Message>>)
    requires FindConversation(p.session.conversations, id).Some?
    requires !reply.Succeeded()
    ensures SelectConversation(p, id, reply).page.session.messages == p.session.messages
    ensures SelectConversation(p, id, reply).page.session.current.value.id == id
  {
  }

  // ------------------------------------------------------------ views

  datatype ConversationItem = ConversationItem(
    title: string,
    otherName: string,
    preview: Option<string>,
    active: bool)

  /** The last-message line: the first 30 characters and "...", shown only
      for a truthy `lastMessage`. */
  function Preview(lastMessage: Option<string>): (r: Option<string>)
    ensures r.Some? <==> Truthy(lastMessage)
    ensures r.Some? ==> |r.value| == Min(30, |lastMessage.value|) + 3
    ensures r.Some? ==> r.value[..|r.value| - 3] <= lastMessage.value
    ensures r.Some? ==> r.value[|r.value| - 3..] == "..."
    ensures r.Some? && |lastMessage.value| >= 30 ==> r.value[..30] == lastMessage.value[..30]
  {
    if Truthy(lastMessage) then Some(Ellipsis(lastMessage.value, 30)) else None
  }

  function ConversationItemOf(c: Conversation, current: Option<Conversation>, userId: string): ConversationItem {
    var other := OtherParticipant(c.participants, userId);
    ConversationItem(
      OrElse(c.listingTitle, "Listing"),
      OrElse(if other.Some? then other.value.name else None, "User"),
      Preview(c.lastMessage),
      current.Some? && current.value.id == c.id)
  }

  /** `displayConversations`: one item per conversation, in order, showing
      its listing title (default "Listing"), the first other participant's
      name (default "User") and the preview; an item is active exactly when
      it has the current conversation's id. */
  function ConversationItems(s: Session, userId: string): (r: seq<ConversationItem>)
    ensures |r| == |s.conversations|
    ensures forall i :: 0 <= i < |r| ==>
      (r[i].active <==> s.current.Some? && s.current.value.id == s.conversations[i].id)
    ensures forall i :: 0 <= i < |r| ==> (r[i].preview.Some? <==> Truthy(s.conversations[i].lastMessage))
    ensures forall i :: 0 <= i < |r| ==> r[i].preview == Preview(s.conversations[i].lastMessage)
    ensures forall i :: 0 <= i < |r| ==> r[i].title == OrElse(s.conversations[i].listingTitle, "Listing")
    ensures forall i :: 0 <= i < |r| ==>
      var other := OtherParticipant(s.conversations[i].participants, userId);
      other.Some? && Truthy(other.value.name) ==> r[i].otherName == other.value.name.value
    ensures forall i :: 0 <= i < |r| ==>
      var other := OtherParticipant(s.conversations[i].participants, userId);
      !(other.Some? && Truthy(other.value.name)) ==> r[i].otherName == "User"
  {
    seq(|s.conversations|, i requires 0 <= i < |s.conversations| =>
      ConversationItemOf(s.conversations[i], s.current, userId))
  }

  predicate DistinctIds(cs: seq<Conversation>) {
    forall i, j :: 0 <= i < j < |cs| ==> cs[i].id != cs[j].id
  }

  /** With distinct ids, a successful selection marks exactly one item
      active: the selected one. */
  lemma SelectionMarksOneItem(p: Page, id: string, reply: Reply<seq<Message>>, userId: string)
    requires DistinctIds(p.session.conversations)
    requires FindConversation(p.session.conversations, id).Some?
    ensures var k := FindConversation(p.session.conversations, id).value;
      var items := ConversationItems(SelectConversation(p, id, reply).page.session, userId);
      forall i :: 0 <= i < |items| ==> (items[i].active <==> i == k)
  {
  }

  datatype Header = Header(title: string, subtitle: string)

  /** The chat header of `selectConversation`: the listing title (default
      "Conversation") and "Chatting with" the first other participant's name
      (default "User"). */
  function ChatHeader(c: Conversation, userId: string): (h: Header)
    ensures Truthy(c.listingTitle) ==> h.title == c.listingTitle.value
    ensures !Truthy(c.listingTitle) ==> h.title == "Conversation"
    ensures var other := OtherParticipant(c.participants, userId);
      other.Some? && Truthy(other.value.name) ==> h.subtitle == "Chatting with " + other.value.name.value
    ensures var other := OtherParticipant(c.participants, userId);
      !(other.Some? && Truthy(other.value.name)) ==> h.subtitle == "Chatting with User"
    ensures h.title != "" && |h.subtitle| > 14
    ensures h.subtitle[..14] == "Chatting with "
  {
    var other := OtherParticipant(c.participants, userId);
    Header(OrElse(c.listingTitle, "Conversation"),
           "Chatting with " + OrElse(if other.Some? then other.value.name else None, "User"))
  }

  /** In a chat between two people each side's header names the other one,
      or "User" when that person has no name. */
  lemma TwoPersonHeader(c: Conversation, a: Participant, b: Participant)
    requires c.participants == [a, b] && a.id != b.id
    ensures ChatHeader(c, b.id).subtitle == "Chatting with " + OrElse(a.name, "User")
    ensures ChatHeader(c, a.id).subtitle == "Chatting with " + OrElse(b.name, "User")
  {
    assert c.participants[1..] == [b];
    assert OtherParticipant(c.participants[1..], a.id) == Some(b);
  }

  datatype Bubble = Bubble(sent: bool, senderName: Option<string>, text: string)

  datatype MessagesView = Placeholder | Bubbles(bubbles: seq<Bubble>)

  const PlaceholderText := "No messages yet. Start the conversation!"

  /** `displayMessages`: the placeholder for no messages, otherwise one
      bubble per message, sent exactly when its sender is the user, with the
      sender's name (rendered as-is, so a missing one prints "undefined")
      only on received bubbles. */
  function RenderMessages(ms: seq<Message>, userId: string): (v: MessagesView)
    ensures v.Placeholder? <==> |ms| == 0
    ensures v.Bubbles? ==> |v.bubbles| == |ms|
    ensures v.Bubbles? ==> forall i :: 0 <= i < |ms| ==>
      && (v.bubbles[i].sent <==> ms[i].sender.id == userId)
      && (v.bubbles[i].senderName.Some? <==> !v.bubbles[i].sent)
      && v.bubbles[i].text == ms[i].text
  {
    if |ms| == 0 then Placeholder
    else Bubbles(seq(|ms|, i requires 0 <= i < |ms| =>
      var sent := ms[i].sender.id == userId;
      Bubble(sent, if sent then None else Some(ms[i].sender.name.GetOr("undefined")), ms[i].text)))
  }
}
