// The browser's chat store: every action takes the old state to a new one.
module ChatStore {
  import opened Prelude

  type Time = int

  datatype LastMessage = LastMessage(id: string, body: string, senderId: string, createdAt: Time)

  datatype Conversation = Conversation(id: string, updatedAt: Time, unreadCount: nat, lastMessage: Option<LastMessage>)

  datatype Message = Message(id: string, conversationId: string, senderId: string, body: string, createdAt: Time)

  type Lists = map<string, seq<Message>>

  datatype Store = Store(
    conversations: seq<Conversation>,
    totalUnread: nat,
    viewingConversationId: Option<string>,
    messages: Lists,
    hasMore: map<string, bool>,
    cursors: map<string, Option<string>>)

  const INITIAL := Store([], 0, None, map[], map[], map[])

  datatype Action =
    | SetConversations(conversations: seq<Conversation>)
    | UpsertConversation(conversation: Conversation)
    | SetViewing(viewing: Option<string>)
    | SetMessages(conversationId: string, messages: seq<Message>, hasMore: bool, cursor: Option<string>)
    | PrependMessages(conversationId: string, messages: seq<Message>, hasMore: bool, cursor: Option<string>)
    | AppendMessage(message: Message, currentUserId: Option<string>)
    | RemoveMessage(conversationId: string, messageId: string)
    | ClearUnread(conversationId: string)
    | Reset

  // ── Lists ──

  function SumUnread(s: seq<Conversation>): nat {
    if s == [] then 0 else s[0].unreadCount + SumUnread(s[1..])
  }

  // Before the first conversation that was not updated later.
  function Insert(c: Conversation, s: seq<Conversation>): seq<Conversation> {
    if s == [] || s[0].updatedAt <= c.updatedAt then [c] + s else [s[0]] + Insert(c, s[1..])
  }

  // The stable sort, newest first.
  function SortByUpdatedAt(s: seq<Conversation>): seq<Conversation> {
    if s == [] then [] else Insert(s[0], SortByUpdatedAt(s[1..]))
  }

  predicate HasConversation(s: seq<Conversation>, id: string) {
    exists i :: 0 <= i < |s| && s[i].id == id
  }

  function Find(s: seq<Conversation>, id: string): (c: Option<Conversation>)
    ensures c.None? <==> !HasConversation(s, id)
    ensures c.Some? ==> c.value in s && c.value.id == id
  {
    if s == [] then None else if s[0].id == id then Some(s[0])
    else
      var rest := Find(s[1..], id);
      assert rest.Some? ==> rest.value in s[1..];
      assert HasConversation(s, id) <==> HasConversation(s[1..], id) by {
        if HasConversation(s, id) { var i :| 0 <= i < |s| && s[i].id == id; assert s[1..][i - 1].id == id; }
        if HasConversation(s[1..], id) { var i :| 0 <= i < |s[1..]| && s[1..][i].id == id; assert s[i + 1].id == id; }
      }
      rest
  }

  // Every conversation of that id replaced.
  function Replace(s: seq<Conversation>, c: Conversation): (r: seq<Conversation>)
    ensures |r| == |s| && forall i :: 0 <= i < |s| ==> r[i] == if s[i].id == c.id then c else s[i]
  {
    seq(|s|, i requires 0 <= i < |s| => if s[i].id == c.id then c else s[i])
  }

  function Cleared(s: seq<Conversation>, id: string): (r: seq<Conversation>)
    ensures |r| == |s| && forall i :: 0 <= i < |s| ==> r[i] == if s[i].id == id then s[i].(unreadCount := 0) else s[i]
  {
    seq(|s|, i requires 0 <= i < |s| => if s[i].id == id then s[i].(unreadCount := 0) else s[i])
  }

  predicate HasMessage(s: seq<Message>, id: string) {
    exists i :: 0 <= i < |s| && s[i].id == id
  }

  function Without(s: seq<Message>, id: string): seq<Message> {
    if s == [] then [] else if s[0].id == id then Without(s[1..], id) else [s[0]] + Without(s[1..], id)
  }

  // The messages whose ids the existing ones do not have.
  function Missing(s: seq<Message>, existing: seq<Message>): seq<Message> {
    if s == [] then []
    else if HasMessage(existing, s[0].id) then Missing(s[1..], existing)
    else [s[0]] + Missing(s[1..], existing)
  }

  // ── Actions ──

  function MessagesOf(lists: Lists, id: string): seq<Message> {
    if id in lists then lists[id] else []
  }

  // A conversation after one of its messages: showing it, with one more unread unless the user is looking at the
  // conversation or wrote the message.
  function Bumped(c: Conversation, viewing: Option<string>, message: Message, currentUserId: Option<string>): Conversation {
    var quiet := viewing == Some(message.conversationId) || Some(message.senderId) == currentUserId;
    Conversation(c.id, message.createdAt, if quiet then c.unreadCount else c.unreadCount + 1,
                 Some(LastMessage(message.id, message.body, message.senderId, message.createdAt)))
  }

  // The conversation list after a message; None when its conversation is not in the list.
  function Noted(conversations: seq<Conversation>, viewing: Option<string>, message: Message, currentUserId: Option<string>)
    : Option<seq<Conversation>>
  {
    match Find(conversations, message.conversationId)
    case None => None
    case Some(c) => Some(SortByUpdatedAt(Replace(conversations, Bumped(c, viewing, message, currentUserId))))
  }

  function Append(s: Store, message: Message, currentUserId: Option<string>): Store {
    var id := message.conversationId;
    var list := MessagesOf(s.messages, id);
    if HasMessage(list, message.id) then s
    else
      var s' := s.(messages := s.messages[id := list + [message]]);
      match Noted(s.conversations, s.viewingConversationId, message, currentUserId)
      case None => s'
      case Some(conversations) => s'.(conversations := conversations, totalUnread := SumUnread(conversations))
  }

  function Apply(s: Store, a: Action): Store {
    match a
    case SetConversations(conversations) =>
      var sorted := SortByUpdatedAt(conversations);
      s.(conversations := sorted, totalUnread := SumUnread(sorted))
    case UpsertConversation(conversation) =>
      var sorted := SortByUpdatedAt(if HasConversation(s.conversations, conversation.id)
                                    then Replace(s.conversations, conversation)
                                    else s.conversations + [conversation]);
      s.(conversations := sorted, totalUnread := SumUnread(sorted))
    case SetViewing(viewing) => s.(viewingConversationId := viewing)
    case SetMessages(id, messages, hasMore, cursor) =>
      s.(messages := s.messages[id := messages], hasMore := s.hasMore[id := hasMore], cursors := s.cursors[id := cursor])
    case PrependMessages(id, messages, hasMore, cursor) =>
      var existing := MessagesOf(s.messages, id);
      s.(messages := s.messages[id := Missing(messages, existing) + existing],
         hasMore := s.hasMore[id := hasMore], cursors := s.cursors[id := cursor])
    case AppendMessage(message, currentUserId) => Append(s, message, currentUserId)
    case RemoveMessage(id, messageId) => s.(messages := s.messages[id := Without(MessagesOf(s.messages, id), messageId)])
    case ClearUnread(id) =>
      var conversations := Cleared(s.conversations, id);
      s.(conversations := conversations, totalUnread := SumUnread(conversations))
    case Reset => INITIAL
  }

  function Run(s: Store, actions: seq<Action>): Store
    decreases |actions|
  {
    if actions == [] then s else Run(Apply(s, actions[0]), actions[1..])
  }

  // ── What every run keeps ──

  ghost predicate NewestFirst(s: seq<Conversation>) {
    forall i, j :: 0 <= i < j < |s| ==> s[j].updatedAt <= s[i].updatedAt
  }

  ghost predicate UniqueConversations(s: seq<Conversation>) {
    forall i, j :: 0 <= i < j < |s| ==> s[i].id != s[j].id
  }

  ghost predicate UniqueMessages(s: seq<Message>) {
    forall i, j :: 0 <= i < j < |s| ==> s[i].id != s[j].id
  }

  ghost predicate ListsOk(s: Store) {
    s.totalUnread == SumUnread(s.conversations) && NewestFirst(s.conversations) && UniqueConversations(s.conversations)
  }

  ghost predicate MessagesOk(s: Store) {
    forall id :: id in s.messages ==> UniqueMessages(s.messages[id])
  }

  // The lists an action brings along have no duplicates of their own.
  ghost predicate DuplicateFree(a: Action) {
    match a
    case SetConversations(conversations) => UniqueConversations(conversations)
    case SetMessages(_, messages, _, _) => UniqueMessages(messages)
    case PrependMessages(_, messages, _, _) => UniqueMessages(messages)
    case _ => true
  }

  lemma {:induction false} InsertKeeps(c: Conversation, s: seq<Conversation>)
    ensures multiset(Insert(c, s)) == multiset(s) + multiset{c}
  {
    if s != [] && c.updatedAt < s[0].updatedAt {
      InsertKeeps(c, s[1..]);
      assert s == [s[0]] + s[1..];
    }
  }

  lemma {:induction false} InsertAddsUnread(c: Conversation, s: seq<Conversation>)
    ensures SumUnread(Insert(c, s)) == c.unreadCount + SumUnread(s)
  {
    if s != [] && c.updatedAt < s[0].updatedAt {
      InsertAddsUnread(c, s[1..]);
      assert Insert(c, s)[1..] == Insert(c, s[1..]);
    } else {
      assert Insert(c, s)[1..] == s;
    }
  }

  lemma InsertedIs(c: Conversation, s: seq<Conversation>)
    ensures forall x :: x in Insert(c, s) ==> x == c || x in s
  {
    InsertKeeps(c, s);
    forall x | x in Insert(c, s) ensures x == c || x in s { assert x in multiset(Insert(c, s)); }
  }

  lemma {:induction false} InsertKeepsOrder(c: Conversation, s: seq<Conversation>)
    requires NewestFirst(s)
    ensures NewestFirst(Insert(c, s))
  {
    if s != [] && c.updatedAt < s[0].updatedAt {
      InsertKeepsOrder(c, s[1..]);
      InsertedIs(c, s[1..]);
      assert forall x :: x in s[1..] ==> x.updatedAt <= s[0].updatedAt;
      var r := Insert(c, s[1..]);
      assert forall i :: 0 <= i < |r| ==> r[i] in r;
    }
  }

  lemma {:induction false} SortKeeps(s: seq<Conversation>)
    ensures multiset(SortByUpdatedAt(s)) == multiset(s)
    ensures SumUnread(SortByUpdatedAt(s)) == SumUnread(s)
    ensures NewestFirst(SortByUpdatedAt(s))
  {
    hide Insert;
    if s != [] {
      SortKeeps(s[1..]);
      InsertKeeps(s[0], SortByUpdatedAt(s[1..]));
      InsertAddsUnread(s[0], SortByUpdatedAt(s[1..]));
      InsertKeepsOrder(s[0], SortByUpdatedAt(s[1..]));
      assert s == [s[0]] + s[1..];
    }
  }

  function UpdatedAt(s: seq<Conversation>, t: Time): seq<Conversation> {
    if s == [] then [] else (if s[0].updatedAt == t then [s[0]] else []) + UpdatedAt(s[1..], t)
  }

  // Conversations updated at one instant keep their order.
  lemma {:induction false} SortIsStable(s: seq<Conversation>, t: Time)
    ensures UpdatedAt(SortByUpdatedAt(s), t) == UpdatedAt(s, t)
  {
    if s != [] {
      SortIsStable(s[1..], t);
      SortKeeps(s[1..]);
      InsertIsStable(s[0], SortByUpdatedAt(s[1..]), t);
    }
  }

  lemma {:induction false} InsertIsStable(c: Conversation, s: seq<Conversation>, t: Time)
    ensures UpdatedAt(Insert(c, s), t) == (if c.updatedAt == t then [c] else []) + UpdatedAt(s, t)
  {
    if s != [] && c.updatedAt < s[0].updatedAt {
      InsertIsStable(c, s[1..], t);
      ConsUpdatedAt(s[0], Insert(c, s[1..]), t);
    } else {
      ConsUpdatedAt(c, s, t);
    }
  }

  lemma ConsUpdatedAt(c: Conversation, s: seq<Conversation>, t: Time)
    ensures UpdatedAt([c] + s, t) == (if c.updatedAt == t then [c] else []) + UpdatedAt(s, t)
  {
    assert ([c] + s)[1..] == s;
  }

  lemma {:induction false} InsertKeepsUnique(c: Conversation, s: seq<Conversation>)
    requires UniqueConversations(s) && forall x :: x in s ==> x.id != c.id
    ensures UniqueConversations(Insert(c, s))
  {
    if s != [] && c.updatedAt < s[0].updatedAt {
      InsertKeepsUnique(c, s[1..]);
      InsertedIs(c, s[1..]);
      assert forall x :: x in s[1..] ==> x.id != s[0].id;
      var r := Insert(c, s[1..]);
      assert forall i :: 0 <= i < |r| ==> r[i] in r;
    }
  }

  lemma {:induction false} SortKeepsUnique(s: seq<Conversation>)
    requires UniqueConversations(s)
    ensures UniqueConversations(SortByUpdatedAt(s))
  {
    if s != [] {
      SortKeepsUnique(s[1..]);
      SortKeeps(s[1..]);
      var r := SortByUpdatedAt(s[1..]);
      forall x | x in r ensures x.id != s[0].id {
        assert x in multiset(r);
        assert x in s[1..];
      }
      InsertKeepsUnique(s[0], r);
    }
  }

  // A sorted list is consistent when the list it came from has distinct ids.
  lemma SortedIsOk(list: seq<Conversation>)
    requires UniqueConversations(list)
    ensures NewestFirst(SortByUpdatedAt(list)) && UniqueConversations(SortByUpdatedAt(list))
  {
    SortKeeps(list);
    SortKeepsUnique(list);
  }

  lemma UpsertedIsUnique(s: seq<Conversation>, c: Conversation)
    requires UniqueConversations(s)
    ensures UniqueConversations(Replace(s, c)) && (!HasConversation(s, c.id) ==> UniqueConversations(s + [c]))
  {
  }

  lemma ClearedIsOk(s: seq<Conversation>, id: string)
    requires NewestFirst(s) && UniqueConversations(s)
    ensures NewestFirst(Cleared(s, id)) && UniqueConversations(Cleared(s, id))
  {
  }

  lemma ListsStep(s: Store, a: Action)
    requires ListsOk(s) && (a.SetConversations? ==> UniqueConversations(a.conversations))
    ensures ListsOk(Apply(s, a))
  {
    if a.AppendMessage? {
      AppendKeepsLists(s, a.message, a.currentUserId);
    } else if a != Reset {
      hide NewestFirst, UniqueConversations, SumUnread, SortByUpdatedAt, HasConversation, Without, Missing;
      if a.SetConversations? { SortedIsOk(a.conversations); }
      if a.ClearUnread? { ClearedIsOk(s.conversations, a.conversationId); }
      if a.UpsertConversation? {
        UpsertedIsUnique(s.conversations, a.conversation);
        SortedIsOk(if HasConversation(s.conversations, a.conversation.id) then Replace(s.conversations, a.conversation)
                   else s.conversations + [a.conversation]);
      }
    }
  }

  lemma NotedIs(s: seq<Conversation>, viewing: Option<string>, message: Message, currentUserId: Option<string>)
    requires UniqueConversations(s) && HasConversation(s, message.conversationId)
    ensures var noted := Noted(s, viewing, message, currentUserId);
            var bumped := Bumped(Find(s, message.conversationId).value, viewing, message, currentUserId);
            && noted.Some? && NewestFirst(noted.value) && UniqueConversations(noted.value)
            && HasConversation(noted.value, message.conversationId)
            && (forall c :: c in noted.value && c.id == message.conversationId ==> c == bumped)
            && (forall c: Conversation :: c.id != message.conversationId ==> (c in noted.value <==> c in s))
  {
    hide SortByUpdatedAt, NewestFirst, UniqueConversations, Replace, HasConversation, Find;
    var updated := Bumped(Find(s, message.conversationId).value, viewing, message, currentUserId);
    UpsertedIsUnique(s, updated);
    SortedIsOk(Replace(s, updated));
    ReplacedIs(s, updated);
    SortedMembers(Replace(s, updated));
    MemberIsHad(SortByUpdatedAt(Replace(s, updated)), updated);
  }

  lemma MemberIsHad(s: seq<Conversation>, c: Conversation)
    requires c in s
    ensures HasConversation(s, c.id)
  {
  }

  lemma ReplacedIs(s: seq<Conversation>, updated: Conversation)
    requires HasConversation(s, updated.id)
    ensures updated in Replace(s, updated)
    ensures forall c :: c in Replace(s, updated) && c.id == updated.id ==> c == updated
    ensures forall c: Conversation :: c.id != updated.id ==> (c in Replace(s, updated) <==> c in s)
  {
    var list := Replace(s, updated);
    var k :| 0 <= k < |s| && s[k].id == updated.id;
    assert list[k] == updated;
    forall c: Conversation | c.id != updated.id ensures c in list <==> c in s {
      if c in s {
        var i :| 0 <= i < |s| && s[i] == c;
        assert list[i] == c;
      }
    }
  }

  lemma SortedMembers(s: seq<Conversation>)
    ensures forall c :: c in SortByUpdatedAt(s) <==> c in s
  {
    SortKeeps(s);
    forall c ensures c in SortByUpdatedAt(s) <==> c in s {
      assert c in SortByUpdatedAt(s) <==> c in multiset(SortByUpdatedAt(s));
    }
  }

  lemma AppendKeepsLists(s: Store, message: Message, currentUserId: Option<string>)
    requires ListsOk(s)
    ensures ListsOk(Append(s, message, currentUserId))
  {
    if HasConversation(s.conversations, message.conversationId) {
      NotedIs(s.conversations, s.viewingConversationId, message, currentUserId);
      hide Noted, NewestFirst, UniqueConversations, SumUnread;
    }
  }

  lemma {:induction false} WithoutIs(s: seq<Message>, id: string)
    ensures forall x :: x in Without(s, id) <==> x in s && x.id != id
    ensures UniqueMessages(s) ==> UniqueMessages(Without(s, id))
  {
    if s != [] { WithoutIs(s[1..], id); }
  }

  lemma {:induction false} MissingIs(s: seq<Message>, existing: seq<Message>)
    ensures forall x :: x in Missing(s, existing) <==> x in s && !HasMessage(existing, x.id)
    ensures UniqueMessages(s) ==> UniqueMessages(Missing(s, existing))
  {
    if s != [] {
      hide HasMessage;
      MissingIs(s[1..], existing);
    }
  }

  lemma MessagesStep(s: Store, a: Action)
    requires MessagesOk(s) && DuplicateFree(a)
    ensures MessagesOk(Apply(s, a))
  {
    match a
    case PrependMessages(id, messages, _, _) =>
      var existing := MessagesOf(s.messages, id);
      MissingIs(messages, existing);
      var fresh_ := Missing(messages, existing);
      forall i, j | 0 <= i < |fresh_| && 0 <= j < |existing| ensures fresh_[i].id != existing[j].id {
        assert fresh_[i] in fresh_;
      }
    case RemoveMessage(id, messageId) =>
      WithoutIs(MessagesOf(s.messages, id), messageId);
    case _ =>
  }

  // Over any sequence of actions whose own lists have no duplicates: the badge is the sum of the unread counts, the
  // conversations are sorted newest first and have distinct ids, and no conversation shows a message id twice.
  lemma {:induction false} StoreStaysConsistent(actions: seq<Action>, s: Store)
    requires ListsOk(s) && MessagesOk(s) && forall i :: 0 <= i < |actions| ==> DuplicateFree(actions[i])
    ensures ListsOk(Run(s, actions)) && MessagesOk(Run(s, actions))
    decreases |actions|
  {
    hide ListsOk, MessagesOk, UniqueConversations, UniqueMessages, Apply;
    if actions != [] {
      ListsStep(s, actions[0]);
      MessagesStep(s, actions[0]);
      StoreStaysConsistent(actions[1..], Apply(s, actions[0]));
    }
  }

  lemma EveryRunIsConsistent(actions: seq<Action>)
    requires forall i :: 0 <= i < |actions| ==> DuplicateFree(actions[i])
    ensures ListsOk(Run(INITIAL, actions)) && MessagesOk(Run(INITIAL, actions))
  {
    StoreStaysConsistent(actions, INITIAL);
  }

  // ── Unread counts ──

  function UnreadOf(s: Store, id: string): nat {
    match Find(s.conversations, id)
    case None => 0
    case Some(c) => c.unreadCount
  }

  // A message of the conversation that the store does not have yet, from somebody else, while it is not being viewed.
  predicate Arrives(s: Store, a: Action, id: string) {
    && a.AppendMessage? && a.message.conversationId == id && !HasMessage(MessagesOf(s.messages, id), a.message.id)
    && s.viewingConversationId != Some(id) && Some(a.message.senderId) != a.currentUserId
  }

  // The action leaves the counts to what arrives.
  predicate LeavesCounts(a: Action, id: string) {
    !a.SetConversations? && !a.UpsertConversation? && !a.Reset? && a != ClearUnread(id)
  }

  function Arrivals(s: Store, actions: seq<Action>, id: string): nat
    decreases |actions|
  {
    if actions == [] then 0 else (if Arrives(s, actions[0], id) then 1 else 0) + Arrivals(Apply(s, actions[0]), actions[1..], id)
  }

  lemma {:induction false} FindIs(s: seq<Conversation>, c: Conversation)
    requires UniqueConversations(s) && c in s
    ensures Find(s, c.id) == Some(c)
  {
    var found := Find(s, c.id);
    var i :| 0 <= i < |s| && s[i] == c;
    assert s[i].id == c.id;
    var j :| 0 <= j < |s| && s[j] == found.value;
    assert i == j;
  }

  lemma UnreadAfterAppend(s: Store, message: Message, currentUserId: Option<string>, id: string)
    requires UniqueConversations(s.conversations) && HasConversation(s.conversations, id)
    ensures var after := Append(s, message, currentUserId);
            && HasConversation(after.conversations, id)
            && UnreadOf(after, id) == UnreadOf(s, id) + if Arrives(s, AppendMessage(message, currentUserId), id) then 1 else 0
  {
    hide Noted, Find, UniqueConversations, NewestFirst, HasMessage, SumUnread;
    var after := Append(s, message, currentUserId);
    var c := Find(s.conversations, id).value;
    FindIs(s.conversations, c);
    if HasConversation(s.conversations, message.conversationId) {
      NotedIs(s.conversations, s.viewingConversationId, message, currentUserId);
      var list := Noted(s.conversations, s.viewingConversationId, message, currentUserId).value;
      if id == message.conversationId {
        FindIs(list, Find(list, id).value);
      } else {
        FindIs(list, c);
      }
    } else {
      UnknownIsNotNoted(s.conversations, s.viewingConversationId, message, currentUserId);
    }
  }

  lemma UnknownIsNotNoted(s: seq<Conversation>, viewing: Option<string>, message: Message, currentUserId: Option<string>)
    requires !HasConversation(s, message.conversationId)
    ensures Noted(s, viewing, message, currentUserId).None?
  {
  }

  lemma ClearedIs(s: seq<Conversation>, cleared: string, c: Conversation)
    requires UniqueConversations(s) && c in s
    ensures UniqueConversations(Cleared(s, cleared))
    ensures (if c.id == cleared then c.(unreadCount := 0) else c) in Cleared(s, cleared)
  {
    var i :| 0 <= i < |s| && s[i] == c;
    assert Cleared(s, cleared)[i] == if c.id == cleared then c.(unreadCount := 0) else c;
  }

  lemma UnreadAfterClear(s: Store, cleared: string, id: string)
    requires UniqueConversations(s.conversations) && HasConversation(s.conversations, id)
    ensures var after := Apply(s, ClearUnread(cleared));
            HasConversation(after.conversations, id) && UnreadOf(after, id) == if cleared == id then 0 else UnreadOf(s, id)
  {
    hide Find, Cleared, UniqueConversations, HasConversation, SumUnread;
    var c := Find(s.conversations, id).value;
    ClearedIs(s.conversations, cleared, c);
    FindIs(Cleared(s.conversations, cleared), if c.id == cleared then c.(unreadCount := 0) else c);
  }

  // As long as only messages come and go, the unread count of a conversation grows by exactly the messages that arrive
  // from others while it is not being viewed, each counted once; clearing sets it to zero and touches no other.
  lemma {:induction false} UnreadCountsArrivals(s: Store, actions: seq<Action>, id: string)
    requires ListsOk(s) && HasConversation(s.conversations, id)
    requires forall i :: 0 <= i < |actions| ==> LeavesCounts(actions[i], id)
    ensures UnreadOf(Run(s, actions), id) == UnreadOf(s, id) + Arrivals(s, actions, id)
    ensures UnreadOf(Apply(s, ClearUnread(id)), id) == 0
    decreases |actions|
  {
    UnreadAfterClear(s, id, id);
    if actions != [] {
      var a := actions[0];
      UnreadStep(s, a, id);
      hide ListsOk, Apply, LeavesCounts, HasConversation, UnreadOf, Arrives;
      UnreadCountsArrivals(Apply(s, a), actions[1..], id);
    }
  }

  lemma UnreadStep(s: Store, a: Action, id: string)
    requires ListsOk(s) && HasConversation(s.conversations, id) && LeavesCounts(a, id)
    ensures HasConversation(Apply(s, a).conversations, id) && ListsOk(Apply(s, a))
    ensures UnreadOf(Apply(s, a), id) == UnreadOf(s, id) + if Arrives(s, a, id) then 1 else 0
  {
    hide SumUnread, NewestFirst, UniqueConversations, HasConversation, Find, HasMessage, Append, Cleared;
    ListsStep(s, a);
    match a
    case AppendMessage(message, currentUserId) => UnreadAfterAppend(s, message, currentUserId, id);
    case ClearUnread(other) => UnreadAfterClear(s, other, id);
    case _ =>
  }

  // ── Loading older pages ──

  lemma {:induction false} MissingConcat(s: seq<Message>, t: seq<Message>, existing: seq<Message>)
    ensures Missing(s + t, existing) == Missing(s, existing) + Missing(t, existing)
  {
    hide HasMessage;
    if s == [] {
      assert s + t == t;
    } else {
      assert (s + t)[1..] == s[1..] + t;
      MissingConcat(s[1..], t, existing);
    }
  }

  lemma {:induction false} MissingAllOrNone(s: seq<Message>, existing: seq<Message>)
    ensures (forall x :: x in s ==> !HasMessage(existing, x.id)) ==> Missing(s, existing) == s
    ensures (forall x :: x in s ==> HasMessage(existing, x.id)) ==> Missing(s, existing) == []
  {
    hide HasMessage;
    if s != [] {
      MissingAllOrNone(s[1..], existing);
      assert s == [s[0]] + s[1..];
    }
  }

  // Prepending an older page of a history, which may overlap what is already shown, shows the history from the start of
  // that page on, without a gap and without a repetition.
  lemma OlderPagesJoin(s: Store, id: string, history: seq<Message>, first: nat, end: nat, shown: nat, hasMore: bool, cursor: Option<string>)
    requires first <= shown <= end <= |history| && UniqueMessages(history)
    requires MessagesOf(s.messages, id) == history[shown..]
    ensures MessagesOf(Apply(s, PrependMessages(id, history[first..end], hasMore, cursor)).messages, id) == history[first..]
  {
    hide Missing, HasMessage, UniqueMessages;
    var existing := history[shown..];
    NotShownYet(history, first, shown);
    AlreadyShown(history, shown, end);
    MissingAllOrNone(history[first..shown], existing);
    MissingAllOrNone(history[shown..end], existing);
    MissingConcat(history[first..shown], history[shown..end], existing);
    Cuts(history, first, shown, end);
  }

  lemma Cuts(history: seq<Message>, first: nat, shown: nat, end: nat)
    requires first <= shown <= end <= |history|
    ensures history[first..end] == history[first..shown] + history[shown..end]
    ensures history[first..] == history[first..shown] + history[shown..]
  {
  }

  lemma NotShownYet(history: seq<Message>, first: nat, shown: nat)
    requires first <= shown <= |history| && UniqueMessages(history)
    ensures forall x :: x in history[first..shown] ==> !HasMessage(history[shown..], x.id)
  {
    forall x | x in history[first..shown] ensures !HasMessage(history[shown..], x.id) {
      var i :| first <= i < shown && history[i] == x;
      forall k | 0 <= k < |history[shown..]| ensures history[shown..][k].id != x.id {
        assert history[shown..][k] == history[shown + k];
      }
    }
  }

  lemma AlreadyShown(history: seq<Message>, shown: nat, end: nat)
    requires shown <= end <= |history|
    ensures forall x :: x in history[shown..end] ==> HasMessage(history[shown..], x.id)
  {
    forall x | x in history[shown..end] ensures HasMessage(history[shown..], x.id) {
      var i :| shown <= i < end && history[i] == x;
      assert history[shown..][i - shown] == x;
    }
  }

  // ── Optimistic sends ──

  // The state as if one message of one conversation had never been shown.
  function Hiding(s: Store, conversationId: string, id: string): Store {
    s.(messages := HiddenIn(s.messages, conversationId, id))
  }

  function HiddenIn(lists: Lists, conversationId: string, id: string): Lists {
    if conversationId in lists then lists[conversationId := Without(lists[conversationId], id)] else lists
  }

  // The action says nothing about the message.
  predicate Ignores(a: Action, id: string) {
    match a
    case SetMessages(_, messages, _, _) => !HasMessage(messages, id)
    case PrependMessages(_, messages, _, _) => !HasMessage(messages, id)
    case AppendMessage(message, _) => message.id != id
    case RemoveMessage(_, messageId) => messageId != id
    case _ => true
  }

  lemma {:induction false} WithoutConcat(s: seq<Message>, t: seq<Message>, id: string)
    ensures Without(s + t, id) == Without(s, id) + Without(t, id)
  {
    if s == [] {
      assert s + t == t;
    } else {
      assert (s + t)[1..] == s[1..] + t;
      WithoutConcat(s[1..], t, id);
    }
  }

  lemma {:induction false} WithoutAbsent(s: seq<Message>, id: string)
    requires !HasMessage(s, id)
    ensures Without(s, id) == s
  {
    if s != [] {
      assert s[0].id != id;
      assert forall i :: 0 <= i < |s[1..]| ==> s[1..][i] == s[i + 1];
      WithoutAbsent(s[1..], id);
    }
  }

  lemma {:induction false} WithoutCommutes(s: seq<Message>, id: string, other: string)
    ensures Without(Without(s, id), other) == Without(Without(s, other), id)
  {
    if s != [] {
      WithoutCommutes(s[1..], id, other);
      var a, b := Without(s[1..], id), Without(s[1..], other);
      assert ([s[0]] + a)[1..] == a && ([s[0]] + b)[1..] == b;
    }
  }

  lemma HasInWithout(s: seq<Message>, id: string, other: string)
    requires id != other
    ensures HasMessage(Without(s, id), other) <==> HasMessage(s, other)
  {
    WithoutIs(s, id);
    HasIsIn(s, other);
    HasIsIn(Without(s, id), other);
  }

  lemma HasIsIn(s: seq<Message>, id: string)
    ensures HasMessage(s, id) <==> exists x :: x in s && x.id == id
  {
  }

  lemma {:induction false} MissingAgain(s: seq<Message>, existing: seq<Message>, id: string)
    requires !HasMessage(s, id)
    ensures Missing(s, Without(existing, id)) == Missing(s, existing) && !HasMessage(Missing(s, existing), id)
  {
    if s != [] {
      assert s[0].id != id;
      assert forall i :: 0 <= i < |s[1..]| ==> s[1..][i] == s[i + 1];
      MissingAgain(s[1..], existing, id);
      HasInWithout(existing, id, s[0].id);
    }
  }

  lemma NoneWithout(id: string)
    ensures Without([], id) == []
  {
  }

  lemma HiddenList(lists: Lists, conversationId: string, id: string, key: string)
    ensures MessagesOf(HiddenIn(lists, conversationId, id), key)
         == if key == conversationId then Without(MessagesOf(lists, key), id) else MessagesOf(lists, key)
  {
    NoneWithout(id);
  }

  // Putting a list and hiding the message from it.
  lemma HiddenPut(lists: Lists, conversationId: string, id: string, key: string, list: seq<Message>)
    ensures HiddenIn(lists[key := list], conversationId, id)
         == HiddenIn(lists, conversationId, id)[key := if key == conversationId then Without(list, id) else list]
  {
    hide Without;
  }

  // Hiding a message commutes with every action that says nothing about it.
  lemma HidingStep(s: Store, a: Action, conversationId: string, id: string)
    requires Ignores(a, id)
    ensures Apply(Hiding(s, conversationId, id), a) == Hiding(Apply(s, a), conversationId, id)
  {
    hide Append, SortByUpdatedAt, SumUnread, HasMessage, Without, Missing, HasConversation, HiddenIn, MessagesOf;
    match a
    case SetMessages(c, messages, _, _) =>
      HiddenPut(s.messages, conversationId, id, c, messages);
      WithoutAbsent(messages, id);
    case PrependMessages(c, messages, _, _) =>
      var existing := MessagesOf(s.messages, c);
      HiddenList(s.messages, conversationId, id, c);
      HiddenPut(s.messages, conversationId, id, c, Missing(messages, existing) + existing);
      MissingAgain(messages, existing, id);
      WithoutConcat(Missing(messages, existing), existing, id);
      WithoutAbsent(Missing(messages, existing), id);
    case AppendMessage(message, currentUserId) =>
      HidingAppend(s, message, currentUserId, conversationId, id);
    case RemoveMessage(c, messageId) =>
      HiddenList(s.messages, conversationId, id, c);
      HiddenPut(s.messages, conversationId, id, c, Without(MessagesOf(s.messages, c), messageId));
      WithoutCommutes(MessagesOf(s.messages, c), id, messageId);
    case Reset =>
      assert HiddenIn(map[], conversationId, id) == map[] by { NothingHidden(conversationId, id); }
    case _ =>
  }

  lemma NothingHidden(conversationId: string, id: string)
    ensures HiddenIn(map[], conversationId, id) == map[]
  {
  }

  lemma WithoutOther(message: Message, id: string)
    requires message.id != id
    ensures Without([message], id) == [message]
  {
    WithoutAbsent([message], id);
  }

  lemma HidingAppend(s: Store, message: Message, currentUserId: Option<string>, conversationId: string, id: string)
    requires message.id != id
    ensures Append(Hiding(s, conversationId, id), message, currentUserId)
         == Hiding(Append(s, message, currentUserId), conversationId, id)
  {
    hide Noted, SumUnread, HasMessage, Without, HiddenIn, MessagesOf;
    var list := MessagesOf(s.messages, message.conversationId);
    HiddenList(s.messages, conversationId, id, message.conversationId);
    HiddenPut(s.messages, conversationId, id, message.conversationId, list + [message]);
    HasInWithout(list, id, message.id);
    WithoutConcat(list, [message], id);
    WithoutOther(message, id);
  }

  lemma {:induction false} HidingRun(s: Store, actions: seq<Action>, conversationId: string, id: string)
    requires forall i :: 0 <= i < |actions| ==> Ignores(actions[i], id)
    ensures Run(Hiding(s, conversationId, id), actions) == Hiding(Run(s, actions), conversationId, id)
    decreases |actions|
  {
    hide Hiding, Apply, Ignores;
    if actions != [] {
      HidingStep(s, actions[0], conversationId, id);
      HidingRun(Apply(s, actions[0]), actions[1..], conversationId, id);
    }
  }

  // The subscription delivers a message: appended when its conversation is known, otherwise the list is fetched again.
  function Echo(s: Store, saved: Message, userId: Option<string>): Store {
    if HasConversation(s.conversations, saved.conversationId) then Append(s, saved, userId) else s
  }

  // The send succeeded: the saved message takes the place of the temporary one.
  function Reply(s: Store, temp: Message, saved: Message, userId: Option<string>): Store {
    Append(Apply(s, RemoveMessage(temp.conversationId, temp.id)), saved, userId)
  }

  // Removing also starts a list where there is none, which the append that follows does anyway.
  lemma ReplyHides(s: Store, temp: Message, saved: Message, userId: Option<string>)
    requires temp.conversationId == saved.conversationId
    ensures Reply(s, temp, saved, userId) == Append(Hiding(s, temp.conversationId, temp.id), saved, userId)
  {
    hide Noted, SumUnread, HasMessage, Without;
    var c := temp.conversationId;
    NoneWithout(temp.id);
    NobodyHas(saved.id);
    Overwrite(s.messages, c, [], [] + [saved]);
  }

  lemma Overwrite(lists: Lists, id: string, list: seq<Message>, last: seq<Message>)
    ensures lists[id := list][id := last] == lists[id := last]
  {
  }

  lemma NobodyHas(id: string)
    ensures !HasMessage([], id)
  {
  }

  // When the conversation of an optimistic send is known as the echo comes first, whatever else the store is told between
  // echo and reply, the order of the two makes no difference exactly when, with the reply first, the conversation is still
  // known or the saved message still shown as the echo comes.
  lemma EchoAndReplyConfluent(s: Store, temp: Message, saved: Message, userId: Option<string>, between: seq<Action>)
    requires temp.conversationId == saved.conversationId && temp.id != saved.id
    requires forall i :: 0 <= i < |between| ==> Ignores(between[i], temp.id)
    requires HasConversation(Append(s, temp, userId).conversations, saved.conversationId)
    ensures var sent := Append(s, temp, userId);
            var late := Run(Reply(sent, temp, saved, userId), between);
            Reply(Run(Echo(sent, saved, userId), between), temp, saved, userId) == Echo(late, saved, userId) <==>
              || HasConversation(late.conversations, saved.conversationId)
              || HasMessage(MessagesOf(late.messages, saved.conversationId), saved.id)
  {
    var c, sent := temp.conversationId, Append(s, temp, userId);
    var late := Run(Reply(sent, temp, saved, userId), between);
    ChangesExactlyWhenNew(late, saved, userId);
    hide Append, Hiding, Reply, Run, Ignores, HasConversation, HasMessage, MessagesOf;
    ReplyHides(sent, temp, saved, userId);
    HidingAppend(sent, saved, userId, c, temp.id);
    HidingRun(Append(sent, saved, userId), between, c, temp.id);
    ReplyHides(Run(Append(sent, saved, userId), between), temp, saved, userId);
  }

  lemma ChangesExactlyWhenNew(s: Store, message: Message, userId: Option<string>)
    ensures Append(s, message, userId) == s <==> HasMessage(MessagesOf(s.messages, message.conversationId), message.id)
  {
    hide HasMessage, Noted;
    var id := message.conversationId;
    var list := MessagesOf(s.messages, id);
    assert list + [message] != list;
    if !HasMessage(list, message.id) {
      assert MessagesOf(Append(s, message, userId).messages, id) == list + [message];
    }
  }

  lemma AppendKeepsKnown(s: Store, message: Message, userId: Option<string>, id: string)
    ensures HasConversation(Append(s, message, userId).conversations, id) <==> HasConversation(s.conversations, id)
  {
    var found := Find(s.conversations, message.conversationId);
    hide SortByUpdatedAt, SumUnread, HasMessage, Find;
    if found.Some? {
      var list := Replace(s.conversations, Bumped(found.value, s.viewingConversationId, message, userId));
      assert HasConversation(list, id) <==> HasConversation(s.conversations, id) by {
        assert forall i :: 0 <= i < |list| ==> list[i].id == s.conversations[i].id;
      }
      hide Replace;
      SortedMembers(list);
      KnownIsMember(list, id);
      KnownIsMember(SortByUpdatedAt(list), id);
    }
  }

  lemma KnownIsMember(s: seq<Conversation>, id: string)
    ensures HasConversation(s, id) <==> exists c :: c in s && c.id == id
  {
  }

  // With nothing in between the order never matters, whether the conversation is known or not.
  lemma EchoAndReplyCommute(s: Store, temp: Message, saved: Message, userId: Option<string>)
    requires temp.conversationId == saved.conversationId && temp.id != saved.id
    ensures var sent := Append(s, temp, userId);
            Reply(Echo(sent, saved, userId), temp, saved, userId) == Echo(Reply(sent, temp, saved, userId), saved, userId)
  {
    hide Append, HasConversation, Without, HasMessage, MessagesOf;
    var c, sent := saved.conversationId, Append(s, temp, userId);
    AppendKeepsKnown(Apply(sent, RemoveMessage(c, temp.id)), saved, userId, c);
    if HasConversation(sent.conversations, c) { EchoAndReplyConfluent(s, temp, saved, userId, []); }
  }

  // Hearing of a message twice is hearing of it once.
  lemma AppendTwice(s: Store, message: Message, userId: Option<string>, again: Option<string>)
    ensures Append(Append(s, message, userId), message, again) == Append(s, message, userId)
  {
    var list := MessagesOf(s.messages, message.conversationId);
    if !HasMessage(list, message.id) {
      assert (list + [message])[|list|].id == message.id;
    }
  }

  // What lists an action leaves depends on the lists alone; a missing list is an empty one.
  ghost predicate SameLists(a: Lists, b: Lists) {
    forall id :: MessagesOf(a, id) == MessagesOf(b, id)
  }

  lemma SameAfterPut(a: Lists, b: Lists, id: string, list: seq<Message>)
    requires SameLists(a, b)
    ensures SameLists(a[id := list], b[id := list]) && MessagesOf(a, id) == MessagesOf(b, id)
  {
    var a', b' := a[id := list], b[id := list];
    forall k ensures MessagesOf(a', k) == MessagesOf(b', k) {
      assert MessagesOf(a, k) == MessagesOf(b, k);
    }
  }

  lemma SameListsStep(s: Store, t: Store, a: Action)
    requires SameLists(s.messages, t.messages)
    ensures SameLists(Apply(s, a).messages, Apply(t, a).messages)
  {
    if a.Reset? { return; }
    hide SameLists, MessagesOf, Noted, SortByUpdatedAt, SumUnread, HasMessage, Without, Missing, HasConversation, Replace, Cleared;
    match a
    case SetMessages(id, messages, _, _) =>
      SameAfterPut(s.messages, t.messages, id, messages);
    case PrependMessages(id, messages, _, _) =>
      SameAfterPut(s.messages, t.messages, id, Missing(messages, MessagesOf(s.messages, id)) + MessagesOf(s.messages, id));
    case AppendMessage(message, _) =>
      SameAfterPut(s.messages, t.messages, message.conversationId, MessagesOf(s.messages, message.conversationId) + [message]);
    case RemoveMessage(id, messageId) =>
      SameAfterPut(s.messages, t.messages, id, Without(MessagesOf(s.messages, id), messageId));
    case _ =>
  }

  lemma {:induction false} SameListsRun(s: Store, t: Store, actions: seq<Action>)
    requires SameLists(s.messages, t.messages)
    ensures SameLists(Run(s, actions).messages, Run(t, actions).messages)
    decreases |actions|
  {
    hide SameLists, Apply;
    if actions != [] {
      SameListsStep(s, t, actions[0]);
      SameListsRun(Apply(s, actions[0]), Apply(t, actions[0]), actions[1..]);
    }
  }

  lemma SentAndHidden(s: Store, temp: Message, userId: Option<string>)
    requires !HasMessage(MessagesOf(s.messages, temp.conversationId), temp.id)
    ensures SameLists(Hiding(Append(s, temp, userId), temp.conversationId, temp.id).messages, s.messages)
  {
    assert Without([temp], temp.id) == [];
    hide Noted, SumUnread, HasMessage, Without, HiddenIn;
    var c, list := temp.conversationId, MessagesOf(s.messages, temp.conversationId);
    WithoutConcat(list, [temp], temp.id);
    WithoutAbsent(list, temp.id);
    var sent := Append(s, temp, userId);
    assert sent.messages == s.messages[c := list + [temp]];
    forall key ensures MessagesOf(Hiding(sent, c, temp.id).messages, key) == MessagesOf(s.messages, key) {
      HiddenList(sent.messages, c, temp.id, key);
    }
  }

  lemma RemoveHides(s: Store, c: string, id: string)
    ensures SameLists(Apply(s, RemoveMessage(c, id)).messages, Hiding(s, c, id).messages)
  {
    NoneWithout(id);
    hide Without;
  }

  // A failed send leaves every message list as if it had never been tried, whatever the store is told meanwhile.
  lemma FailedSendLeavesNoTrace(s: Store, temp: Message, userId: Option<string>, between: seq<Action>)
    requires !HasMessage(MessagesOf(s.messages, temp.conversationId), temp.id)
    requires forall i :: 0 <= i < |between| ==> Ignores(between[i], temp.id)
    ensures SameLists(Apply(Run(Append(s, temp, userId), between), RemoveMessage(temp.conversationId, temp.id)).messages,
                      Run(s, between).messages)
  {
    hide Run, Append, Apply, Hiding, HasMessage, MessagesOf, Ignores;
    var c, sent := temp.conversationId, Append(s, temp, userId);
    HidingRun(sent, between, c, temp.id);
    SentAndHidden(s, temp, userId);
    SameListsRun(Hiding(sent, c, temp.id), s, between);
    RemoveHides(Run(sent, between), c, temp.id);
  }

  // ── What a failed send leaves behind ──

  predicate ShowsLast(s: seq<Conversation>, conversationId: string, id: string) {
    exists c :: c in s && c.id == conversationId && c.lastMessage.Some? && c.lastMessage.value.id == id
  }

  // No conversation shows the message as its last.
  predicate NoneShows(s: seq<Conversation>, id: string) {
    forall c :: c in s && c.lastMessage.Some? ==> c.lastMessage.value.id != id
  }

  // The action says nothing about the message, neither in a message list nor as the last message of a conversation.
  predicate Unaware(a: Action, id: string) {
    && Ignores(a, id)
    && match a
       case SetConversations(conversations) => NoneShows(conversations, id)
       case UpsertConversation(conversation) => NoneShows([conversation], id)
       case _ => true
  }

  // The action gives the conversation another last message: a fetched list, a fetched conversation, a reset, or a message
  // that its list does not have yet.
  predicate Replaces(s: Store, a: Action, conversationId: string) {
    match a
    case SetConversations(_) => true
    case Reset => true
    case UpsertConversation(conversation) => conversation.id == conversationId
    case AppendMessage(message, _) =>
      message.conversationId == conversationId && !HasMessage(MessagesOf(s.messages, conversationId), message.id)
    case _ => false
  }

  predicate EverReplaced(s: Store, actions: seq<Action>, conversationId: string)
    decreases |actions|
  {
    actions != [] && (Replaces(s, actions[0], conversationId) || EverReplaced(Apply(s, actions[0]), actions[1..], conversationId))
  }

  lemma SortedShows(s: seq<Conversation>, conversationId: string, id: string)
    ensures ShowsLast(SortByUpdatedAt(s), conversationId, id) <==> ShowsLast(s, conversationId, id)
  {
    SortedMembers(s);
    hide SortByUpdatedAt;
  }

  lemma ReplacedShows(s: seq<Conversation>, c: Conversation, conversationId: string, id: string)
    requires HasConversation(s, c.id) && NoneShows([c], id)
    ensures ShowsLast(Replace(s, c), conversationId, id) <==> c.id != conversationId && ShowsLast(s, conversationId, id)
  {
    ReplacedIs(s, c);
    hide Replace;
    assert c in [c];
  }

  lemma ClearedShows(s: seq<Conversation>, cleared: string, conversationId: string, id: string)
    ensures ShowsLast(Cleared(s, cleared), conversationId, id) <==> ShowsLast(s, conversationId, id)
  {
    var list := Cleared(s, cleared);
    if c :| c in s && c.id == conversationId && c.lastMessage.Some? && c.lastMessage.value.id == id {
      var i :| 0 <= i < |s| && s[i] == c;
      assert list[i] in list;
    }
  }

  lemma AppendedShows(s: Store, message: Message, currentUserId: Option<string>, conversationId: string, id: string)
    requires message.id != id
    ensures ShowsLast(Append(s, message, currentUserId).conversations, conversationId, id) <==>
              ShowsLast(s.conversations, conversationId, id) && !Replaces(s, AppendMessage(message, currentUserId), conversationId)
  {
    var found := Find(s.conversations, message.conversationId);
    hide SortByUpdatedAt, Replace, HasMessage, SumUnread, Find;
    if found.Some? {
      var bumped := Bumped(found.value, s.viewingConversationId, message, currentUserId);
      ReplacedShows(s.conversations, bumped, conversationId, id);
      SortedShows(Replace(s.conversations, bumped), conversationId, id);
    } else {
      UnknownShowsNothing(s.conversations, message.conversationId, id);
    }
  }

  lemma UnknownShowsNothing(s: seq<Conversation>, conversationId: string, id: string)
    requires !HasConversation(s, conversationId)
    ensures !ShowsLast(s, conversationId, id)
  {
  }

  lemma UpsertedShows(s: Store, conversation: Conversation, conversationId: string, id: string)
    requires NoneShows([conversation], id)
    ensures ShowsLast(Apply(s, UpsertConversation(conversation)).conversations, conversationId, id) <==>
              conversation.id != conversationId && ShowsLast(s.conversations, conversationId, id)
  {
    hide SortByUpdatedAt, Replace, SumUnread;
    if HasConversation(s.conversations, conversation.id) {
      ReplacedShows(s.conversations, conversation, conversationId, id);
      SortedShows(Replace(s.conversations, conversation), conversationId, id);
    } else {
      assert conversation in [conversation];
      SortedShows(s.conversations + [conversation], conversationId, id);
    }
  }

  lemma ShowsStep(s: Store, a: Action, conversationId: string, id: string)
    requires Unaware(a, id)
    ensures ShowsLast(Apply(s, a).conversations, conversationId, id) <==>
              ShowsLast(s.conversations, conversationId, id) && !Replaces(s, a, conversationId)
  {
    match a
    case AppendMessage(message, currentUserId) => AppendedShows(s, message, currentUserId, conversationId, id);
    case UpsertConversation(conversation) => UpsertedShows(s, conversation, conversationId, id);
    case ClearUnread(cleared) => ClearedShows(s.conversations, cleared, conversationId, id);
    case SetConversations(conversations) => SortedShows(conversations, conversationId, id);
    case _ =>
  }

  lemma {:induction false} ShowsRun(s: Store, actions: seq<Action>, conversationId: string, id: string)
    requires forall i :: 0 <= i < |actions| ==> Unaware(actions[i], id)
    ensures ShowsLast(Run(s, actions).conversations, conversationId, id) <==>
              ShowsLast(s.conversations, conversationId, id) && !EverReplaced(s, actions, conversationId)
    decreases |actions|
  {
    hide Apply, Unaware, Replaces, ShowsLast;
    if actions != [] {
      ShowsStep(s, actions[0], conversationId, id);
      ShowsRun(Apply(s, actions[0]), actions[1..], conversationId, id);
    }
  }

  // The message list is restored, the conversation list only when it does not have the conversation. Otherwise the
  // conversation shows the text that was never sent as its last message, until and only until an action replaces it.
  lemma FailedSendStillShows(s: Store, temp: Message, userId: Option<string>, between: seq<Action>)
    requires !HasMessage(MessagesOf(s.messages, temp.conversationId), temp.id) && NoneShows(s.conversations, temp.id)
    requires forall i :: 0 <= i < |between| ==> Unaware(between[i], temp.id)
    ensures Apply(Append(s, temp, userId), RemoveMessage(temp.conversationId, temp.id)).conversations == s.conversations <==>
              !HasConversation(s.conversations, temp.conversationId)
    ensures ShowsLast(Apply(Run(Append(s, temp, userId), between), RemoveMessage(temp.conversationId, temp.id)).conversations,
                      temp.conversationId, temp.id) <==>
              && HasConversation(s.conversations, temp.conversationId)
              && !EverReplaced(Append(s, temp, userId), between, temp.conversationId)
  {
    hide Run, EverReplaced, Unaware, HasMessage, Without;
    SentShows(s, temp, userId);
    ShowsRun(Append(s, temp, userId), between, temp.conversationId, temp.id);
  }

  lemma SentShows(s: Store, temp: Message, userId: Option<string>)
    requires !HasMessage(MessagesOf(s.messages, temp.conversationId), temp.id) && NoneShows(s.conversations, temp.id)
    ensures if HasConversation(s.conversations, temp.conversationId)
            then ShowsLast(Append(s, temp, userId).conversations, temp.conversationId, temp.id)
                 && !ShowsLast(s.conversations, temp.conversationId, temp.id)
            else Append(s, temp, userId).conversations == s.conversations
                 && !ShowsLast(s.conversations, temp.conversationId, temp.id)
  {
    var found := Find(s.conversations, temp.conversationId);
    hide SortByUpdatedAt, Replace, SumUnread, Find, HasMessage;
    if found.Some? {
      var bumped := Bumped(found.value, s.viewingConversationId, temp, userId);
      ReplacedIs(s.conversations, bumped);
      SortedMembers(Replace(s.conversations, bumped));
      assert bumped in SortByUpdatedAt(Replace(s.conversations, bumped));
    }
  }
}
