// What each action of the chat store does, told by the conversations and messages alone.
module ChatActions {
  import opened Prelude
  import opened ChatStore

  // The badge adds up: the unread counts of two lists together are those of both.
  lemma {:induction false} UnreadAddsUp(s: seq<Conversation>, t: seq<Conversation>, c: Conversation)
    ensures SumUnread([]) == 0 && SumUnread([c]) == c.unreadCount
    ensures SumUnread(s + t) == SumUnread(s) + SumUnread(t)
  {
    assert [c][1..] == [];
    if s == [] {
      assert s + t == t;
    } else {
      assert (s + t)[1..] == s[1..] + t;
      UnreadAddsUp(s[1..], t, c);
    }
  }

  // The conversation after one of its messages: of that time, with it as the last message, and with one more unread unless
  // it is being viewed or the message is the user's own.
  predicate Heard(c: Conversation, after: Conversation, viewing: Option<string>, message: Message, userId: Option<string>) {
    && after.id == c.id && after.updatedAt == message.createdAt
    && after.lastMessage == Some(LastMessage(message.id, message.body, message.senderId, message.createdAt))
    && (if viewing == Some(c.id) || userId == Some(message.senderId) then after.unreadCount == c.unreadCount
        else after.unreadCount == c.unreadCount + 1)
  }

  // The message is appended to its list, if its conversation is in the list of conversations that changes too.
  predicate Changes(s: Store, message: Message) {
    && (forall m :: m in MessagesOf(s.messages, message.conversationId) ==> m.id != message.id)
    && exists c :: c in s.conversations && c.id == message.conversationId
  }

  // What an action does to the conversations. Fetched lists are taken over, a fetched conversation replaces the one of its
  // id or joins the list, a new message is noted in its own conversation only, and clearing changes one count only; the
  // lists are sorted newest first whenever they change.
  lemma ActionOnConversations(s: Store, a: Action)
    requires UniqueConversations(s.conversations)
    ensures var before, after := s.conversations, Apply(s, a).conversations;
            match a
            case SetConversations(fetched) => multiset(after) == multiset(fetched) && NewestFirst(after)
            case UpsertConversation(c) =>
              && NewestFirst(after)
              && (forall x :: x in after <==> x == c || (x in before && x.id != c.id))
              && |after| == |before| + if exists x :: x in before && x.id == c.id then 0 else 1
            case AppendMessage(message, userId) =>
              if Changes(s, message) then
                && NewestFirst(after) && |after| == |before|
                && (forall x: Conversation :: x.id != message.conversationId ==> (x in after <==> x in before))
                && (forall x, c :: x in after && c in before && x.id == c.id == message.conversationId ==>
                      Heard(c, x, s.viewingConversationId, message, userId))
              else after == before
            case ClearUnread(id) =>
              |after| == |before| && forall i :: 0 <= i < |before| ==>
                after[i] == if before[i].id == id then Conversation(id, before[i].updatedAt, 0, before[i].lastMessage) else before[i]
            case Reset => after == []
            case _ => after == before
  {
    match a
    case SetConversations(fetched) => SortKeeps(fetched);
    case UpsertConversation(c) => UpsertMeaning(s, c);
    case AppendMessage(message, userId) => AppendMeaning(s, message, userId);
    case _ => hide SortByUpdatedAt, SumUnread, HasMessage, Noted;
  }

  lemma UpsertMeaning(s: Store, c: Conversation)
    requires UniqueConversations(s.conversations)
    ensures var before, after := s.conversations, Apply(s, UpsertConversation(c)).conversations;
            && NewestFirst(after)
            && (forall x :: x in after <==> x == c || (x in before && x.id != c.id))
            && |after| == |before| + if exists x :: x in before && x.id == c.id then 0 else 1
  {
    var before := s.conversations;
    KnownIsMember(before, c.id);
    var list := if HasConversation(before, c.id) then Replace(before, c) else before + [c];
    if HasConversation(before, c.id) { ReplacedIs(before, c); }
    SortKeeps(list);
    SortedMembers(list);
    SameLength(SortByUpdatedAt(list), list);
    hide SortByUpdatedAt, SumUnread, HasConversation, Replace, NewestFirst, UniqueConversations;
  }

  lemma SameLength(s: seq<Conversation>, t: seq<Conversation>)
    requires multiset(s) == multiset(t)
    ensures |s| == |t|
  {
    assert |multiset(s)| == |s| && |multiset(t)| == |t|;
  }

  lemma AppendMeaning(s: Store, message: Message, userId: Option<string>)
    requires UniqueConversations(s.conversations)
    ensures var before, after := s.conversations, Append(s, message, userId).conversations;
            if Changes(s, message) then
              && NewestFirst(after) && |after| == |before|
              && (forall x: Conversation :: x.id != message.conversationId ==> (x in after <==> x in before))
              && (forall x, c :: x in after && c in before && x.id == c.id == message.conversationId ==>
                    Heard(c, x, s.viewingConversationId, message, userId))
            else after == before
  {
    hide SortByUpdatedAt, SumUnread, Find, HasConversation, Replace, NewestFirst, UniqueConversations, HasMessage;
    var before, id := s.conversations, message.conversationId;
    KnownIsMember(before, id);
    HasIsIn(MessagesOf(s.messages, id), message.id);
    if Changes(s, message) {
      NotedLength(before, s.viewingConversationId, message, userId);
      NotedIs(before, s.viewingConversationId, message, userId);
      forall c | c in before && c.id == id ensures Find(before, id) == Some(c) { FindIs(before, c); }
    }
  }

  lemma NotedLength(s: seq<Conversation>, viewing: Option<string>, message: Message, userId: Option<string>)
    ensures Noted(s, viewing, message, userId).Some? ==> |Noted(s, viewing, message, userId).value| == |s|
  {
    hide SortByUpdatedAt, Find;
    if Find(s, message.conversationId).Some? {
      var replaced := Replace(s, Bumped(Find(s, message.conversationId).value, viewing, message, userId));
      SortKeeps(replaced);
      SameLength(SortByUpdatedAt(replaced), replaced);
    }
  }

  // What an action does to the message lists: each touches at most the list of its own conversation.
  lemma ActionOnMessages(s: Store, a: Action)
    ensures var before, after := s.messages, Apply(s, a).messages;
            match a
            case SetMessages(id, messages, _, _) => after == before[id := messages]
            case PrependMessages(id, messages, _, _) =>
              after == before[id := after[id]] && Prepended(MessagesOf(before, id), messages, after[id])
            case AppendMessage(message, _) =>
              var list := MessagesOf(before, message.conversationId);
              after == if exists m :: m in list && m.id == message.id then before else before[message.conversationId := list + [message]]
            case RemoveMessage(id, messageId) =>
              after == before[id := after[id]] && Removed(MessagesOf(before, id), messageId, after[id])
            case Reset => after == map[]
            case _ => after == before
  {
    hide SortByUpdatedAt, SumUnread, HasMessage, Noted, Without, Missing;
    match a
    case PrependMessages(id, messages, _, _) => MissingPrepends(messages, MessagesOf(s.messages, id));
    case AppendMessage(message, _) => HasIsIn(MessagesOf(s.messages, message.conversationId), message.id);
    case RemoveMessage(id, messageId) => WithoutRemoves(MessagesOf(s.messages, id), messageId);
    case _ =>
  }

  // The list so far behind the messages of the page that it does not have, and no other.
  ghost predicate Prepended(list: seq<Message>, page: seq<Message>, after: seq<Message>) {
    && |list| <= |after| && after[|after| - |list|..] == list
    && var added := after[..|after| - |list|];
       && (forall m :: m in added <==> m in page && forall x :: x in list ==> x.id != m.id)
       && ((forall m, x :: m in page && x in list ==> x.id != m.id) ==> added == page)
  }

  // The messages with that id are gone, the others are there, and one that was there once leaves no other mark.
  ghost predicate Removed(list: seq<Message>, id: string, after: seq<Message>) {
    && (forall m :: m in after <==> m in list && m.id != id)
    && ((forall m :: m in list ==> m.id != id) ==> after == list)
    && forall k :: 0 <= k < |list| && list[k].id == id && (forall j :: 0 <= j < |list| && j != k ==> list[j].id != id) ==>
         after == list[..k] + list[k + 1..]
  }

  lemma MissingPrepends(page: seq<Message>, list: seq<Message>)
    ensures Prepended(list, page, Missing(page, list) + list)
  {
    hide HasMessage, Missing;
    Joined(Missing(page, list), list);
    MissingMeaning(page, list);
  }

  lemma MissingMeaning(page: seq<Message>, list: seq<Message>)
    ensures forall m :: m in Missing(page, list) <==> m in page && forall x :: x in list ==> x.id != m.id
    ensures (forall m, x :: m in page && x in list ==> x.id != m.id) ==> Missing(page, list) == page
  {
    hide HasMessage, Missing;
    MissingIs(page, list);
    MissingAllOrNone(page, list);
    forall m: Message ensures HasMessage(list, m.id) <==> exists x :: x in list && x.id == m.id { HasIsIn(list, m.id); }
  }

  lemma Joined(added: seq<Message>, list: seq<Message>)
    ensures var after := added + list; after[|after| - |list|..] == list && after[..|after| - |list|] == added
  {
  }

  lemma WithoutRemoves(list: seq<Message>, id: string)
    ensures Removed(list, id, Without(list, id))
  {
    WithoutIs(list, id);
    if forall m :: m in list ==> m.id != id { WithoutAbsent(list, id); }
    forall k | 0 <= k < |list| && list[k].id == id && (forall j :: 0 <= j < |list| && j != k ==> list[j].id != id)
      ensures Without(list, id) == list[..k] + list[k + 1..]
    {
      var head, tail := list[..k], list[k + 1..];
      assert !HasMessage(head, id) && !HasMessage(tail, id);
      assert list == head + ([list[k]] + tail);
      assert ([list[k]] + tail)[1..] == tail;
      WithoutConcat(head, [list[k]] + tail, id);
      WithoutAbsent(head, id);
      WithoutAbsent(tail, id);
    }
  }

  // And to the rest: loading messages says whether there are more and where they go on, and what is viewed is set.
  lemma ActionOnTheRest(s: Store, a: Action)
    ensures var after := Apply(s, a);
            match a
            case SetViewing(viewing) => after.viewingConversationId == viewing && after.hasMore == s.hasMore && after.cursors == s.cursors
            case SetMessages(id, _, more, cursor) =>
              && after.hasMore == s.hasMore[id := more] && after.cursors == s.cursors[id := cursor]
              && after.viewingConversationId == s.viewingConversationId
            case PrependMessages(id, _, more, cursor) =>
              && after.hasMore == s.hasMore[id := more] && after.cursors == s.cursors[id := cursor]
              && after.viewingConversationId == s.viewingConversationId
            case Reset => after == Store([], 0, None, map[], map[], map[])
            case _ =>
              && after.hasMore == s.hasMore && after.cursors == s.cursors
              && after.viewingConversationId == s.viewingConversationId
  {
    hide SortByUpdatedAt, SumUnread, HasMessage, Noted, Without, Missing;
  }
}
