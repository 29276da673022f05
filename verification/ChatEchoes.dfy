// The echo of an optimistic send that comes while its conversation is not known yet.
module ChatEchoes {
  import opened Prelude
  import opened ChatStore

  // The action replaces the message list of the conversation, whatever it was.
  predicate Reloads(a: Action, conversationId: string) {
    a.Reset? || (a.SetMessages? && a.conversationId == conversationId)
  }

  predicate Reloaded(actions: seq<Action>, conversationId: string) {
    exists i :: 0 <= i < |actions| && Reloads(actions[i], conversationId)
  }

  lemma ReloadForgets(s: Store, a: Action, conversationId: string, id: string)
    requires Reloads(a, conversationId)
    ensures Apply(Hiding(s, conversationId, id), a) == Apply(s, a)
  {
    hide Without;
    if a.SetMessages? && conversationId in s.messages {
      Overwrite(s.messages, conversationId, Without(s.messages[conversationId], id), a.messages);
    }
  }

  // Two runs that differ in one message meet at the first reload of its list, and otherwise keep differing in it.
  lemma {:induction false} RunsMeet(s: Store, actions: seq<Action>, conversationId: string, id: string)
    requires forall i :: 0 <= i < |actions| ==> Ignores(actions[i], id) || Reloads(actions[i], conversationId)
    ensures Run(Hiding(s, conversationId, id), actions)
         == if Reloaded(actions, conversationId) then Run(s, actions) else Hiding(Run(s, actions), conversationId, id)
    decreases |actions|
  {
    hide Hiding, Apply, Ignores, Reloads;
    if actions != [] {
      FirstOrLater(actions, conversationId);
      hide Reloaded;
      if Reloads(actions[0], conversationId) {
        ReloadForgets(s, actions[0], conversationId, id);
      } else {
        HidingStep(s, actions[0], conversationId, id);
        RunsMeet(Apply(s, actions[0]), actions[1..], conversationId, id);
      }
    }
  }

  lemma FirstOrLater(actions: seq<Action>, conversationId: string)
    requires actions != []
    ensures Reloaded(actions, conversationId) <==> Reloads(actions[0], conversationId) || Reloaded(actions[1..], conversationId)
  {
    hide Reloads;
    assert forall i :: 0 <= i < |actions[1..]| ==> actions[1..][i] == actions[i + 1];
    if i :| 0 <= i < |actions| && Reloads(actions[i], conversationId) {
      if 0 < i { assert Reloads(actions[1..][i - 1], conversationId); }
    }
    if i :| 0 <= i < |actions[1..]| && Reloads(actions[1..][i], conversationId) {
      assert Reloads(actions[i + 1], conversationId);
    }
  }

  lemma StaysShown(s: Store, a: Action, conversationId: string, id: string)
    requires Ignores(a, id) && !Reloads(a, conversationId) && HasMessage(MessagesOf(s.messages, conversationId), id)
    ensures HasMessage(MessagesOf(Apply(s, a).messages, conversationId), id)
  {
    hide SortByUpdatedAt, SumUnread, HasConversation, Noted, Replace, Cleared, Without;
    var list := MessagesOf(s.messages, conversationId);
    var k :| 0 <= k < |list| && list[k].id == id;
    match a
    case PrependMessages(c, messages, _, _) =>
      var more := Missing(messages, list);
      assert c == conversationId ==> (more + list)[|more| + k].id == id;
    case RemoveMessage(c, messageId) =>
      HasInWithout(list, messageId, id);
    case AppendMessage(message, _) =>
      assert (list + [message])[k].id == id;
    case _ =>
  }

  lemma {:induction false} KeepsShowing(s: Store, actions: seq<Action>, conversationId: string, id: string)
    requires HasMessage(MessagesOf(s.messages, conversationId), id)
    requires forall i :: 0 <= i < |actions| ==> Ignores(actions[i], id) && !Reloads(actions[i], conversationId)
    ensures HasMessage(MessagesOf(Run(s, actions).messages, conversationId), id)
    decreases |actions|
  {
    hide HasMessage, Apply, Ignores, Reloads;
    if actions != [] {
      StaysShown(s, actions[0], conversationId, id);
      KeepsShowing(Apply(s, actions[0]), actions[1..], conversationId, id);
    }
  }

  // The conversation list is as if the message had been noted: it is the last message of its conversation, of its time,
  // and noting it adds nothing unread.
  predicate AlreadyNoted(s: Store, message: Message, userId: Option<string>) {
    && (s.viewingConversationId == Some(message.conversationId) || Some(message.senderId) == userId)
    && exists c :: c in s.conversations && c.id == message.conversationId && c.updatedAt == message.createdAt
         && c.lastMessage == Some(LastMessage(message.id, message.body, message.senderId, message.createdAt))
  }

  lemma {:induction false} SortedStays(s: seq<Conversation>)
    requires NewestFirst(s)
    ensures SortByUpdatedAt(s) == s
  {
    if s != [] { SortedStays(s[1..]); }
  }

  lemma NotingChangesNothingExactly(s: Store, message: Message, userId: Option<string>)
    requires ListsOk(s) && HasConversation(s.conversations, message.conversationId)
    ensures Noted(s.conversations, s.viewingConversationId, message, userId) == Some(s.conversations) <==>
              AlreadyNoted(s, message, userId)
  {
    var found := Find(s.conversations, message.conversationId).value;
    var bumped := Bumped(found, s.viewingConversationId, message, userId);
    NotedIs(s.conversations, s.viewingConversationId, message, userId);
    hide SortByUpdatedAt, SumUnread, HasConversation, NewestFirst, Find;
    if AlreadyNoted(s, message, userId) {
      assert bumped == found by { OnlyOne(s.conversations, found); }
      ReplacedBySame(s.conversations, found);
      SortedStays(s.conversations);
    }
  }

  lemma OnlyOne(s: seq<Conversation>, c: Conversation)
    requires UniqueConversations(s) && c in s
    ensures forall x :: x in s && x.id == c.id ==> x == c
  {
  }

  lemma ReplacedBySame(s: seq<Conversation>, c: Conversation)
    requires UniqueConversations(s) && c in s
    ensures Replace(s, c) == s
  {
    OnlyOne(s, c);
  }

  lemma LastIsKept(list: seq<Message>, message: Message)
    requires UniqueMessages(list)
    ensures Without(list, message.id) + [message] == list <==> list != [] && list[|list| - 1] == message
  {
    var rest := Without(list, message.id);
    assert (rest + [message])[|rest|] == message;
    if list != [] && list[|list| - 1] == message {
      NotAmongTheOthers(list);
      hide Without, HasMessage, UniqueMessages;
      WithoutLast(list[..|list| - 1], message);
      assert list == list[..|list| - 1] + [message];
    }
  }

  lemma WithoutLast(most: seq<Message>, message: Message)
    requires !HasMessage(most, message.id)
    ensures Without(most + [message], message.id) == most
  {
    assert Without([message], message.id) == [];
    hide Without, HasMessage;
    WithoutConcat(most, [message], message.id);
    WithoutAbsent(most, message.id);
    assert most + [] == most;
  }

  lemma NotAmongTheOthers(list: seq<Message>)
    requires UniqueMessages(list) && list != []
    ensures !HasMessage(list[..|list| - 1], list[|list| - 1].id)
  {
  }

  lemma ShownIsNotEmpty(s: Store, conversationId: string, id: string)
    requires MessagesOk(s) && HasMessage(MessagesOf(s.messages, conversationId), id)
    ensures conversationId in s.messages && s.messages[conversationId] != [] && UniqueMessages(s.messages[conversationId])
  {
  }

  lemma NotIn(list: seq<Message>, id: string)
    ensures !HasMessage(Without(list, id), id)
  {
    WithoutIs(list, id);
    HasIsIn(Without(list, id), id);
  }

  // The state after a message is heard of again that the list has lost.
  lemma AppendedAgain(s: Store, message: Message, userId: Option<string>)
    requires message.conversationId in s.messages && s.totalUnread == SumUnread(s.conversations)
    ensures var c := message.conversationId;
            var list := s.messages[c];
            var noted := Noted(s.conversations, s.viewingConversationId, message, userId);
            Append(Hiding(s, c, message.id), message, userId) == s <==>
              Without(list, message.id) + [message] == list && (noted.Some? ==> noted.value == s.conversations)
  {
    var c := message.conversationId;
    var list := s.messages[c];
    var rest := Without(list, message.id);
    NotIn(list, message.id);
    hide Without, HasMessage, Noted, SumUnread;
    var hidden, again := Hiding(s, c, message.id), Append(Hiding(s, c, message.id), message, userId);
    assert hidden.messages == s.messages[c := rest] && MessagesOf(hidden.messages, c) == rest;
    assert again.messages == s.messages[c := rest + [message]];
    assert again.messages[c] == rest + [message];
  }

  // Forgetting a shown message and appending it again changes nothing exactly when it is the last of its list and the
  // conversation list already says so.
  lemma ForgottenAndAppended(s: Store, message: Message, userId: Option<string>)
    requires ListsOk(s) && MessagesOk(s) && HasMessage(MessagesOf(s.messages, message.conversationId), message.id)
    ensures var list := MessagesOf(s.messages, message.conversationId);
            && list != []
            && (Append(Hiding(s, message.conversationId, message.id), message, userId) == s <==>
                  && list[|list| - 1] == message
                  && (HasConversation(s.conversations, message.conversationId) ==> AlreadyNoted(s, message, userId)))
  {
    var c := message.conversationId;
    assert s.totalUnread == SumUnread(s.conversations);
    ShownIsNotEmpty(s, c, message.id);
    assert HasConversation(s.conversations, c) <==> Noted(s.conversations, s.viewingConversationId, message, userId).Some?;
    if HasConversation(s.conversations, c) { NotingChangesNothingExactly(s, message, userId); }
    hide Without, HasMessage, Noted, SumUnread, AlreadyNoted, UniqueMessages, HasConversation, ListsOk, MessagesOk, Append, Hiding;
    LastIsKept(s.messages[c], message);
    AppendedAgain(s, message, userId);
  }

  // When the conversation of an optimistic send is not known as the echo comes first, the echo only fetches the list
  // again. If the message list is reloaded meanwhile, the order of echo and reply makes no difference exactly as for a
  // known conversation. If it is not, it makes none exactly when, with the reply first, the saved message is still the last
  // one and the conversation, if it is known by then, already shows it as its last message.
  lemma UnknownEchoConfluentExactly(s: Store, temp: Message, saved: Message, userId: Option<string>, between: seq<Action>)
    requires ListsOk(s) && MessagesOk(s) && forall i :: 0 <= i < |between| ==> DuplicateFree(between[i])
    requires temp.conversationId == saved.conversationId && temp.id != saved.id
    requires !HasConversation(s.conversations, saved.conversationId)
    requires !HasMessage(MessagesOf(s.messages, saved.conversationId), saved.id)
    requires forall i :: 0 <= i < |between| ==>
               Ignores(between[i], temp.id) && (Ignores(between[i], saved.id) || Reloads(between[i], saved.conversationId))
    ensures var c, sent := saved.conversationId, Append(s, temp, userId);
            var late := Run(Reply(sent, temp, saved, userId), between);
            var list := MessagesOf(late.messages, c);
            Reply(Run(Echo(sent, saved, userId), between), temp, saved, userId) == Echo(late, saved, userId) <==>
              if Reloaded(between, c) then HasConversation(late.conversations, c) || HasMessage(list, saved.id)
              else list != [] && list[|list| - 1] == saved
                   && (HasConversation(late.conversations, c) ==> AlreadyNoted(late, saved, userId))
  {
    var c, sent := saved.conversationId, Append(s, temp, userId);
    var replied := Reply(sent, temp, saved, userId);
    var late := Run(replied, between);
    RepliedIsOk(s, temp, saved, userId);
    AppendKeepsKnown(s, temp, userId, c);
    ChangesExactlyWhenNew(late, saved, userId);
    hide Append, Hiding, Reply, Run, ListsOk, MessagesOk, DuplicateFree, AlreadyNoted;
    if !Reloaded(between, c) { ReplyFirst(replied, saved, userId, between); }
    hide HasConversation, HasMessage, MessagesOf, Reloaded, Ignores, Reloads;
    ReplyHides(Run(sent, between), temp, saved, userId);
    HidingRun(sent, between, c, temp.id);
    RunsMeet(replied, between, c, saved.id);
  }

  // Without a reload, what the echo adds to the run with the reply first.
  lemma ReplyFirst(replied: Store, saved: Message, userId: Option<string>, between: seq<Action>)
    requires ListsOk(replied) && MessagesOk(replied) && forall i :: 0 <= i < |between| ==> DuplicateFree(between[i])
    requires HasMessage(MessagesOf(replied.messages, saved.conversationId), saved.id)
    requires forall i :: 0 <= i < |between| ==> Ignores(between[i], saved.id) || Reloads(between[i], saved.conversationId)
    requires !Reloaded(between, saved.conversationId)
    ensures var c, late := saved.conversationId, Run(replied, between);
            var list := MessagesOf(late.messages, c);
            && HasMessage(list, saved.id) && list != []
            && (Append(Hiding(late, c, saved.id), saved, userId) == late <==>
                  list[|list| - 1] == saved && (HasConversation(late.conversations, c) ==> AlreadyNoted(late, saved, userId)))
  {
    hide ListsOk, MessagesOk, HasMessage, MessagesOf, Append, Hiding, Run, AlreadyNoted, DuplicateFree, Ignores, Reloads, HasConversation;
    StoreStaysConsistent(between, replied);
    KeepsShowing(replied, between, saved.conversationId, saved.id);
    ForgottenAndAppended(Run(replied, between), saved, userId);
  }

  // Right after the reply the saved message is shown, and forgetting it gives the state in which only the send is forgotten.
  lemma RepliedIsOk(s: Store, temp: Message, saved: Message, userId: Option<string>)
    requires ListsOk(s) && MessagesOk(s)
    requires temp.conversationId == saved.conversationId && temp.id != saved.id
    requires !HasConversation(s.conversations, saved.conversationId)
    requires !HasMessage(MessagesOf(s.messages, saved.conversationId), saved.id)
    ensures var c, sent := saved.conversationId, Append(s, temp, userId);
            var replied := Reply(sent, temp, saved, userId);
            && ListsOk(replied) && MessagesOk(replied) && HasMessage(MessagesOf(replied.messages, c), saved.id)
            && Hiding(replied, c, saved.id) == Hiding(sent, c, temp.id)
  {
    var c, sent := saved.conversationId, Append(s, temp, userId);
    var removed := Apply(sent, RemoveMessage(c, temp.id));
    ListsStep(s, AppendMessage(temp, userId));
    MessagesStep(s, AppendMessage(temp, userId));
    ListsStep(sent, RemoveMessage(c, temp.id));
    MessagesStep(sent, RemoveMessage(c, temp.id));
    ListsStep(removed, AppendMessage(saved, userId));
    MessagesStep(removed, AppendMessage(saved, userId));
    hide ListsOk, MessagesOk;
    UnknownReply(s, temp, saved, userId);
  }

  lemma UnknownReply(s: Store, temp: Message, saved: Message, userId: Option<string>)
    requires temp.conversationId == saved.conversationId && temp.id != saved.id
    requires !HasConversation(s.conversations, saved.conversationId)
    requires !HasMessage(MessagesOf(s.messages, saved.conversationId), saved.id)
    ensures var c, sent := saved.conversationId, Append(s, temp, userId);
            var replied := Reply(sent, temp, saved, userId);
            HasMessage(MessagesOf(replied.messages, c), saved.id) && Hiding(replied, c, saved.id) == Hiding(sent, c, temp.id)
  {
    var c, sent := saved.conversationId, Append(s, temp, userId);
    UnknownAppend(s, temp, userId, saved.id);
    hide Append, HasConversation;
    var list := sent.messages[c];
    var rest := Without(list, temp.id);
    var removed := Apply(sent, RemoveMessage(c, temp.id));
    assert removed == sent.(messages := sent.messages[c := rest]);
    HasInWithout(list, temp.id, saved.id);
    WithoutLast(rest, saved);
    hide Without;
    UnknownAppend(removed, saved, userId, saved.id);
    assert (rest + [saved])[|rest|] == saved;
    var replied := Append(removed, saved, userId);
    assert Hiding(replied, c, saved.id).messages == sent.messages[c := rest];
  }

  // A new message of an unknown conversation only joins its list.
  lemma UnknownAppend(s: Store, message: Message, userId: Option<string>, other: string)
    requires !HasConversation(s.conversations, message.conversationId)
    ensures var c := message.conversationId;
            var list, after := MessagesOf(s.messages, c), Append(s, message, userId);
            && c in after.messages && after.conversations == s.conversations
            && (HasMessage(list, message.id) ==> after == s)
            && (!HasMessage(list, message.id) ==> after == s.(messages := s.messages[c := list + [message]]))
            && (other != message.id && !HasMessage(list, other) ==> !HasMessage(after.messages[c], other))
  {
  }

  lemma RunOne(s: Store, a: Action)
    ensures Run(s, [a]) == Apply(s, a)
  {
    hide Apply;
    assert [a][1..] == [];
  }

  // A list fetched between echo and reply that does not show the message yet: with the echo first the conversation shows
  // it in the end, with the reply first it does not.
  lemma RefetchBetweenWitness()
    ensures var temp, saved := Message("temp", "c", "me", "hi", 1), Message("saved", "c", "me", "hi", 1);
            var sent, between := Append(INITIAL, temp, Some("me")), [SetConversations([Conversation("c", 0, 0, None)])];
            Reply(Run(Echo(sent, saved, Some("me")), between), temp, saved, Some("me"))
            != Echo(Run(Reply(sent, temp, saved, Some("me")), between), saved, Some("me"))
  {
    var temp, saved := Message("temp", "c", "me", "hi", 1), Message("saved", "c", "me", "hi", 1);
    var fetched := [Conversation("c", 0, 0, None)];
    var sent, between := Append(INITIAL, temp, Some("me")), [SetConversations(fetched)];
    var late := Run(Reply(sent, temp, saved, Some("me")), between);
    SortedStays(fetched);
    RunOne(Reply(sent, temp, saved, Some("me")), between[0]);
    assert late.conversations == fetched;
    assert HasConversation(late.conversations, "c") by { assert late.conversations[0].id == "c"; }
    assert !AlreadyNoted(late, saved, Some("me"));
    hide Run, Append, Reply, Echo, AlreadyNoted;
    UnknownEchoConfluentExactly(INITIAL, temp, saved, Some("me"), between);
  }
}
