/** The counselor chat (`chat-interface.tsx`): the submit guard, the two writes around the
    counselor call, the history it is given, and the displayed order. The counselor is a
    function parameter returning `None` when the call fails. */
module Chat {
  import opened Wrappers
  import opened Text
  import opened Seqs

  datatype Role = UserRole | ModelRole

  /** A stored message; `timestamp` is `None` while the server timestamp is pending. */
  datatype ChatMessage = ChatMessage(role: Role, content: string, timestamp: Option<int>, userProfileId: string)

  /** A message as written (the server sets the timestamp). */
  datatype MessageData = MessageData(role: Role, content: string, userProfileId: string)

  /** One turn of the history the counselor receives. */
  datatype Turn = Turn(role: Role, content: string)

  function History(messages: seq<ChatMessage>): (h: seq<Turn>)
    ensures |h| == |messages|
    ensures forall i | 0 <= i < |h| :: h[i] == Turn(messages[i].role, messages[i].content)
  {
    seq(|messages|, i requires 0 <= i < |messages| => Turn(messages[i].role, messages[i].content))
  }

  datatype Chat = Chat(input: string, isLoading: bool)

  /** A submission: the writes in order, the request made to the counselor (history, message),
      if any, and the chat afterwards. */
  datatype ChatSubmit = ChatSubmit(writes: seq<MessageData>, request: Option<(seq<Turn>, string)>, after: Chat)

  predicate Ignored(c: Chat, storeReady: bool, uid: Option<string>, messages: Option<seq<ChatMessage>>) {
    IsBlank(c.input) || c.isLoading || !storeReady || uid.None? || messages.None?
  }

  /** `handleSubmit` (lines 48-77). A blank input, a request in flight, or a missing store, user
      or message list does nothing. Otherwise the user's message is written first, the
      counselor gets the loaded messages in collection order and the typed input, its reply is
      written as a `model` message when it succeeds, and the input is cleared and loading ends
      either way. */
  function Submit(c: Chat, storeReady: bool, uid: Option<string>, messages: Option<seq<ChatMessage>>,
                  counselor: (seq<Turn>, string) -> Option<string>): (r: ChatSubmit)
    ensures Ignored(c, storeReady, uid, messages) ==> r == ChatSubmit([], None, c)
    ensures !Ignored(c, storeReady, uid, messages) ==> (
      && r.request == Some((History(messages.value), c.input))
      && r.writes != [] && r.writes[0] == MessageData(UserRole, c.input, uid.value)
      && r.after == Chat("", false))
    ensures !Ignored(c, storeReady, uid, messages) ==> (
      var reply := counselor(History(messages.value), c.input);
      r.writes == [MessageData(UserRole, c.input, uid.value)]
        + (if reply.Some? then [MessageData(ModelRole, reply.value, uid.value)] else []))
  {
    if Ignored(c, storeReady, uid, messages) then ChatSubmit([], None, c)
    else
      var history := History(messages.value);
      var reply := counselor(history, c.input);
      var userMessage := MessageData(UserRole, c.input, uid.value);
      var writes := if reply.Some? then [userMessage, MessageData(ModelRole, reply.value, uid.value)] else [userMessage];
      ChatSubmit(writes, Some((history, c.input)), Chat("", false))
  }

  /** On success exactly one model message is written, holding the reply; on failure none. */
  lemma ModelMessages(c: Chat, uid: string, messages: seq<ChatMessage>, counselor: (seq<Turn>, string) -> Option<string>)
    requires !Ignored(c, true, Some(uid), Some(messages))
    ensures var r := Submit(c, true, Some(uid), Some(messages), counselor);
      var reply := counselor(History(messages), c.input);
      (reply.Some? ==> |r.writes| == 2 && r.writes[1] == MessageData(ModelRole, reply.value, uid))
      && (reply.None? ==> |r.writes| == 1)
      && forall i | 0 < i < |r.writes| :: r.writes[i].role == ModelRole
  {
  }

  /** `a.timestamp?.toMillis() || 0`. */
  function SentAt(m: ChatMessage): int {
    m.timestamp.GetOr(0)
  }

  /** `sortedMessages` (lines 79-83): a sorted copy, oldest first, a pending message counting as
      sent at time 0; messages sent at the same instant keep their collection order. */
  function SortedMessages(messages: Option<seq<ChatMessage>>): (r: seq<ChatMessage>)
    ensures multiset(r) == multiset(messages.GetOr([]))
    ensures forall i, j | 0 <= i < j < |r| :: SentAt(r[i]) <= SentAt(r[j])
  {
    var r := SortBy(messages.GetOr([]), SentAt);
    assert SortedBy(r, SentAt);
    r
  }

  lemma SortedMessagesStable(messages: seq<ChatMessage>, t: int)
    ensures WithKey(SortedMessages(Some(messages)), SentAt, t) == WithKey(messages, SentAt, t)
  {
    var sorted := SortedMessages(Some(messages));
    assert Some(messages).GetOr([]) == messages;
    assert sorted == SortBy(messages, SentAt);
    SortStable(messages, SentAt, t);
    assert WithKey(sorted, SentAt, t) == WithKey(messages, SentAt, t);
  }
}
