/** The conversation store behind the chat: `sendMessage` finds or creates
    the conversation between two users, stores the message, appends its id
    and pushes it to the receiver's socket when one is registered;
    `getMessages` returns a conversation's messages. Message ids are
    positions in the message collection. */
module Conversations {
  import opened Basics
  import opened Api

  datatype Message = Message(senderId: UserId, receiverId: UserId, text: string)

  datatype Conversation = Conversation(participants: seq<UserId>, messages: seq<nat>)

  datatype Chat = Chat(conversations: seq<Conversation>, messages: seq<Message>)

  /** Observable side effects of a send, in the order they happen. */
  datatype Effect =
    | ConversationCreated(index: nat)
    | MessageCreated(id: nat)
    | ConversationSaved(index: nat)
    | Emitted(socketId: string, event: string, message: Message)

  datatype Sent = Sent(chat: Chat, effects: seq<Effect>, outcome: Outcome<Message>)

  const NewMessageEvent := "newMessage"

  // ------------------------------------------------------------------ lookup

  /** The query `{participants: {$all: [a, b]}}`: both users are among the
      participants, whoever else is. */
  predicate HasAll(c: Conversation, a: UserId, b: UserId) {
    a in c.participants && b in c.participants
  }

  /** The conversation `findOne` returns for `$all: [a, b]`, as written. */
  function FindAll(chat: Chat, a: UserId, b: UserId): (r: Option<nat>)
    ensures r.Some? ==> r.value < |chat.conversations| && HasAll(chat.conversations[r.value], a, b)
    ensures r.Some? ==> forall j :: 0 <= j < r.value ==> !HasAll(chat.conversations[j], a, b)
    ensures r.None? <==> forall k :: 0 <= k < |chat.conversations| ==> !HasAll(chat.conversations[k], a, b)
  {
    FirstIndex(chat.conversations, (c: Conversation) => HasAll(c, a, b))
  }

  /** The conversation between exactly `a` and `b`: its participants are `a`
      and `b` and no one else. */
  predicate IsPair(c: Conversation, a: UserId, b: UserId) {
    multiset(c.participants) == multiset{a, b}
  }

  /** The lookup the handlers use: the first conversation of exactly these
      two users. */
  function FindPair(chat: Chat, a: UserId, b: UserId): (r: Option<nat>)
    ensures r.Some? ==> r.value < |chat.conversations| && IsPair(chat.conversations[r.value], a, b)
    ensures r.Some? ==> forall j :: 0 <= j < r.value ==> !IsPair(chat.conversations[j], a, b)
    ensures r.None? <==> forall k :: 0 <= k < |chat.conversations| ==> !IsPair(chat.conversations[k], a, b)
  {
    FirstIndex(chat.conversations, (c: Conversation) => IsPair(c, a, b))
  }

  /** Both lookups ignore the order of the two users, so A writing to B and
      B writing to A reach the same conversation. */
  lemma LookupSymmetric(chat: Chat, a: UserId, b: UserId)
    ensures FindPair(chat, a, b) == FindPair(chat, b, a)
    ensures FindAll(chat, a, b) == FindAll(chat, b, a)
  {
    assert multiset{a, b} == multiset{b, a};
    SameMatchesSameFirst(chat.conversations, (c: Conversation) => IsPair(c, a, b), (c: Conversation) => IsPair(c, b, a));
    SameMatchesSameFirst(chat.conversations, (c: Conversation) => HasAll(c, a, b), (c: Conversation) => HasAll(c, b, a));
  }

  /** Every conversation has two participant slots, as every conversation
      `sendMessage` creates does. */
  predicate TwoSlots(chat: Chat) {
    forall k :: 0 <= k < |chat.conversations| ==> |chat.conversations[k].participants| == 2
  }

  /** For two different users the `$all` query and the exact-pair lookup
      find the same conversation, as long as every conversation has two
      participant slots. */
  lemma {:induction false} FindAllIsFindPair(chat: Chat, a: UserId, b: UserId)
    requires a != b && TwoSlots(chat)
    ensures FindAll(chat, a, b) == FindPair(chat, a, b)
  {
    forall k | 0 <= k < |chat.conversations|
      ensures HasAll(chat.conversations[k], a, b) <==> IsPair(chat.conversations[k], a, b)
    {
      var p := chat.conversations[k].participants;
      assert |p| == 2 && p == [p[0], p[1]];
      assert multiset(p) == multiset{p[0], p[1]};
      if HasAll(chat.conversations[k], a, b) {
        assert (p[0] == a && p[1] == b) || (p[0] == b && p[1] == a);
      }
      if IsPair(chat.conversations[k], a, b) {
        assert a in multiset(p) && b in multiset(p);
      }
    }
    SameMatchesSameFirst(chat.conversations, (c: Conversation) => HasAll(c, a, b), (c: Conversation) => IsPair(c, a, b));
  }

  /** Two tests that agree on every element pick the same first match. */
  lemma {:induction false} SameMatchesSameFirst<T>(xs: seq<T>, p: T -> bool, q: T -> bool)
    requires forall k :: 0 <= k < |xs| ==> (p(xs[k]) <==> q(xs[k]))
    ensures FirstIndex(xs, p) == FirstIndex(xs, q)
  {
    if |xs| > 0 {
      SameMatchesSameFirst(xs[1..], p, q);
    }
  }

  // -------------------------------------------------------------------- send

  /** The body of `sendMessage` once the conversation lookup has answered
      `found`: create the conversation if there was none, store the message,
      append its id, save, then emit to the receiver's socket if it has a
      non-empty id. */
  function SendWith(chat: Chat, found: Option<nat>, sender: UserId, receiver: UserId, text: string,
                    sockets: map<UserId, string>): (r: Sent)
    requires found.Some? ==> found.value < |chat.conversations|
    ensures r.chat.messages == chat.messages + [Message(sender, receiver, text)]
    ensures r.outcome == Respond(201, "Message sent successfully", Some(Message(sender, receiver, text)))
  {
    var k := if found.Some? then found.value else |chat.conversations|;
    var cs := if found.Some? then chat.conversations else chat.conversations + [Conversation([sender, receiver], [])];
    var id := |chat.messages|;
    var msg := Message(sender, receiver, text);
    var created := if found.None? then [ConversationCreated(k)] else [];
    var pushed := if receiver in sockets && sockets[receiver] != "" then [Emitted(sockets[receiver], NewMessageEvent, msg)] else [];
    Sent(Chat(cs[k := cs[k].(messages := cs[k].messages + [id])], chat.messages + [msg]),
      created + [MessageCreated(id), ConversationSaved(k)] + pushed,
      Respond(201, "Message sent successfully", Some(msg)))
  }

  /** `sendMessage` from `sender` to `receiver`, with the exact-pair lookup. */
  function SendMessage(chat: Chat, sender: UserId, receiver: UserId, text: string,
                       sockets: map<UserId, string>): (r: Sent)
    ensures r.chat.messages == chat.messages + [Message(sender, receiver, text)]
    ensures r.outcome == Respond(201, "Message sent successfully", Some(Message(sender, receiver, text)))
  {
    SendWith(chat, FindPair(chat, sender, receiver), sender, receiver, text, sockets)
  }

  /** `sendMessage` exactly as written, with the `$all` lookup. */
  function SendMessageAsWritten(chat: Chat, sender: UserId, receiver: UserId, text: string,
                                sockets: map<UserId, string>): (r: Sent)
    ensures r.chat.messages == chat.messages + [Message(sender, receiver, text)]
    ensures r.outcome == Respond(201, "Message sent successfully", Some(Message(sender, receiver, text)))
  {
    SendWith(chat, FindAll(chat, sender, receiver), sender, receiver, text, sockets)
  }

  /** For two different users the model's send is the source's send. */
  lemma SendMessageMatchesSource(chat: Chat, sender: UserId, receiver: UserId, text: string,
                                 sockets: map<UserId, string>)
    requires sender != receiver && TwoSlots(chat)
    ensures SendMessage(chat, sender, receiver, text, sockets) == SendMessageAsWritten(chat, sender, receiver, text, sockets)
  {
    FindAllIsFindPair(chat, sender, receiver);
  }

  /** The conversation a send writes to, as it was before: the pair's
      conversation, or a new `[sender, receiver]` one with no messages. */
  function Base(chat: Chat, sender: UserId, receiver: UserId): (c: Conversation)
    ensures IsPair(c, sender, receiver)
  {
    assert multiset([sender, receiver]) == multiset{sender, receiver};
    match FindPair(chat, sender, receiver)
    case Some(k) => chat.conversations[k]
    case None => Conversation([sender, receiver], [])
  }

  /** Index of the conversation a send writes to. */
  function Target(chat: Chat, sender: UserId, receiver: UserId): (k: nat)
    ensures k <= |chat.conversations|
    ensures k < |chat.conversations| <==> FindPair(chat, sender, receiver).Some?
  {
    match FindPair(chat, sender, receiver)
    case Some(k) => k
    case None => |chat.conversations|
  }

  /** Where a send puts the message, whatever the lookup answered: the
      conversation found is reused and only its message list grows, by the
      new id at the end; when none was found, a conversation `[sender,
      receiver]` holding just that id is added at the end. No other
      conversation changes. */
  lemma SendWithStoreEffect(chat: Chat, found: Option<nat>, sender: UserId, receiver: UserId, text: string,
                            sockets: map<UserId, string>)
    requires found.Some? ==> found.value < |chat.conversations|
    ensures var out := SendWith(chat, found, sender, receiver, text, sockets).chat.conversations;
      var k := if found.Some? then found.value else |chat.conversations|;
      var c := if found.Some? then chat.conversations[found.value] else Conversation([sender, receiver], []);
      && |out| == (if found.Some? then |chat.conversations| else |chat.conversations| + 1)
      && out[k] == c.(messages := c.messages + [|chat.messages|])
      && (forall j :: 0 <= j < |chat.conversations| && j != k ==> out[j] == chat.conversations[j])
  {
  }

  /** The effects of a send, whatever the lookup answered: `newMessage`
      carrying the stored message goes to the receiver's socket exactly when
      a non-empty socket id is registered for the receiver, and only after
      the message is created and the conversation saved; it is the last
      effect. A conversation is created exactly when none was found. */
  lemma SendWithEffects(chat: Chat, found: Option<nat>, sender: UserId, receiver: UserId, text: string,
                        sockets: map<UserId, string>)
    requires found.Some? ==> found.value < |chat.conversations|
    ensures var r := SendWith(chat, found, sender, receiver, text, sockets);
      var msg := Message(sender, receiver, text);
      && ((exists i :: 0 <= i < |r.effects| && r.effects[i].Emitted?) <==> receiver in sockets && sockets[receiver] != "")
      && (receiver in sockets && sockets[receiver] != "" ==>
            && |r.effects| >= 3
            && r.effects[|r.effects| - 1] == Emitted(sockets[receiver], "newMessage", msg)
            && r.effects[|r.effects| - 2].ConversationSaved?
            && r.effects[|r.effects| - 3] == MessageCreated(|chat.messages|))
      && ((exists i :: 0 <= i < |r.effects| && r.effects[i].ConversationCreated?) <==> found.None?)
  {
    var r := SendWith(chat, found, sender, receiver, text, sockets);
    var k := if found.Some? then found.value else |chat.conversations|;
    var created := if found.None? then [ConversationCreated(k)] else [];
    var pushed := if receiver in sockets && sockets[receiver] != "" then
      [Emitted(sockets[receiver], NewMessageEvent, Message(sender, receiver, text))] else [];
    assert r.effects == created + [MessageCreated(|chat.messages|), ConversationSaved(k)] + pushed;
    if found.None? {
      assert r.effects[0].ConversationCreated?;
    }
    if pushed != [] {
      assert r.effects[|r.effects| - 1].Emitted?;
    }
  }

  /** The store effect of the exact-pair send: the pair's conversation, or a
      new one, grows by the new id; nothing else changes. */
  lemma SendStoreEffect(chat: Chat, sender: UserId, receiver: UserId, text: string, sockets: map<UserId, string>)
    ensures var out := SendMessage(chat, sender, receiver, text, sockets).chat.conversations;
      var k := Target(chat, sender, receiver);
      var c := Base(chat, sender, receiver);
      && |out| == (if FindPair(chat, sender, receiver).Some? then |chat.conversations| else |chat.conversations| + 1)
      && out[k] == c.(messages := c.messages + [|chat.messages|])
      && (forall j :: 0 <= j < |chat.conversations| && j != k ==> out[j] == chat.conversations[j])
  {
    SendWithStoreEffect(chat, FindPair(chat, sender, receiver), sender, receiver, text, sockets);
  }

  /** The effects of the exact-pair send. */
  lemma SendEffects(chat: Chat, sender: UserId, receiver: UserId, text: string, sockets: map<UserId, string>)
    ensures var r := SendMessage(chat, sender, receiver, text, sockets);
      var msg := Message(sender, receiver, text);
      && ((exists i :: 0 <= i < |r.effects| && r.effects[i].Emitted?) <==> receiver in sockets && sockets[receiver] != "")
      && (receiver in sockets && sockets[receiver] != "" ==>
            && |r.effects| >= 3
            && r.effects[|r.effects| - 1] == Emitted(sockets[receiver], "newMessage", msg)
            && r.effects[|r.effects| - 2].ConversationSaved?
            && r.effects[|r.effects| - 3] == MessageCreated(|chat.messages|))
      && ((exists i :: 0 <= i < |r.effects| && r.effects[i].ConversationCreated?) <==> FindPair(chat, sender, receiver).None?)
  {
    var found := FindPair(chat, sender, receiver);
    SendWithEffects(chat, found, sender, receiver, text, sockets);
    assert SendMessage(chat, sender, receiver, text, sockets) == SendWith(chat, found, sender, receiver, text, sockets);
  }

  /** The store effect and the push of the send as written, with the `$all`
      lookup: the first conversation listing both users, or a new one, grows
      by the new id; nothing else changes; the push goes out exactly when
      the receiver has a non-empty socket id. */
  lemma SendAsWrittenEffects(chat: Chat, sender: UserId, receiver: UserId, text: string, sockets: map<UserId, string>)
    ensures var r := SendMessageAsWritten(chat, sender, receiver, text, sockets);
      var found := FindAll(chat, sender, receiver);
      var out := r.chat.conversations;
      var k := if found.Some? then found.value else |chat.conversations|;
      var c := if found.Some? then chat.conversations[found.value] else Conversation([sender, receiver], []);
      && |out| == (if found.Some? then |chat.conversations| else |chat.conversations| + 1)
      && out[k] == c.(messages := c.messages + [|chat.messages|])
      && (forall j :: 0 <= j < |chat.conversations| && j != k ==> out[j] == chat.conversations[j])
      && ((exists i :: 0 <= i < |r.effects| && r.effects[i].Emitted?) <==> receiver in sockets && sockets[receiver] != "")
      && ((exists i :: 0 <= i < |r.effects| && r.effects[i].ConversationCreated?) <==> found.None?)
  {
    SendWithStoreEffect(chat, FindAll(chat, sender, receiver), sender, receiver, text, sockets);
    SendWithEffects(chat, FindAll(chat, sender, receiver), sender, receiver, text, sockets);
  }

  // -------------------------------------------------------------------- read

  /** Mongoose `populate` of an id list: each id replaced by its message;
      ids with no message are dropped. */
  function Populate(ids: seq<nat>, msgs: seq<Message>): (r: seq<Message>)
    ensures |r| <= |ids|
    ensures forall i :: 0 <= i < |r| ==> r[i] in msgs
  {
    if |ids| == 0 then []
    else if ids[0] < |msgs| then [msgs[ids[0]]] + Populate(ids[1..], msgs)
    else Populate(ids[1..], msgs)
  }

  /** When every id exists, populating keeps every position: the i-th
      message is the one the i-th id names. */
  lemma {:induction false} PopulateAllPresent(ids: seq<nat>, msgs: seq<Message>)
    requires forall i :: 0 <= i < |ids| ==> ids[i] < |msgs|
    ensures |Populate(ids, msgs)| == |ids|
    ensures forall i :: 0 <= i < |ids| ==> Populate(ids, msgs)[i] == msgs[ids[i]]
  {
    if |ids| > 0 {
      PopulateAllPresent(ids[1..], msgs);
    }
  }

  /** `getMessages` between the caller `me` and `other`: the populated
      messages of their conversation, or an empty list when they have none. */
  function GetMessages(chat: Chat, me: UserId, other: UserId): (r: Outcome<seq<Message>>)
    ensures r.Respond? && r.status == 200 && r.message == "Messages retrieved successfully" && r.data.Some?
    ensures FindPair(chat, me, other).None? ==> r.data == Some([])
  {
    match FindPair(chat, me, other)
    case None => Respond(200, "Messages retrieved successfully", Some([]))
    case Some(k) => Respond(200, "Messages retrieved successfully", Some(Populate(chat.conversations[k].messages, chat.messages)))
  }

  /** `getMessages` exactly as written, with the `$all` lookup. */
  function GetMessagesAsWritten(chat: Chat, me: UserId, other: UserId): (r: Outcome<seq<Message>>)
    ensures r.Respond? && r.status == 200 && r.data.Some?
    ensures FindAll(chat, me, other).None? ==> r.data == Some([])
  {
    match FindAll(chat, me, other)
    case None => Respond(200, "Messages retrieved successfully", Some([]))
    case Some(k) => Respond(200, "Messages retrieved successfully", Some(Populate(chat.conversations[k].messages, chat.messages)))
  }

  // --------------------------------------------------------------- invariant

  /** A message belongs in a conversation when its sender and receiver are
      exactly the conversation's participants. */
  predicate Belongs(m: Message, c: Conversation) {
    multiset{m.senderId, m.receiverId} == multiset(c.participants)
  }

  /** A conversation has two participant slots, and every id it lists names
      a stored message between its participants. */
  predicate ConversationOk(c: Conversation, msgs: seq<Message>) {
    && |c.participants| == 2
    && forall i :: 0 <= i < |c.messages| ==> c.messages[i] < |msgs| && Belongs(msgs[c.messages[i]], c)
  }

  predicate Consistent(chat: Chat) {
    forall k :: 0 <= k < |chat.conversations| ==> ConversationOk(chat.conversations[k], chat.messages)
  }

  /** Storing one more message leaves every conversation's ids valid. */
  lemma MoreMessagesKeepOk(c: Conversation, msgs: seq<Message>, m: Message)
    requires ConversationOk(c, msgs)
    ensures ConversationOk(c, msgs + [m])
  {
    forall i | 0 <= i < |c.messages|
      ensures (msgs + [m])[c.messages[i]] == msgs[c.messages[i]]
    {
    }
  }

  /** Appending the id of a newly stored message that belongs in the
      conversation keeps it consistent. */
  lemma AppendKeepsOk(c: Conversation, msgs: seq<Message>, m: Message)
    requires ConversationOk(c, msgs) && Belongs(m, c)
    ensures ConversationOk(c.(messages := c.messages + [|msgs|]), msgs + [m])
  {
    MoreMessagesKeepOk(c, msgs, m);
  }

  /** Sending keeps the store consistent. */
  lemma SendKeepsConsistent(chat: Chat, sender: UserId, receiver: UserId, text: string, sockets: map<UserId, string>)
    requires Consistent(chat)
    ensures Consistent(SendMessage(chat, sender, receiver, text, sockets).chat)
  {
    var r := SendMessage(chat, sender, receiver, text, sockets);
    var msg := Message(sender, receiver, text);
    var k := Target(chat, sender, receiver);
    var c := Base(chat, sender, receiver);
    SendStoreEffect(chat, sender, receiver, text, sockets);
    assert ConversationOk(c, chat.messages);
    assert Belongs(msg, c);
    forall j | 0 <= j < |r.chat.conversations|
      ensures ConversationOk(r.chat.conversations[j], r.chat.messages)
    {
      if j == k {
        AppendKeepsOk(c, chat.messages, msg);
      } else {
        MoreMessagesKeepOk(chat.conversations[j], chat.messages, msg);
      }
    }
  }

  /** In a consistent store every message `getMessages` returns to `me` for
      `other` is between the two of them, in one direction or the other. */
  lemma ReadOnlyOwnMessages(chat: Chat, me: UserId, other: UserId)
    requires Consistent(chat)
    ensures forall m :: m in GetMessages(chat, me, other).data.value ==>
      (m.senderId == me && m.receiverId == other) || (m.senderId == other && m.receiverId == me)
  {
    var found := FindPair(chat, me, other);
    if found.Some? {
      var c := chat.conversations[found.value];
      assert ConversationOk(c, chat.messages);
      PopulateAllPresent(c.messages, chat.messages);
      var out := Populate(c.messages, chat.messages);
      forall m | m in out
        ensures (m.senderId == me && m.receiverId == other) || (m.senderId == other && m.receiverId == me)
      {
        var i :| 0 <= i < |out| && out[i] == m;
        assert m == chat.messages[c.messages[i]];
        assert multiset{m.senderId, m.receiverId} == multiset{me, other};
        assert m.senderId in multiset{me, other};
        if m.senderId == me {
          assert multiset{m.receiverId} == multiset{other};
        } else {
          assert multiset{m.receiverId} == multiset{me};
        }
      }
    }
  }

  /** The first conversation of a pair is found wherever it sits. */
  lemma FindPairAt(chat: Chat, a: UserId, b: UserId, k: nat)
    requires k < |chat.conversations| && IsPair(chat.conversations[k], a, b)
    requires forall j :: 0 <= j < k ==> !IsPair(chat.conversations[j], a, b)
    ensures FindPair(chat, a, b) == Some(k)
  {
  }

  /** After A writes to B, the pair's lookup, in either order, finds the
      conversation the send wrote to. */
  lemma SendFindsTarget(chat: Chat, a: UserId, b: UserId, text: string, sockets: map<UserId, string>)
    ensures var out := SendMessage(chat, a, b, text, sockets).chat;
      && FindPair(out, a, b) == Some(Target(chat, a, b))
      && FindPair(out, b, a) == Some(Target(chat, a, b))
  {
    var r := SendMessage(chat, a, b, text, sockets);
    var k := Target(chat, a, b);
    SendStoreEffect(chat, a, b, text, sockets);
    var out := r.chat.conversations;
    forall j | 0 <= j < k
      ensures !IsPair(out[j], a, b)
    {
      assert out[j] == chat.conversations[j];
    }
    FindPairAt(r.chat, a, b, k);
    LookupSymmetric(r.chat, a, b);
  }

  /** After A writes to B in a consistent store, B's `getMessages` for A
      ends with that message, and a reply from B to A lands in the same
      conversation without creating another. */
  lemma SendThenRead(chat: Chat, a: UserId, b: UserId, text: string, reply: string, sockets: map<UserId, string>)
    requires Consistent(chat)
    ensures var r := SendMessage(chat, a, b, text, sockets);
      && FindPair(r.chat, b, a) == Some(Target(chat, a, b))
      && (var got := GetMessages(r.chat, b, a).data.value;
          |got| > 0 && got[|got| - 1] == Message(a, b, text))
      && |SendMessage(r.chat, b, a, reply, sockets).chat.conversations| == |r.chat.conversations|
  {
    var r := SendMessage(chat, a, b, text, sockets);
    var k := Target(chat, a, b);
    SendKeepsConsistent(chat, a, b, text, sockets);
    SendStoreEffect(chat, a, b, text, sockets);
    SendFindsTarget(chat, a, b, text, sockets);
    var c := r.chat.conversations[k];
    assert ConversationOk(c, r.chat.messages);
    PopulateAllPresent(c.messages, r.chat.messages);
    assert c.messages[|c.messages| - 1] == |chat.messages|;
    SendStoreEffect(r.chat, b, a, reply, sockets);
  }

  // ------------------------------------------------ the handlers as written

  /** Every conversation of a consistent store has two participant slots. */
  lemma ConsistentHasTwoSlots(chat: Chat)
    requires Consistent(chat)
    ensures TwoSlots(chat)
  {
    forall k | 0 <= k < |chat.conversations|
      ensures |chat.conversations[k].participants| == 2
    {
      assert ConversationOk(chat.conversations[k], chat.messages);
    }
  }

  /** For two different users, `getMessages` as written, with its `$all`
      lookup, answers exactly what the exact-pair read answers. */
  lemma GetMessagesMatchesSource(chat: Chat, me: UserId, other: UserId)
    requires me != other && TwoSlots(chat)
    ensures GetMessagesAsWritten(chat, me, other) == GetMessages(chat, me, other)
  {
    FindAllIsFindPair(chat, me, other);
  }

  /** The send as written keeps a consistent store consistent whenever the
      sender and the receiver are different users. */
  lemma SendAsWrittenKeepsConsistent(chat: Chat, sender: UserId, receiver: UserId, text: string,
                                     sockets: map<UserId, string>)
    requires sender != receiver && Consistent(chat)
    ensures Consistent(SendMessageAsWritten(chat, sender, receiver, text, sockets).chat)
  {
    ConsistentHasTwoSlots(chat);
    SendMessageMatchesSource(chat, sender, receiver, text, sockets);
    SendKeepsConsistent(chat, sender, receiver, text, sockets);
  }

  /** In a consistent store, the read as written between two different
      users returns only messages exchanged between those two. */
  lemma ReadAsWrittenOnlyOwnMessages(chat: Chat, me: UserId, other: UserId)
    requires me != other && Consistent(chat)
    ensures forall m :: m in GetMessagesAsWritten(chat, me, other).data.value ==>
      (m.senderId == me && m.receiverId == other) || (m.senderId == other && m.receiverId == me)
  {
    ConsistentHasTwoSlots(chat);
    GetMessagesMatchesSource(chat, me, other);
    ReadOnlyOwnMessages(chat, me, other);
  }

  /** Through the handlers as written, after A writes to a different user B
      in a consistent store, B's read for A ends with that message. */
  lemma SendThenReadAsWritten(chat: Chat, a: UserId, b: UserId, text: string, sockets: map<UserId, string>)
    requires a != b && Consistent(chat)
    ensures var out := SendMessageAsWritten(chat, a, b, text, sockets).chat;
      var got := GetMessagesAsWritten(out, b, a).data.value;
      |got| > 0 && got[|got| - 1] == Message(a, b, text)
  {
    ConsistentHasTwoSlots(chat);
    SendMessageMatchesSource(chat, a, b, text, sockets);
    var out := SendMessage(chat, a, b, text, sockets).chat;
    SendThenRead(chat, a, b, text, text, sockets);
    SendKeepsConsistent(chat, a, b, text, sockets);
    ConsistentHasTwoSlots(out);
    GetMessagesMatchesSource(out, b, a);
  }

  // ---------------------------------------------------------------- finding

  /** A store holding one empty conversation between users 1 and 2. */
  const OnePair := Chat([Conversation([1, 2], [])], [])

  const NoteToSelf := Message(1, 1, "note to self")

  /** With the `$all` lookup a message a user sends to themself lands in any
      conversation that includes them; here user 1's note to self is filed
      in the conversation with user 2, and user 2 then reads it. */
  lemma SelfMessageLeaksAsWritten()
    ensures SendMessageAsWritten(OnePair, 1, 1, "note to self", map[]).chat.conversations == [Conversation([1, 2], [0])]
    ensures GetMessagesAsWritten(SendMessageAsWritten(OnePair, 1, 1, "note to self", map[]).chat, 2, 1).data
         == Some([NoteToSelf])
    ensures !Consistent(SendMessageAsWritten(OnePair, 1, 1, "note to self", map[]).chat)
  {
    var chat := OnePair;
    var msg := NoteToSelf;
    assert HasAll(chat.conversations[0], 1, 1);
    assert FindAll(chat, 1, 1) == Some(0);
    var r := SendMessageAsWritten(chat, 1, 1, "note to self", map[]);
    assert r.chat.conversations == [Conversation([1, 2], [] + [0])];
    assert [] + [0] == [0];
    assert r.chat.conversations == [Conversation([1, 2], [0])];
    assert r.chat.messages == [msg];
    assert HasAll(r.chat.conversations[0], 2, 1);
    assert FindAll(r.chat, 2, 1) == Some(0);
    assert Populate([], [msg]) == [];
    assert Populate([0], [msg]) == [msg] + Populate([0][1..], [msg]);
    assert [0][1..] == [];
    assert [msg] + [] == [msg];
    assert Populate([0], [msg]) == [msg];
    assert GetMessagesAsWritten(r.chat, 2, 1).data == Some([msg]);
    var c := r.chat.conversations[0];
    assert !Belongs(msg, c) by {
      assert multiset{1, 1}[2] == 0;
      assert multiset([1, 2])[2] == 1;
    }
    assert c.messages[0] == 0 && r.chat.messages[0] == msg;
    assert !ConversationOk(c, r.chat.messages);
  }

  /** With the exact-pair lookup the same note to self opens a conversation
      of its own, and the conversation with user 2 is untouched. */
  lemma SelfMessageStaysPrivate()
    ensures SendMessage(OnePair, 1, 1, "note to self", map[]).chat.conversations
         == [Conversation([1, 2], []), Conversation([1, 1], [0])]
    ensures GetMessages(SendMessage(OnePair, 1, 1, "note to self", map[]).chat, 2, 1).data == Some([])
  {
    var chat := OnePair;
    assert !IsPair(chat.conversations[0], 1, 1) by {
      assert multiset([1, 2])[2] == 1;
      assert multiset{1, 1}[2] == 0;
    }
    assert FindPair(chat, 1, 1) == None;
    var r := SendMessage(chat, 1, 1, "note to self", map[]);
    assert r.chat.conversations == [Conversation([1, 2], []), Conversation([1, 1], [] + [0])];
    assert [] + [0] == [0];
    assert r.chat.conversations == [Conversation([1, 2], []), Conversation([1, 1], [0])];
    assert IsPair(r.chat.conversations[0], 2, 1) by {
      assert multiset([1, 2]) == multiset{2, 1};
    }
    assert FindPair(r.chat, 2, 1) == Some(0);
    assert Populate([], r.chat.messages) == [];
    assert GetMessages(r.chat, 2, 1).data == Some(Populate([], r.chat.messages));
  }
}
