/** Two routes end to end, middleware then handler then error handler:
    sending a message (validate the body, then `sendMessage`) and
    registering (the avatar upload, then validate the body, then
    `registerUser`). */
module Routes {
  import opened Basics
  import opened JsString
  import opened Zod
  import opened Api
  import opened ValidationMiddleware
  import opened MessageValidation
  import opened UserValidation
  import opened Upload
  import opened Accounts
  import opened Conversations

  /** The send-message schema has no email field, so the format test it is
      given is never consulted. */
  const NoEmailField: string -> bool := (s: string) => true

  datatype MessageExchange = MessageExchange(chat: Chat, effects: seq<Effect>, reply: Reply<Message>)

  /** `POST /send/:id`: validate the body, then send its (trimmed) message
      with the handler as written, `$all` lookup included. */
  function SendMessageRoute(chat: Chat, sender: UserId, receiver: UserId, body: Body,
                            sockets: map<UserId, string>, nodeEnv: Option<string>): (r: MessageExchange)
    ensures Parse(SendMessageSchema, body, NoEmailField).Failure? ==>
      r.chat == chat && r.effects == [] && r.reply.status == 409
  {
    match Validate(SendMessageSchema, body, NoEmailField)
    case Reject(err, _) => MessageExchange(chat, [], ErrorHandler(err, nodeEnv))
    case Next(parsed) =>
      var s := SendMessageAsWritten(chat, sender, receiver, Text(parsed, "message"), sockets);
      MessageExchange(s.chat, s.effects, Complete(s.outcome, nodeEnv))
  }

  /** A message is stored exactly when the body's `message` is a string whose
      trim is 1 to 255 code units long, and what is stored and returned is
      the trimmed text. A whitespace-only message is answered 409 "Message
      is required." and leaves the store and the sockets untouched. */
  lemma SendMessageRouteVerdict(chat: Chat, sender: UserId, receiver: UserId, body: Body,
                                sockets: map<UserId, string>, nodeEnv: Option<string>)
    ensures SendMessageRoute(chat, sender, receiver, body, sockets, nodeEnv).reply.status == 201 <==>
      "message" in body && body["message"].Str? && 1 <= Utf16Length(Trim(body["message"].text)) <= 255
    ensures SendMessageRoute(chat, sender, receiver, body, sockets, nodeEnv).reply.status == 201 ==>
      var m := Message(sender, receiver, Trim(body["message"].text));
      && SendMessageRoute(chat, sender, receiver, body, sockets, nodeEnv).chat.messages == chat.messages + [m]
      && SendMessageRoute(chat, sender, receiver, body, sockets, nodeEnv).reply.body.data == Some(m)
    ensures "message" in body && body["message"].Str? && AllTrimmable(body["message"].text) ==>
      && SendMessageRoute(chat, sender, receiver, body, sockets, nodeEnv).reply
         == Reply(409, Envelope(Some(false), "Message is required.", None, None))
      && SendMessageRoute(chat, sender, receiver, body, sockets, nodeEnv).chat == chat
      && SendMessageRoute(chat, sender, receiver, body, sockets, nodeEnv).effects == []
  {
    MessageAcceptance(body, NoEmailField);
    MessageRejections(body, NoEmailField);
    if Parse(SendMessageSchema, body, NoEmailField).Success? {
      var parsed := Parse(SendMessageSchema, body, NoEmailField).value;
      assert Text(parsed, "message") == Trim(body["message"].text);
    }
  }

  datatype AccountExchange = AccountExchange(store: Store, reply: Reply<Payload>)

  /** What `registerUser` receives once the upload and validation have
      passed: the stored file, if any, and the parsed body. `cloud` is what
      the avatar upload to the image host returns: its `secure_url`, or
      nothing when the upload fails. */
  function RegisterValidated(store: Store, stored: Option<StoredFile>, parsed: Body, cloud: Option<string>,
                             nodeEnv: Option<string>): (r: AccountExchange)
    ensures r.reply.status == 201 ==>
      && stored.Some? && cloud.Some?
      && r.store == store + [NewUser(Profile(Text(parsed, "fullName"), Text(parsed, "username"),
                                          Text(parsed, "email"), Text(parsed, "phone")),
                                  Text(parsed, "password"), cloud.value)]
    ensures r.reply.status != 201 ==> r.store == store
  {
    var avatar := if stored.None? then NoFile else if cloud.Some? then Uploaded(cloud.value) else UploadFailed;
    var p := Profile(Text(parsed, "fullName"), Text(parsed, "username"), Text(parsed, "email"), Text(parsed, "phone"));
    var step := Register(store, p, Text(parsed, "password"), avatar);
    AccountExchange(step.store, Complete(step.outcome, nodeEnv))
  }

  /** `POST /register`: the avatar upload, then validation against the
      signup schema, then `registerUser` on the parsed body. A user is
      created only when all three pass; a body the schema refuses is
      answered 409 and a refused upload with its own error, before the
      handler sees anything. */
  function RegisterRoute(store: Store, file: Option<FilePart>, body: Body, cloud: Option<string>,
                         emailOk: string -> bool, nodeEnv: Option<string>, stack: string): (r: AccountExchange)
    ensures r.reply.status == 201 <==>
      && Single("avatar", file, stack).Success?
      && Parse(SignupSchema, body, emailOk).Success?
      && RegisterValidated(store, Single("avatar", file, stack).value,
                           Parse(SignupSchema, body, emailOk).value, cloud, nodeEnv).reply.status == 201
    ensures r.reply.status != 201 ==> r.store == store
    ensures Single("avatar", file, stack).Failure? ==> r.reply == ErrorHandler(Single("avatar", file, stack).error, nodeEnv)
    ensures Single("avatar", file, stack).Success? && !Parse(SignupSchema, body, emailOk).Success? ==>
      r.reply.status == ValidationStatus
      && r.reply.body.message == Parse(SignupSchema, body, emailOk).error[0]
  {
    match Single("avatar", file, stack)
    case Failure(err) => AccountExchange(store, ErrorHandler(err, nodeEnv))
    case Success(stored) =>
      match Validate(SignupSchema, body, emailOk)
      case Reject(err, _) => AccountExchange(store, ErrorHandler(err, nodeEnv))
      case Next(parsed) => RegisterValidated(store, stored, parsed, cloud, nodeEnv)
  }

  /** The upload runs before validation: an avatar of a disallowed type is
      answered 400 with the type message whatever the rest of the body
      holds, and nothing is stored. */
  lemma RegisterChecksFileTypeFirst(store: Store, part: FilePart, body: Body, cloud: Option<string>,
                                    emailOk: string -> bool, nodeEnv: Option<string>, stack: string)
    requires part.fieldName == "avatar" && part.mimeType !in AllowedMimes
    ensures RegisterRoute(store, Some(part), body, cloud, emailOk, nodeEnv, stack)
         == AccountExchange(store, Reply(400, Envelope(Some(false), InvalidTypeMessage, None, None)))
  {
  }

  /** A registration that succeeds appends one user holding the trimmed
      fields of the body, and keeps usernames, emails and phone numbers
      unique. */
  lemma RegisterRouteStoresTrimmed(store: Store, file: Option<FilePart>, body: Body, cloud: Option<string>,
                                   emailOk: string -> bool, nodeEnv: Option<string>, stack: string)
    requires Unique(store)
    requires RegisterRoute(store, file, body, cloud, emailOk, nodeEnv, stack).reply.status == 201
    ensures |RegisterRoute(store, file, body, cloud, emailOk, nodeEnv, stack).store| == |store| + 1
    ensures var s := RegisterRoute(store, file, body, cloud, emailOk, nodeEnv, stack).store;
      && Unique(s)
      && s[|store|].fullName == Trim(Text(body, "fullName"))
      && s[|store|].username == Trim(Text(body, "username"))
      && s[|store|].email == Trim(Text(body, "email"))
      && s[|store|].phone == Trim(Text(body, "phone"))
      && s[|store|].password == Trim(Text(body, "password"))
  {
    var up := Single("avatar", file, stack);
    assert up.Success?;
    var g := Validate(SignupSchema, body, emailOk);
    assert g.Next?;
    var parsed := g.body;
    var r := RegisterValidated(store, up.value, parsed, cloud, nodeEnv);
    assert RegisterRoute(store, file, body, cloud, emailOk, nodeEnv, stack) == r;
    SignupOutput(body, emailOk);
    var p := Profile(Text(parsed, "fullName"), Text(parsed, "username"), Text(parsed, "email"), Text(parsed, "phone"));
    var avatar := if up.value.None? then NoFile else if cloud.Some? then Uploaded(cloud.value) else UploadFailed;
    RegisterKeepsUnique(store, p, Text(parsed, "password"), avatar);
    assert r.store == Register(store, p, Text(parsed, "password"), avatar).store;
    assert Text(parsed, "fullName") == Trim(Text(body, "fullName"));
    assert Text(parsed, "username") == Trim(Text(body, "username"));
    assert Text(parsed, "email") == Trim(Text(body, "email"));
    assert Text(parsed, "phone") == Trim(Text(body, "phone"));
    assert Text(parsed, "password") == Trim(Text(body, "password"));
  }
}
