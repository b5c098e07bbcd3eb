/** The request schema of the send-message route: one `message` string,
    trimmed, then between 1 and 255 UTF-16 code units long. */
module MessageValidation {
  import opened Basics
  import opened JsString
  import opened Zod

  const MessageField := Field("message", "Message is required.", "Message must be a string.",
    [TrimStep,
     MinLength(1, "Message is required."),
     MaxLength(255, "Message must be 255 or fewer characters long.")])

  const SendMessageSchema: Schema := [MessageField]

  /** A one-field schema reports exactly that field's issues. */
  lemma SingleFieldParse(body: Body, emailOk: string -> bool)
    ensures Parse(SendMessageSchema, body, emailOk).Failure? ==>
      Parse(SendMessageSchema, body, emailOk).error == FieldIssues(MessageField, body, emailOk)
    ensures Parse(SendMessageSchema, body, emailOk).Success? <==> FieldIssues(MessageField, body, emailOk) == []
  {
    assert SendMessageSchema[1..] == [];
    assert AllIssues(SendMessageSchema, body, emailOk) == FieldIssues(MessageField, body, emailOk) + [];
  }

  /** Issues of a present string message: the lower-bound message when the
      trimmed text is empty, the upper-bound message when it is too long. */
  lemma MessageIssues(body: Body, s: string, emailOk: string -> bool)
    requires "message" in body && body["message"] == Str(s)
    ensures FieldIssues(MessageField, body, emailOk) ==
      (if Utf16Length(Trim(s)) < 1 then ["Message is required."] else [])
      + (if Utf16Length(Trim(s)) > 255 then ["Message must be 255 or fewer characters long."] else [])
  {
    assert Lookup(body, MessageField.key) == Some(Str(s));
    TrimmedBoundedIssues(MessageField, 1, 255, "Message is required.",
      "Message must be 255 or fewer characters long.", s, emailOk);
  }

  /** The send-message schema rejects a missing message and a whitespace-only
      message alike with "Message is required.", a non-string with "Message
      must be a string.", and a trimmed message longer than 255 code units
      with the upper-bound message; it reports nothing else. */
  lemma MessageRejections(body: Body, emailOk: string -> bool)
    ensures "message" !in body ==>
      Parse(SendMessageSchema, body, emailOk) == Failure(["Message is required."])
    ensures "message" in body && body["message"].NonString? ==>
      Parse(SendMessageSchema, body, emailOk) == Failure(["Message must be a string."])
    ensures "message" in body && body["message"].Str? && AllTrimmable(body["message"].text) ==>
      Parse(SendMessageSchema, body, emailOk) == Failure(["Message is required."])
    ensures "message" in body && body["message"].Str? && Utf16Length(Trim(body["message"].text)) > 255 ==>
      Parse(SendMessageSchema, body, emailOk) == Failure(["Message must be 255 or fewer characters long."])
  {
    SingleFieldParse(body, emailOk);
    if "message" in body && body["message"].Str? {
      var s := body["message"].text;
      MessageIssues(body, s, emailOk);
      TrimEmptyIff(s);
      if AllTrimmable(s) {
        assert Utf16Length(Trim(s)) == 0;
        assert FieldIssues(MessageField, body, emailOk) == ["Message is required."];
      } else if Utf16Length(Trim(s)) > 255 {
        assert FieldIssues(MessageField, body, emailOk) == ["Message must be 255 or fewer characters long."];
      }
    }
  }

  /** The schema accepts exactly a string whose trim is 1 to 255 code units
      long, and the accepted body holds only that trimmed string. */
  lemma MessageAcceptance(body: Body, emailOk: string -> bool)
    ensures Parse(SendMessageSchema, body, emailOk).Success? <==>
      "message" in body && body["message"].Str? && 1 <= Utf16Length(Trim(body["message"].text)) <= 255
    ensures Parse(SendMessageSchema, body, emailOk).Success? ==>
      Parse(SendMessageSchema, body, emailOk).value == map["message" := Str(Trim(body["message"].text))]
  {
    SingleFieldParse(body, emailOk);
    if "message" in body && body["message"].Str? {
      TrimmedBoundedIssues(MessageField, 1, 255, "Message is required.",
        "Message must be 255 or fewer characters long.", body["message"].text, emailOk);
    }
    if Parse(SendMessageSchema, body, emailOk).Success? {
      var out := Parse(SendMessageSchema, body, emailOk).value;
      assert Keys(SendMessageSchema) == {"message"};
      assert out["message"] == Str(FieldValue(MessageField, body, emailOk)) by {
        assert DistinctKeys(SendMessageSchema);
        assert SendMessageSchema[0].key == "message";
      }
    }
  }

  /** An accepted message validated again is accepted unchanged. */
  lemma MessageReparse(body: Body, emailOk: string -> bool)
    requires Parse(SendMessageSchema, body, emailOk).Success?
    ensures Parse(SendMessageSchema, Parse(SendMessageSchema, body, emailOk).value, emailOk)
         == Parse(SendMessageSchema, body, emailOk)
  {
    ReparseIsIdentity(SendMessageSchema, body, emailOk);
  }
}
