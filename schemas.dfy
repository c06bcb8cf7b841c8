/**
  The message shapes of the chat service's WebSocket protocol.

  An inbound message is a JSON object sent by a client; it is accepted only
  when its `type` is "chat" (or absent, which defaults to "chat") and its
  `text` holds 1 to 2000 characters. An outbound message is the object the
  server broadcasts; its `type` is "chat" or "system" (default "chat") and it
  must carry `sender`, `text` and `room`, with no bound on the text's length.

  A raw JSON object is modelled as a map from field name to string value;
  fields the schema does not declare are ignored, as the validating library
  does by default. Validation reports every violated constraint at once.
*/
module Schemas {

  datatype Option<T> = None | Some(value: T)

  datatype Result<T, E> = Success(value: T) | Failure(error: E)

  /** The two kinds of message the protocol knows. */
  datatype MessageType = Chat | System

  /** Bounds on the text of an inbound chat message, in characters. */
  const MinTextLength: nat := 1
  const MaxTextLength: nat := 2000

  /** A decoded JSON object whose values are strings. */
  type RawMessage = map<string, string>

  /** One violated field constraint. */
  datatype FieldError =
    | Missing(field: string)
    | NotAllowed(field: string, given: string)
    | TooShort(field: string, minLength: nat)
    | TooLong(field: string, maxLength: nat)

  /** A validated inbound message. */
  datatype WSInMessage = WSInMessage(kind: MessageType, text: string)

  /** An outbound message as the server broadcasts it. */
  datatype WSOutMessage = WSOutMessage(kind: MessageType, sender: string, text: string, room: string)

  /** The wire spelling of a message type. */
  function TypeName(t: MessageType): (s: string)
    ensures s == "chat" <==> t == Chat
    ensures s == "system" <==> t == System
  {
    match t
    case Chat => "chat"
    case System => "system"
  }

  /** Reads a wire spelling back; only the two literals are recognised. */
  function ParseType(s: string): (r: Option<MessageType>)
    ensures r.Some? <==> s == "chat" || s == "system"
    ensures r.Some? ==> TypeName(r.value) == s
  {
    if s == "chat" then Some(Chat)
    else if s == "system" then Some(System)
    else None
  }

  lemma TypeNameRoundTrip(t: MessageType)
    ensures ParseType(TypeName(t)) == Some(t)
  {
  }

  /**
    The `type` field of a raw message, restricted to the kinds in `allowed`.
    An absent field takes the default "chat".
  */
  function ReadType(raw: RawMessage, allowed: set<MessageType>): (r: Result<MessageType, FieldError>)
    requires Chat in allowed
    ensures "type" !in raw ==> r == Success(Chat)
    ensures "type" in raw ==>
      (r.Success? <==> ParseType(raw["type"]).Some? && ParseType(raw["type"]).value in allowed)
    ensures r.Success? ==> r.value in allowed
    ensures r.Success? && "type" in raw ==> TypeName(r.value) == raw["type"]
    ensures r.Failure? ==> "type" in raw && r.error == NotAllowed("type", raw["type"])
  {
    if "type" !in raw then Success(Chat)
    else match ParseType(raw["type"])
      case Some(t) => if t in allowed then Success(t) else Failure(NotAllowed("type", raw["type"]))
      case None => Failure(NotAllowed("type", raw["type"]))
  }

  /** The error, if any, raised by a required string field with no length bound. */
  function RequiredErrors(raw: RawMessage, field: string): (errs: set<FieldError>)
    ensures errs == {} <==> field in raw
  {
    if field in raw then {} else {Missing(field)}
  }

  /** The errors raised by the length-checked `text` field of an inbound message. */
  function InTextErrors(raw: RawMessage): (errs: set<FieldError>)
    ensures errs == {} <==> "text" in raw && MinTextLength <= |raw["text"]| <= MaxTextLength
    ensures Missing("text") in errs <==> "text" !in raw
    ensures TooShort("text", MinTextLength) in errs <==> "text" in raw && |raw["text"]| < MinTextLength
    ensures TooLong("text", MaxTextLength) in errs <==> "text" in raw && |raw["text"]| > MaxTextLength
  {
    if "text" !in raw then {Missing("text")}
    else if |raw["text"]| < MinTextLength then {TooShort("text", MinTextLength)}
    else if |raw["text"]| > MaxTextLength then {TooLong("text", MaxTextLength)}
    else {}
  }

  function TypeErrors(t: Result<MessageType, FieldError>): set<FieldError>
  {
    if t.Failure? then {t.error} else {}
  }

  /** A well-formed inbound message: a chat message with a text of 1 to 2000 characters. */
  predicate ValidIn(m: WSInMessage)
  {
    m.kind == Chat && MinTextLength <= |m.text| <= MaxTextLength
  }

  /** Validation of an inbound message. */
  function ParseIn(raw: RawMessage): (r: Result<WSInMessage, set<FieldError>>)
    ensures r.Success? <==>
      ("type" !in raw || raw["type"] == "chat") &&
      "text" in raw && MinTextLength <= |raw["text"]| <= MaxTextLength
    ensures r.Success? ==> ValidIn(r.value) && r.value.text == raw["text"]
    ensures r.Failure? ==> r.error != {}
    ensures r.Failure? ==>
      (Missing("text") in r.error <==> "text" !in raw) &&
      (TooShort("text", MinTextLength) in r.error <==> "text" in raw && |raw["text"]| < MinTextLength) &&
      (TooLong("text", MaxTextLength) in r.error <==> "text" in raw && |raw["text"]| > MaxTextLength) &&
      ("type" in raw ==> (raw["type"] != "chat" <==> NotAllowed("type", raw["type"]) in r.error))
    ensures r.Failure? ==>
      r.error <= {Missing("text"), TooShort("text", MinTextLength), TooLong("text", MaxTextLength)}
                 + (if "type" in raw then {NotAllowed("type", raw["type"])} else {})
  {
    var t := ReadType(raw, {Chat});
    var errs := TypeErrors(t) + InTextErrors(raw);
    if errs == {} then Success(WSInMessage(t.value, raw["text"])) else Failure(errs)
  }

  /** Validation of an outbound message: any declared kind, three required fields, no length bound. */
  function ParseOut(raw: RawMessage): (r: Result<WSOutMessage, set<FieldError>>)
    ensures r.Success? <==>
      ("type" !in raw || raw["type"] == "chat" || raw["type"] == "system") &&
      "sender" in raw && "text" in raw && "room" in raw
    ensures r.Success? ==>
      r.value.sender == raw["sender"] && r.value.text == raw["text"] && r.value.room == raw["room"] &&
      ("type" in raw ==> TypeName(r.value.kind) == raw["type"]) &&
      ("type" !in raw ==> r.value.kind == Chat)
    ensures r.Failure? ==> r.error != {}
    ensures r.Failure? ==>
      (Missing("sender") in r.error <==> "sender" !in raw) &&
      (Missing("text") in r.error <==> "text" !in raw) &&
      (Missing("room") in r.error <==> "room" !in raw) &&
      ("type" in raw ==>
        (raw["type"] != "chat" && raw["type"] != "system" <==> NotAllowed("type", raw["type"]) in r.error))
    ensures r.Failure? ==>
      r.error <= {Missing("sender"), Missing("text"), Missing("room")}
                 + (if "type" in raw then {NotAllowed("type", raw["type"])} else {})
  {
    var t := ReadType(raw, {Chat, System});
    var errs := TypeErrors(t) + RequiredErrors(raw, "sender") + RequiredErrors(raw, "text") + RequiredErrors(raw, "room");
    if errs == {} then Success(WSOutMessage(t.value, raw["sender"], raw["text"], raw["room"]))
    else Failure(errs)
  }

  /** The JSON object of an inbound message, with every field written out. */
  function DumpIn(m: WSInMessage): (raw: RawMessage)
    ensures raw.Keys == {"type", "text"}
  {
    map["type" := TypeName(m.kind), "text" := m.text]
  }

  /** The JSON object of an outbound message, as the server serialises it. */
  function DumpOut(m: WSOutMessage): (raw: RawMessage)
    ensures raw.Keys == {"type", "sender", "text", "room"}
  {
    map["type" := TypeName(m.kind), "sender" := m.sender, "text" := m.text, "room" := m.room]
  }

  /** Every well-formed inbound message survives serialisation and validation unchanged. */
  lemma InRoundTrip(m: WSInMessage)
    requires ValidIn(m)
    ensures ParseIn(DumpIn(m)) == Success(m)
  {
    var raw := DumpIn(m);
    assert raw["type"] == "chat" && raw["text"] == m.text;
  }

  /** Every outbound message, whatever the length of its text, survives serialisation and validation. */
  lemma OutRoundTrip(m: WSOutMessage)
    ensures ParseOut(DumpOut(m)) == Success(m)
  {
    var raw := DumpOut(m);
    assert raw["type"] == TypeName(m.kind);
    assert raw["sender"] == m.sender && raw["text"] == m.text && raw["room"] == m.room;
  }

  /** Validation is a projection: re-validating the dump of an accepted message gives it back. */
  lemma InCanonical(raw: RawMessage)
    requires ParseIn(raw).Success?
    ensures ParseIn(DumpIn(ParseIn(raw).value)) == ParseIn(raw)
  {
    InRoundTrip(ParseIn(raw).value);
  }

  /** Omitting `type` from an inbound message is the same as sending "chat". */
  lemma InTypeDefaultsToChat(raw: RawMessage)
    requires "type" !in raw
    ensures ParseIn(raw) == ParseIn(raw["type" := "chat"])
  {
    var raw' := raw["type" := "chat"];
    assert "text" in raw <==> "text" in raw';
    if "text" in raw {
      assert raw'["text"] == raw["text"];
    }
    if ParseIn(raw).Failure? {
      assert InTextErrors(raw) == InTextErrors(raw');
    }
  }

  /** Omitting `type` from an outbound message is the same as sending "chat". */
  lemma OutTypeDefaultsToChat(raw: RawMessage)
    requires "type" !in raw
    ensures ParseOut(raw) == ParseOut(raw["type" := "chat"])
  {
    var raw' := raw["type" := "chat"];
    assert RequiredErrors(raw, "sender") == RequiredErrors(raw', "sender");
    assert RequiredErrors(raw, "text") == RequiredErrors(raw', "text");
    assert RequiredErrors(raw, "room") == RequiredErrors(raw', "room");
    if ParseOut(raw).Success? {
      assert raw'["sender"] == raw["sender"] && raw'["text"] == raw["text"] && raw'["room"] == raw["room"];
    }
  }
}
