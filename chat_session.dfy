/** The chat view's session (components/ChatInterface.tsx): the message log, the input box and the
    "reply pending" flag, with the welcome effect and `handleSend`. `handleSend` suspends at its one
    `await`; it is modelled as the part before the call (BeginSend), the call, and the part after it
    (CompleteSend), so that the state in between is visible. */
module Chat {
  import opened Types
  import opened Text
  import opened Gemini
  import Constants
  import Markers
  import Render

  /** The welcome message; it mentions `[TORQUE_UNIT]`, which is no product marker. */
  const WelcomeText: string := Welcome1 + "[" + Welcome2 + Welcome3
  const Welcome1: string := "LINK_SYNC: SECURE.\n"
  const Welcome2: string := "TORQUE_UNIT] DEPLOYED.\n" + "MISSION: NOISE_SUBTRACTION.\n\n"
  const Welcome3: string := "State your intent, Builder. " + "We provide the leverage. " + "No fluff. No trap."

  /** The welcome text holds no product marker, so it renders as one span of its own text. */
  lemma WelcomeRendersAsText()
    ensures Markers.Split(WelcomeText) == [WelcomeText]
    ensures Render.RenderText(WelcomeText, Constants.Products) == [Render.TextSpan(WelcomeText)]
  {
    WelcomeHasNoBracketP();
    Markers.NoBracketPNoOpen(WelcomeText);
    Markers.SplitWithoutOpen(WelcomeText);
    Render.RenderWithoutOpen(WelcomeText, Constants.Products);
  }

  /** The only `[` of the welcome text opens `[TORQUE_UNIT]`. */
  lemma WelcomeHasNoBracketP()
    ensures Markers.NoBracketP(WelcomeText)
  {
    WelcomeChunksNoBracket();
    Markers.NoBracketNoBracketP(Welcome1);
    assert Markers.NoBracketP("[");
    Markers.NoBracketNoBracketP(Welcome2);
    Markers.NoBracketNoBracketP(Welcome3);
    Markers.NoBracketPConcat(Welcome1, "[");
    Markers.NoBracketPConcat(Welcome1 + "[", Welcome2);
    Markers.NoBracketPConcat(Welcome1 + "[" + Welcome2, Welcome3);
  }

  /** Neither piece around the one `[` holds another, and neither starts with `P`. */
  lemma WelcomeChunksNoBracket()
    ensures '[' !in Welcome1 && '[' !in Welcome2 && '[' !in Welcome3
    ensures Welcome2 != [] && Welcome2[0] != 'P' && Welcome3[0] != 'P'
  {
    WelcomeChunk1();
    WelcomeChunk2();
    WelcomeChunk3();
  }

  lemma WelcomeChunk1()
    ensures '[' !in Welcome1
  {
  }

  lemma WelcomeChunk2()
    ensures '[' !in Welcome2
  {
  }

  lemma WelcomeChunk3()
    ensures '[' !in Welcome3
  {
  }

  /** The role name a message carries in the history handed to the service. */
  function RoleName(role: MessageRole): string {
    match role
    case User => "user"
    case Assistant => "assistant"
  }

  /** `messages.map(m => ({ role: m.role, text: m.text }))`. */
  function History(messages: seq<ChatMessage>): (history: seq<HistoryEntry>)
    ensures |history| == |messages|
  {
    seq(|messages|, k requires 0 <= k < |messages| => HistoryEntry(RoleName(messages[k].role), messages[k].text))
  }

  /** In the transcript built from the session's history, exactly the user's messages are user turns,
      every message keeps its text and position, and the new message comes last. */
  lemma SessionTranscript(message: string, messages: seq<ChatMessage>)
    ensures |Transcript(message, History(messages))| == |messages| + 1
    ensures forall k :: 0 <= k < |messages| ==>
      Transcript(message, History(messages))[k].text == messages[k].text
      && (Transcript(message, History(messages))[k].role == "user" <==> messages[k].role == User)
    ensures Transcript(message, History(messages))[|messages|] == Content("user", message)
  {
    TranscriptShape(message, History(messages));
  }

  /** The messages after the optional opening assistant message (the welcome). */
  function Turns(messages: seq<ChatMessage>): seq<ChatMessage> {
    if messages != [] && messages[0].role == Assistant then messages[1..] else messages
  }

  /** The shape of a session's log: after the welcome, user and assistant messages alternate,
      starting with the user, and a reply is pending exactly when a user message is unanswered. */
  ghost predicate Conversation(messages: seq<ChatMessage>, typing: bool) {
    var turns := Turns(messages);
    (forall k :: 0 <= k < |turns| ==> turns[k].role == (if k % 2 == 0 then User else Assistant))
    && (typing <==> |turns| % 2 == 1)
  }

  /** A reply is pending exactly when the last message is the user's. */
  lemma PendingIffLastFromUser(messages: seq<ChatMessage>, typing: bool)
    requires Conversation(messages, typing)
    ensures typing <==> messages != [] && messages[|messages| - 1].role == User
  {
    var turns := Turns(messages);
    if turns != [] {
      assert turns[|turns| - 1] == messages[|messages| - 1];
    }
  }

  /** Appending to a non-empty log appends to its turns. */
  lemma TurnsAppend(messages: seq<ChatMessage>, m: ChatMessage)
    requires messages != [] || m.role == User
    ensures Turns(messages + [m]) == Turns(messages) + [m]
  {
    if messages != [] {
      assert (messages + [m])[0] == messages[0];
      if messages[0].role == Assistant {
        assert (messages + [m])[1..] == messages[1..] + [m];
      }
    }
  }

  /** With no reply pending, a user message may follow, and then a reply is pending. */
  lemma ConversationAfterUser(messages: seq<ChatMessage>, text: string)
    requires Conversation(messages, false)
    ensures Conversation(messages + [ChatMessage(User, text)], true)
  {
    TurnsAppend(messages, ChatMessage(User, text));
  }

  /** With a reply pending, the assistant's reply answers it. */
  lemma ConversationAfterReply(messages: seq<ChatMessage>, text: string)
    requires Conversation(messages, true)
    ensures Conversation(messages + [ChatMessage(Assistant, text)], false)
  {
    PendingIffLastFromUser(messages, true);
    TurnsAppend(messages, ChatMessage(Assistant, text));
  }

  /** What `handleSend` has captured when it reaches the call: the raw input and the history before it. */
  datatype PendingSend = PendingSend(message: string, history: seq<HistoryEntry>)

  class ChatSession {
    /** The catalog the view renders and sends with every request: the storefront's products. */
    const catalog: seq<Product>
    var messages: seq<ChatMessage>
    var inputValue: string
    var isTyping: bool

    ghost predicate Valid()
      reads this
    {
      Conversation(messages, isTyping)
    }

    constructor()
      ensures Valid() && messages == [] && inputValue == "" && !isTyping
      ensures catalog == Constants.Products
    {
      catalog := Constants.Products;
      messages := [];
      inputValue := "";
      isTyping := false;
    }

    /** The mount effect: the welcome message is added only to an empty log. */
    method ShowWelcome()
      requires Valid()
      modifies this
      ensures Valid()
      ensures messages == if old(messages) == [] then [ChatMessage(Assistant, WelcomeText)] else old(messages)
      ensures inputValue == old(inputValue) && isTyping == old(isTyping)
    {
      if messages == [] {
        messages := [ChatMessage(Assistant, WelcomeText)];
      }
    }

    /** Typing into the input box. */
    method SetInput(text: string)
      requires Valid()
      modifies this
      ensures Valid()
      ensures inputValue == text && messages == old(messages) && isTyping == old(isTyping)
    {
      inputValue := text;
    }

    /** The send guard (and the send button's enabled state): some non-blank input and no reply pending. */
    predicate CanSend()
      reads this
      ensures CanSend() <==> !AllSpace(inputValue) && !isTyping
    {
      Trim(inputValue) != "" && !isTyping
    }

    /** `handleSend` up to the call: a send that passes the guard logs the raw, untrimmed input as a
        user message, clears the input, marks a reply as pending, and hands over the input and the
        history of the log as it was before the new message. A send that fails the guard changes nothing. */
    method BeginSend() returns (pending: Option<PendingSend>)
      requires Valid()
      modifies this
      ensures Valid()
      ensures pending.Some? <==> old(CanSend())
      ensures pending.None? ==>
        messages == old(messages) && inputValue == old(inputValue) && isTyping == old(isTyping)
      ensures pending.Some? ==>
        pending.value == PendingSend(old(inputValue), History(old(messages)))
        && messages == old(messages) + [ChatMessage(User, old(inputValue))]
        && inputValue == "" && isTyping
    {
      if !CanSend() {
        return None;
      }
      var message := inputValue;
      var history := History(messages);
      ConversationAfterUser(messages, message);
      messages := messages + [ChatMessage(User, message)];
      inputValue := "";
      isTyping := true;
      pending := Some(PendingSend(message, history));
    }

    /** `handleSend` after the call: the reply is logged as an assistant message and the pending mark
        is cleared; the input box keeps whatever was typed meanwhile. */
    method CompleteSend(reply: string)
      requires Valid() && isTyping
      modifies this
      ensures Valid()
      ensures messages == old(messages) + [ChatMessage(Assistant, reply)]
      ensures !isTyping && inputValue == old(inputValue)
    {
      ConversationAfterReply(messages, reply);
      messages := messages + [ChatMessage(Assistant, reply)];
      isTyping := false;
    }

    /** The whole of `handleSend` with no input between its two halves: a send that passes the guard
        adds exactly the user's message and the service's answer for the earlier history, whatever
        the outcome of the call, and earlier messages stay as they were. */
    method HandleSend(service: GeminiService, endpoint: Request -> Outcome) returns (exchange: Option<Exchange>)
      requires Valid()
      modifies this
      ensures Valid()
      ensures exchange.Some? <==> old(CanSend())
      ensures exchange.None? ==>
        messages == old(messages) && inputValue == old(inputValue) && isTyping == old(isTyping)
      ensures exchange.Some? ==>
        exchange.value == service.GetChatResponse(old(inputValue), catalog, History(old(messages)), endpoint)
        && messages == old(messages) + [ChatMessage(User, old(inputValue)), ChatMessage(Assistant, exchange.value.reply)]
        && inputValue == "" && !isTyping
    {
      var pending := BeginSend();
      if pending.None? {
        return None;
      }
      var response := service.GetChatResponse(pending.value.message, catalog, pending.value.history, endpoint);
      CompleteSend(response.reply);
      exchange := Some(response);
    }
  }
}
