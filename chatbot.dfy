/** components/Chatbot.tsx: the conversation log, the opening question, the
    gated submit and the approval of a suggestion. */
module Chatbot {
  import opened Types
  import opened Strings

  const StartMessage: string := "Estructura aprobada. ¡Empecemos a escribir!"
  const ImprovedMessage: string :=
    "Aquí tienes una versión mejorada de tu respuesta. Puedes aprobarla para agregarla a tu documento."
  const ApprovedMessage: string := "¡Sugerencia aprobada y añadida al documento!"

  /** What `improveUserResponse` resolves to. */
  datatype Improvement = Improvement(suggestion: string, followupQuestion: string)

  /** One message of the `prev.map` in `handleApprove`: the approved
      suggestion is dropped, everything else is kept. */
  function ClearIfApproved(m: ChatMessage, approved: string): ChatMessage
  {
    if m.suggestion == Some(approved) then m.(suggestion := None) else m
  }

  /** `prev.map(...)` over the whole log. */
  function ClearSuggestion(messages: seq<ChatMessage>, approved: string): seq<ChatMessage>
  {
    seq(|messages|, i requires 0 <= i < |messages| => ClearIfApproved(messages[i], approved))
  }

  /** The suggestions the log currently offers: ChatMessageBubble shows an
      approve button for each truthy `suggestion`. */
  function Offered(messages: seq<ChatMessage>): set<string>
  {
    set i | 0 <= i < |messages| && Truthy(messages[i].suggestion) :: messages[i].suggestion.value
  }

  /** The log only grows: earlier messages keep their place, sender and text,
      and their suggestion is either kept or cleared. */
  ghost predicate LogExtends(before: seq<ChatMessage>, after: seq<ChatMessage>)
  {
    |before| <= |after| &&
    forall i :: 0 <= i < |before| ==>
      after[i].sender == before[i].sender && after[i].text == before[i].text &&
      (after[i].suggestion == before[i].suggestion || after[i].suggestion == None)
  }

  lemma LogExtendsTransitive(a: seq<ChatMessage>, b: seq<ChatMessage>, c: seq<ChatMessage>)
    requires LogExtends(a, b) && LogExtends(b, c)
    ensures LogExtends(a, c)
  {
  }

  /** Clearing keeps the length, the senders and texts, and every suggestion
      other than the approved one; the approved one is gone from every message. */
  lemma ClearSuggestionSpec(messages: seq<ChatMessage>, approved: string)
    ensures var r := ClearSuggestion(messages, approved);
      |r| == |messages| && LogExtends(messages, r)
      && (forall i :: 0 <= i < |r| ==> r[i].suggestion != Some(approved))
      && (forall i :: 0 <= i < |r| && messages[i].suggestion != Some(approved) ==> r[i] == messages[i])
  {
  }

  /** After an approval the log offers exactly what it offered before, minus
      the approved text: the same suggestion cannot be offered again. */
  lemma ApprovalWithdrawsOffer(messages: seq<ChatMessage>, approved: string)
    ensures Offered(ClearSuggestion(messages, approved)) == Offered(messages) - {approved}
  {
    var r := ClearSuggestion(messages, approved);
    forall s | s in Offered(messages) - {approved} ensures s in Offered(r) {
      var i :| 0 <= i < |messages| && Truthy(messages[i].suggestion) && messages[i].suggestion.value == s;
      assert r[i] == messages[i];
    }
    forall s | s in Offered(r) ensures s in Offered(messages) - {approved} {
      var i :| 0 <= i < |r| && Truthy(r[i].suggestion) && r[i].suggestion.value == s;
      assert r[i] == messages[i];
    }
  }

  /** Clearing a second time changes nothing: approval is idempotent on the log. */
  lemma ClearSuggestionIdempotent(messages: seq<ChatMessage>, approved: string)
    ensures ClearSuggestion(ClearSuggestion(messages, approved), approved) == ClearSuggestion(messages, approved)
  {
  }

  /** Clearing works message by message, so it distributes over appending. */
  lemma ClearSuggestionAppend(a: seq<ChatMessage>, b: seq<ChatMessage>, approved: string)
    ensures ClearSuggestion(a + b, approved) == ClearSuggestion(a, approved) + ClearSuggestion(b, approved)
  {
  }

  /** A log in which no message carries `approved` does not offer it. */
  lemma NotOffered(messages: seq<ChatMessage>, approved: string)
    requires forall i :: 0 <= i < |messages| ==> messages[i].suggestion != Some(approved)
    ensures approved !in Offered(messages)
  {
  }

  class Chatbot {
    var messages: seq<ChatMessage>
    var userInput: string
    var isLoading: bool
    var nextQuestion: Option<string>
    /** The texts passed to `onApproveSuggestion`, in order. */
    ghost var approvals: seq<string>

    /** Empty log and input, loading (so submit is blocked), no pending question. */
    constructor ()
      ensures messages == [] && userInput == "" && isLoading && nextQuestion == None && approvals == []
    {
      messages := [];
      userInput := "";
      isLoading := true;
      nextQuestion := None;
      approvals := [];
    }

    /** `addMessage`: exactly one message at the end. */
    method AddMessage(sender: Sender, text: string, suggestion: Option<string>)
      modifies this`messages
      ensures messages == old(messages) + [ChatMessage(sender, text, suggestion)]
    {
      messages := messages + [ChatMessage(sender, text, suggestion)];
    }

    /** The mount effect, given how `generateInitialQuestions` settled. The
        start notice is logged before the request. When it resolves to a
        question, the question follows and loading ends. When it rejects,
        nothing follows: the notice stays alone and loading stays set, so
        submit stays blocked. */
    method FetchInitialQuestion(question: Result<string>)
      modifies this
      ensures question.Ok? ==>
        messages == old(messages) + [ChatMessage(System, StartMessage, None), ChatMessage(Bot, question.value, None)]
        && !isLoading
      ensures question.Err? ==>
        messages == old(messages) + [ChatMessage(System, StartMessage, None)]
        && isLoading == old(isLoading)
      ensures userInput == old(userInput) && nextQuestion == old(nextQuestion) && approvals == old(approvals)
    {
      AddMessage(System, StartMessage, None);
      if question.Ok? {
        AddMessage(Bot, question.value, None);
        isLoading := false;
      }
    }

    /** The input's `onChange`. */
    method SetUserInput(text: string)
      modifies this`userInput
      ensures userInput == text
    {
      userInput := text;
    }

    /** `handleSubmit`, with `improve` standing for `improveUserResponse`
        applied to the typed message (its other arguments are the fixed props).
        Nothing happens for blank input or while loading; otherwise the typed
        message and the bot's reply carrying the suggestion are appended, the
        input is cleared and the follow-up question is kept for later. */
    method HandleSubmit(improve: string -> Improvement) returns (submitted: bool)
      modifies this
      ensures submitted == (!IsBlank(old(userInput)) && !old(isLoading))
      ensures !submitted ==>
        messages == old(messages) && userInput == old(userInput)
        && isLoading == old(isLoading) && nextQuestion == old(nextQuestion)
      ensures submitted ==>
        messages == old(messages) + [ChatMessage(User, old(userInput), None),
                                     ChatMessage(Bot, ImprovedMessage, Some(improve(old(userInput)).suggestion))]
        && userInput == "" && !isLoading
        && nextQuestion == Some(improve(old(userInput)).followupQuestion)
      ensures approvals == old(approvals)
    {
      if IsBlank(userInput) || isLoading {
        return false;
      }
      var newUserMessage := userInput;
      ghost var log := messages;
      AddMessage(User, newUserMessage, None);
      userInput := "";
      isLoading := true;
      var reply := improve(newUserMessage);
      nextQuestion := Some(reply.followupQuestion);
      AddMessage(Bot, ImprovedMessage, Some(reply.suggestion));
      assert messages == log + [ChatMessage(User, newUserMessage, None), ChatMessage(Bot, ImprovedMessage, Some(reply.suggestion))];
      isLoading := false;
      submitted := true;
    }

    /** `handleApprove`: forwards the text once, appends the approval notice,
        clears the text from every message offering it, then asks the pending
        question, if it is truthy, and forgets it. */
    method HandleApprove(suggestion: string)
      modifies this
      ensures approvals == old(approvals) + [suggestion]
      ensures messages == ClearSuggestion(old(messages), suggestion)
                          + [ChatMessage(System, ApprovedMessage, None)]
                          + (if Truthy(old(nextQuestion)) then [ChatMessage(Bot, old(nextQuestion).value, None)] else [])
      ensures nextQuestion == if Truthy(old(nextQuestion)) then None else old(nextQuestion)
      ensures LogExtends(old(messages), messages)
      ensures suggestion !in Offered(messages)
      ensures userInput == old(userInput) && isLoading == old(isLoading)
    {
      approvals := approvals + [suggestion];
      var notice := ChatMessage(System, ApprovedMessage, None);
      AddMessage(System, ApprovedMessage, None);
      ClearSuggestionAppend(old(messages), [notice], suggestion);
      messages := ClearSuggestion(messages, suggestion);
      ClearSuggestionSpec(old(messages), suggestion);
      if nextQuestion.Some? && nextQuestion.value != "" {
        AddMessage(Bot, nextQuestion.value, None);
        nextQuestion := None;
      }
      NotOffered(messages, suggestion);
    }
  }

  /** While the opening question is pending the log holds only the start
      notice and loading is still set; a rejected request leaves that same
      state for good. Either way submit is blocked, whatever was typed. */
  method SubmitBeforeFirstQuestion(failure: string, input: string, improve: string -> Improvement)
    returns (submitted: bool, log: seq<ChatMessage>)
    ensures !submitted && log == [ChatMessage(System, StartMessage, None)]
  {
    var bot := new Chatbot();
    bot.FetchInitialQuestion(Err(failure));
    bot.SetUserInput(input);
    submitted := bot.HandleSubmit(improve);
    log := bot.messages;
  }

  /** A first exchange: opening question, one answer, approval of its
      suggestion. The log keeps every message in order; the approved
      suggestion is no longer offered; approving it again only adds a notice. */
  method FirstExchange(question: string, answer: string, improve: string -> Improvement)
    returns (log: seq<ChatMessage>, again: seq<ChatMessage>)
    requires !IsBlank(answer)
    ensures var r := improve(answer);
      log == [ChatMessage(System, StartMessage, None), ChatMessage(Bot, question, None),
              ChatMessage(User, answer, None), ChatMessage(Bot, ImprovedMessage, None),
              ChatMessage(System, ApprovedMessage, None)]
             + (if r.followupQuestion != "" then [ChatMessage(Bot, r.followupQuestion, None)] else [])
    ensures improve(answer).suggestion !in Offered(log)
    ensures again == log + [ChatMessage(System, ApprovedMessage, None)]
  {
    var bot := new Chatbot();
    var r := improve(answer);
    bot.FetchInitialQuestion(Ok(question));
    bot.SetUserInput(answer);
    var submitted := bot.HandleSubmit(improve);
    assert submitted;
    var before := bot.messages;
    assert before == [ChatMessage(System, StartMessage, None), ChatMessage(Bot, question, None),
                      ChatMessage(User, answer, None), ChatMessage(Bot, ImprovedMessage, Some(r.suggestion))];
    assert ClearSuggestion(before, r.suggestion)
        == [ChatMessage(System, StartMessage, None), ChatMessage(Bot, question, None),
            ChatMessage(User, answer, None), ChatMessage(Bot, ImprovedMessage, None)];
    bot.HandleApprove(r.suggestion);
    log := bot.messages;
    ClearSuggestionNoop(log, r.suggestion);
    bot.HandleApprove(r.suggestion);
    again := bot.messages;
  }

  /** A log without suggestions is left alone by clearing. */
  lemma ClearSuggestionNoop(messages: seq<ChatMessage>, approved: string)
    requires forall i :: 0 <= i < |messages| ==> messages[i].suggestion == None
    ensures ClearSuggestion(messages, approved) == messages
  {
  }
}
