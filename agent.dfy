/**
 * `run_agent_query`: screen the claim for prompt injection, hand it to the
 * agent once, and turn the conversation it returns into the answer. The
 * agent is a parameter: a function from the call (input text and recursion
 * limit) to the list of messages or the error raised.
 */
module Agent {
  import opened Wrappers
  import opened Text
  import opened Schemas
  import opened SecurityFilter
  import opened Patterns

  /** A message of the conversation; only its text content is inspected. */
  datatype Message = Message(content: string)

  /** One invocation of the agent. */
  datatype AgentCall = AgentCall(input: string, recursionLimit: nat)

  /** Either the decision dictionary or a plain text answer. */
  datatype AgentReply = Decided(decision: ClaimDecision, reason: string) | Replied(text: string)

  const RecursionLimit := 20
  const InjectionReason := "Potential prompt injection detected"
  const ErrorReasonPrefix := "Agent processing error: "
  /** `str(IndexError)` for `[][-1]`. */
  const EmptyListError := "list index out of range"
  const NoResponse := "No response generated"
  const DecisionKeywords: seq<string> := ["APPROVE", "DENY", "UNCERTAIN", "DECISION"]

  /** The text handed to the agent. */
  function ClaimPrompt(claimId: string, claim: string): string {
    "###CLAIM_ID###:" + claimId + "\n###CLAIM###:\n" + claim
  }

  /** The prompt is the fixed header with the id, then the claim text unchanged. */
  lemma ClaimPromptLayout(claimId: string, claim: string)
    ensures LitAt(ClaimPrompt(claimId, claim), 0, "###CLAIM_ID###:" + claimId)
    ensures LitAt(ClaimPrompt(claimId, claim), 15 + |claimId|, "\n###CLAIM###:\n")
    ensures EndsWith(ClaimPrompt(claimId, claim), claim)
    ensures |ClaimPrompt(claimId, claim)| == |claimId| + |claim| + 29
  {
  }

  /** A message with content whose upper-cased text contains one of the keywords. */
  predicate MentionsDecision(content: string) {
    content != "" && exists w :: w in DecisionKeywords && Contains(Upper(content), w)
  }

  /** The contents of the messages that mention a decision, in conversation order. */
  function DecisionMessages(messages: seq<Message>): seq<string>
    decreases |messages|
  {
    if messages == [] then []
    else
      var init := DecisionMessages(messages[..|messages| - 1]);
      var c := messages[|messages| - 1].content;
      if MentionsDecision(c) then init + [c] else init
  }

  /** The `result_messages.append` loop. */
  method CollectDecisionMessages(messages: seq<Message>) returns (resultMessages: seq<string>)
    ensures resultMessages == DecisionMessages(messages)
  {
    resultMessages := [];
    var i := 0;
    while i < |messages|
      invariant 0 <= i <= |messages|
      invariant resultMessages == DecisionMessages(messages[..i])
    {
      assert messages[..i + 1][..i] == messages[..i];
      var msg := messages[i];
      if msg.content != "" {
        if exists w :: w in DecisionKeywords && Contains(Upper(msg.content), w) {
          resultMessages := resultMessages + [msg.content];
        }
      }
      i := i + 1;
    }
    assert messages[..i] == messages;
  }

  /** A text is collected iff it is the content of some message that mentions a decision. */
  lemma {:induction false} DecisionMessagesMembers(messages: seq<Message>, c: string)
    ensures c in DecisionMessages(messages) <==>
      MentionsDecision(c) && exists k :: 0 <= k < |messages| && messages[k].content == c
    decreases |messages|
  {
    if messages != [] {
      var init := messages[..|messages| - 1];
      DecisionMessagesMembers(init, c);
      assert forall k :: 0 <= k < |init| ==> init[k] == messages[k];
      if MentionsDecision(c) && exists k :: 0 <= k < |messages| && messages[k].content == c {
        var k :| 0 <= k < |messages| && messages[k].content == c;
        if k < |init| {
          assert init[k].content == c;
        }
      }
    }
  }

  /** The fallback when the last message is empty: the joined decision messages, sanitised. */
  function FallbackText(messages: seq<Message>): (r: string)
    ensures ValidateOutput(r) && |r| <= MaxResponseLength
    ensures DecisionMessages(messages) == [] ==> r == NoResponse
    ensures var joined := Join(DecisionMessages(messages), "\n");
      DecisionMessages(messages) != [] && ValidateOutput(joined) && |joined| <= MaxResponseLength ==> r == joined
    ensures var joined := Join(DecisionMessages(messages), "\n");
      DecisionMessages(messages) != [] && !(ValidateOutput(joined) && |joined| <= MaxResponseLength) ==> r == Refusal
  {
    ColonFreeValidates(NoResponse);
    var collected := DecisionMessages(messages);
    FilterResponseIsSafe(if collected != [] then Join(collected, "\n") else NoResponse);
    FilterResponse(if collected != [] then Join(collected, "\n") else NoResponse)
  }

  /** The answer taken from the conversation the agent returned. */
  function SelectResult(messages: seq<Message>): (r: AgentReply)
    ensures r.Decided? <==> messages == []
    ensures r.Decided? ==> r.decision == Uncertain && r.reason == ErrorReasonPrefix + EmptyListError
    ensures messages != [] && messages[|messages| - 1].content == "" ==> r == Replied(FallbackText(messages))
    ensures messages != [] && messages[|messages| - 1].content != "" ==> r.text == messages[|messages| - 1].content
    ensures messages != [] && messages[|messages| - 1].content == "" ==> ValidateOutput(r.text) && |r.text| <= MaxResponseLength
  {
    if messages == [] then Decided(Uncertain, ErrorReasonPrefix + EmptyListError)
    else if messages[|messages| - 1].content != "" then Replied(messages[|messages| - 1].content)
    else Replied(FallbackText(messages))
  }

  /** `run_agent_query`, returning the answer and the calls made to the agent. */
  method RunAgentQuery(claimId: string, claim: string, agent: AgentCall -> Result<seq<Message>, string>)
    returns (reply: AgentReply, calls: seq<AgentCall>)
    ensures DetectInjection(claim) ==> reply == Decided(Deny, InjectionReason) && calls == []
    ensures !DetectInjection(claim) ==> calls == [AgentCall(ClaimPrompt(claimId, claim), RecursionLimit)]
    ensures !DetectInjection(claim) ==>
      reply == match agent(calls[0])
               case Failure(e) => Decided(Uncertain, ErrorReasonPrefix + e)
               case Success(messages) => SelectResult(messages)
    ensures reply.Decided? && reply.decision == Deny <==> DetectInjection(claim)
  {
    if DetectInjection(claim) {
      return Decided(Deny, InjectionReason), [];
    }
    var clientClaimWithId := ClaimPrompt(claimId, claim);
    var call := AgentCall(clientClaimWithId, RecursionLimit);
    calls := [call];
    var response := agent(call);
    if response.Failure? {
      reply := Decided(Uncertain, ErrorReasonPrefix + response.error);
      return;
    }
    var messages := response.value;
    if messages == [] {
      reply := Decided(Uncertain, ErrorReasonPrefix + EmptyListError);
      return;
    }
    var lastMessage := messages[|messages| - 1];
    if lastMessage.content != "" {
      reply := Replied(lastMessage.content);
      return;
    }
    var resultMessages := CollectDecisionMessages(messages);
    var message := FilterResponse(if resultMessages != [] then Join(resultMessages, "\n") else NoResponse);
    reply := Replied(message);
  }

  /** The fallback text always passes the output validator and the length ceiling. */
  lemma FallbackIsSafe(messages: seq<Message>)
    requires messages != [] && messages[|messages| - 1].content == ""
    ensures SelectResult(messages).Replied?
    ensures ValidateOutput(SelectResult(messages).text) && |SelectResult(messages).text| <= MaxResponseLength
  {
    var collected := DecisionMessages(messages);
    FilterResponseIsSafe(if collected != [] then Join(collected, "\n") else NoResponse);
  }

  /** A non-empty last message is returned as it is: a leak signature there reaches the caller. */
  lemma LastMessageBypassesValidator()
    ensures SelectResult([Message(LeakSample)]) == Replied(LeakSample)
    ensures !ValidateOutput(LeakSample)
  {
    LeakSampleRejected();
    assert LeakSample[0] == 's';
  }
}
