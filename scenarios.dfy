/**
 * The source's driver routines, and the general facts they illustrate, as
 * methods whose postconditions state what each run ends with.
 */
module Scenarios {
  import opened Wrappers
  import opened Messages
  import opened Assembly
  import opened Agents

  /** Agent one sends a greeting to agent two, which admits it. */
  method BaseAgentScenario() returns (sent: Message, admitted: Outcome<AgentError>, queueSize: nat)
    ensures sent == Message("agent1", "agent2", "Hello from agent1!", "general")
    ensures admitted == Pass && queueSize == 1
  {
    var agent1 := new Agent("agent1", Base);
    var agent2 := new Agent("agent2", Base);
    sent := agent1.SendMessage("agent2", "Hello from agent1!");
    admitted := agent2.ReceiveMessage(sent);
    queueSize := |agent2.queue|;
  }

  /**
   * The questioner generates a question, sends it to the answerer, which
   * admits it and drains its mailbox: the question is the one message
   * handled, and the drain fails only when generating the answer fails.
   * When generating the question fails, the run stops there.
   */
  method QuestionAnswerScenario(backend: Backend, parse: Parser)
    returns (question: Result<string, AgentError>, handled: seq<Message>, err: Option<AgentError>)
    ensures question == Generated(Request(DefaultBaseUrl + GeneratePath, DefaultModel, QuestionPrompt + "python programming"), backend, parse)
    ensures question.Failure? ==> handled == [] && err == None
    ensures question.Success? ==>
      var answer := Generated(Request(DefaultBaseUrl + GeneratePath, DefaultModel, AnswerPrompt + question.value), backend, parse);
      && handled == [Message("questioner", "answerer", question.value, QuestionType)]
      && err == (if answer.Success? then None else Some(answer.error))
  {
    var questioner := new Agent("questioner", Questioner);
    var answerer := new Agent("answerer", Answerer);
    question := questioner.GenerateQuestion("python programming", backend, parse);
    if question.Failure? {
      return question, [], None;
    }
    var questionMessage := questioner.SendMessage("answerer", question.value, QuestionType);
    var admitted := answerer.ReceiveMessage(questionMessage);
    handled, err := answerer.ProcessMessages(backend, parse);
  }

  /** A mailbox of maximum one admits a first message and refuses a second. */
  method QueueOverflowScenario() returns (first: Outcome<AgentError>, second: Outcome<AgentError>, held: seq<Message>)
    ensures first == Pass
    ensures second == Fail(QueueFullError("test_agent"))
    ensures held == [Message("sender", "test_agent", "msg1")]
  {
    var agent := new Agent("test_agent", Base, maxQueueSize := 1);
    var msg1 := Message("sender", "test_agent", "msg1");
    first := agent.ReceiveMessage(msg1);
    var msg2 := Message("sender", "test_agent", "msg2");
    second := agent.ReceiveMessage(msg2);
    held := agent.queue;
  }

  /**
   * For every positive maximum: that many admissions succeed, the next one
   * is refused as full, and the mailbox then holds exactly the maximum.
   */
  method FillToCapacity(capacity: int, message: Message)
    returns (outcomes: seq<Outcome<AgentError>>, overflow: Outcome<AgentError>, size: nat)
    requires 0 < capacity
    ensures |outcomes| == capacity && forall i :: 0 <= i < |outcomes| ==> outcomes[i] == Pass
    ensures overflow == Fail(QueueFullError(message.receiverId))
    ensures size == capacity
  {
    var agent := new Agent(message.receiverId, Base, DefaultModel, capacity);
    outcomes := [];
    while |outcomes| < capacity
      invariant |outcomes| <= capacity
      invariant agent.Valid() && |agent.queue| == |outcomes|
      invariant forall i :: 0 <= i < |outcomes| ==> outcomes[i] == Pass
    {
      var r := agent.ReceiveMessage(message);
      outcomes := outcomes + [r];
    }
    overflow := agent.ReceiveMessage(message);
    size := |agent.queue|;
  }

  /**
   * A base agent's drain stops at the first message, already dequeued,
   * with the base handler's failure; later messages stay queued.
   */
  method BaseAgentCannotHandle(m1: Message, m2: Message, backend: Backend, parse: Parser)
    returns (handled: seq<Message>, err: Option<AgentError>, left: seq<Message>)
    requires m1.receiverId == "agent" && m2.receiverId == "agent"
    ensures handled == [m1] && err == Some(NotImplemented) && left == [m2]
  {
    var agent := new Agent("agent", Base);
    var r1 := agent.ReceiveMessage(m1);
    var r2 := agent.ReceiveMessage(m2);
    handled, err := agent.ProcessMessages(backend, parse);
    left := agent.queue;
  }

  /**
   * A question sent from one agent to an answerer is answered back to its
   * sender, with the generated answer, whenever the answer can be generated.
   */
  lemma QuestionIsAnsweredToAsker(asker: Agent, answerer: Agent, content: string, backend: Backend, parse: Parser)
    requires answerer.role == Answerer
    ensures var reply := answerer.Reply(asker.SendMessage(answerer.agentId, content, QuestionType), backend, parse);
      var answer := Generated(answerer.AnswerRequest(content), backend, parse);
      && (reply.Success? <==> answer.Success?)
      && (answer.Success? ==> reply.value == Some(Message(answerer.agentId, asker.agentId, answer.value, AnswerType)))
  {
  }
}
