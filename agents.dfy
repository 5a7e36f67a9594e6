/**
 * Agents: each owns a bounded FIFO mailbox, builds messages to other agents,
 * admits messages addressed to it, and drains its mailbox through the
 * handler of its role.
 */
module Agents {
  import opened Wrappers
  import opened Messages
  import opened Assembly

  /** The handler an agent runs on each message it dequeues. */
  datatype Role =
    /** The base agent, which has no handler. */
    | Base
    /** Generates questions; takes in answers and never replies. */
    | Questioner
    /** Replies to each question with a generated answer. */
    | Answerer

  const DefaultModel: string := "mistral"
  const DefaultMaxQueueSize: int := 100
  const DefaultBaseUrl: string := "http://localhost:11434"
  const GeneratePath: string := "/api/generate"
  // Written in two parts: the verifier does not look inside a string literal this long.
  const QuestionPrompt: string := "Generate a thought-provoking " + "question about: "
  const AnswerPrompt: string := "Please answer this question: "
  const QuestionType: string := "question"
  const AnswerType: string := "answer"

  /** One request to the generation backend. */
  datatype Request = Request(url: string, model: string, prompt: string)

  /**
   * The generation backend: the body of its reply to a request, or `None`
   * when the request raises (timeout, refused connection).
   */
  type Backend = Request -> Option<string>

  /** The text the backend generates for `request`, assembled from its reply. */
  function Generated(request: Request, backend: Backend, parse: Parser): (r: Result<string, AgentError>)
    ensures r.Failure? ==> r.error == TransportFailure || r.error.MalformedLine?
    ensures backend(request).None? <==> r == Failure(TransportFailure)
  {
    match backend(request)
    case None => Failure(TransportFailure)
    case Some(body) => Assembled(body, parse)
  }

  class Agent {
    const agentId: string
    const role: Role
    const model: string
    const maxQueueSize: int
    const baseUrl: string
    /** The mailbox, head first. */
    var queue: seq<Message>

    /**
     * The mailbox never holds more than its maximum (a maximum of zero or
     * less means unbounded), and holds only messages addressed to this agent.
     */
    ghost predicate Valid()
      reads this
    {
      && (0 < maxQueueSize ==> |queue| <= maxQueueSize)
      && forall k :: 0 <= k < |queue| ==> queue[k].receiverId == agentId
    }

    constructor (agentId: string, role: Role, model: string := DefaultModel, maxQueueSize: int := DefaultMaxQueueSize)
      ensures Valid()
      ensures this.agentId == agentId && this.role == role && this.model == model
      ensures this.maxQueueSize == maxQueueSize && baseUrl == DefaultBaseUrl
      ensures queue == []
    {
      this.agentId := agentId;
      this.role := role;
      this.model := model;
      this.maxQueueSize := maxQueueSize;
      this.baseUrl := DefaultBaseUrl;
      this.queue := [];
    }

    /**
     * The mailbox is at its maximum: never so when it is unbounded, and,
     * under the invariant, exactly when it holds its maximum.
     */
    predicate Full()
      reads this
      ensures Full() ==> 0 < maxQueueSize
      ensures Valid() ==> (Full() <==> 0 < maxQueueSize == |queue|)
    {
      0 < maxQueueSize <= |queue|
    }

    /**
     * A message from this agent to `toAgentId`. Building it cannot fail and
     * leaves the mailbox alone; delivering it is the caller's business.
     */
    function SendMessage(toAgentId: string, content: string, messageType: string := General): (m: Message)
      ensures m.senderId == agentId && m.receiverId == toAgentId
      ensures m.content == content && m.messageType == messageType
    {
      Message(agentId, toAgentId, content, messageType)
    }

    /**
     * Admits `message` at the tail of the mailbox. A message addressed to
     * another agent is refused first; then a message arriving at a full
     * mailbox. A refused message leaves the mailbox as it was.
     */
    method ReceiveMessage(message: Message) returns (r: Outcome<AgentError>)
      requires Valid()
      modifies this
      ensures Valid()
      ensures message.receiverId != agentId ==> r == Fail(CommunicationError(message.receiverId, agentId))
      ensures message.receiverId == agentId && old(Full()) ==> r == Fail(QueueFullError(agentId))
      ensures r == Pass <==> message.receiverId == agentId && !old(Full())
      ensures queue == if r == Pass then old(queue) + [message] else old(queue)
    {
      if message.receiverId != agentId {
        return Fail(CommunicationError(message.receiverId, agentId));
      }
      if Full() {
        return Fail(QueueFullError(agentId));
      }
      queue := queue + [message];
      return Pass;
    }

    /** Removes and returns the head of a non-empty mailbox. */
    method Dequeue() returns (m: Message)
      requires Valid() && queue != []
      modifies this
      ensures Valid()
      ensures m == old(queue)[0] && queue == old(queue)[1..]
    {
      m := queue[0];
      queue := queue[1..];
    }

    /** The request for a question about `topic`: the prompt is the question prompt, then the topic. */
    function QuestionRequest(topic: string): (req: Request)
      ensures req.url == baseUrl + GeneratePath && req.model == model
      ensures |QuestionPrompt| <= |req.prompt| && req.prompt[..|QuestionPrompt|] == QuestionPrompt
      ensures req.prompt[|QuestionPrompt|..] == topic
    {
      Request(baseUrl + GeneratePath, model, QuestionPrompt + topic)
    }

    /** The request for an answer to `question`: the prompt is the answer prompt, then the question. */
    function AnswerRequest(question: string): (req: Request)
      ensures req.url == baseUrl + GeneratePath && req.model == model
      ensures |AnswerPrompt| <= |req.prompt| && req.prompt[..|AnswerPrompt|] == AnswerPrompt
      ensures req.prompt[|AnswerPrompt|..] == question
    {
      Request(baseUrl + GeneratePath, model, AnswerPrompt + question)
    }

    /**
     * Different topics or questions give different requests, and a question
     * request is never an answer request, so the backend can tell them apart.
     */
    lemma RequestsDistinct(t1: string, t2: string, q1: string, q2: string)
      ensures QuestionRequest(t1) == QuestionRequest(t2) ==> t1 == t2
      ensures AnswerRequest(q1) == AnswerRequest(q2) ==> q1 == q2
      ensures QuestionRequest(t1) != AnswerRequest(q1)
    {
      var qp, ap := QuestionRequest(t1).prompt, AnswerRequest(q1).prompt;
      assert qp[0] == qp[..|QuestionPrompt|][0];
      assert ap[0] == ap[..|AnswerPrompt|][0];
    }

    /** A question about `topic`, generated with this agent's model. */
    method GenerateQuestion(topic: string, backend: Backend, parse: Parser) returns (r: Result<string, AgentError>)
      requires role == Questioner
      ensures r == Generated(QuestionRequest(topic), backend, parse)
    {
      match backend(QuestionRequest(topic))
      case None => r := Failure(TransportFailure);
      case Some(body) => r := AssembleResponse(body, parse);
    }

    /** An answer to `question`, generated with this agent's model. */
    method GenerateAnswer(question: string, backend: Backend, parse: Parser) returns (r: Result<string, AgentError>)
      requires role == Answerer
      ensures r == Generated(AnswerRequest(question), backend, parse)
    {
      match backend(AnswerRequest(question))
      case None => r := Failure(TransportFailure);
      case Some(body) => r := AssembleResponse(body, parse);
    }

    /**
     * What this agent's handler does with `message`: the optional reply it
     * returns, or the error it raises. Only an answerer replies, only to a
     * question, and only to its sender; the base agent always fails.
     */
    function Reply(message: Message, backend: Backend, parse: Parser): (r: Result<Option<Message>, AgentError>)
      ensures r == Failure(NotImplemented) <==> role == Base
      ensures (r.Success? && r.value.Some?) <==>
        role == Answerer && message.messageType == QuestionType && Generated(AnswerRequest(message.content), backend, parse).Success?
      ensures r.Success? && r.value.Some? ==>
        && r.value.value.senderId == agentId
        && r.value.value.receiverId == message.senderId
        && r.value.value.messageType == AnswerType
        && Generated(AnswerRequest(message.content), backend, parse) == Success(r.value.value.content)
      ensures r.Failure? && role != Base <==>
        role == Answerer && message.messageType == QuestionType && Generated(AnswerRequest(message.content), backend, parse).Failure?
      ensures r.Failure? && role != Base ==> Generated(AnswerRequest(message.content), backend, parse) == Failure(r.error)
    {
      match role
      case Base => Failure(NotImplemented)
      case Questioner => Success(None)
      case Answerer =>
        if message.messageType != QuestionType then Success(None)
        else
          match Generated(AnswerRequest(message.content), backend, parse)
          case Failure(e) => Failure(e)
          case Success(answer) => Success(Some(SendMessage(message.senderId, answer, AnswerType)))
    }

    /**
     * Runs this agent's handler on `message`. The answerer's branch calls
     * `GenerateAnswer`, the method holding the accumulation loop, which a
     * function cannot do; `Reply` is what this method is proved to compute.
     */
    method HandleMessage(message: Message, backend: Backend, parse: Parser) returns (r: Result<Option<Message>, AgentError>)
      ensures r == Reply(message, backend, parse)
    {
      match role
      case Base =>
        r := Failure(NotImplemented);
      case Questioner =>
        r := Success(None);
      case Answerer =>
        if message.messageType == QuestionType {
          var answer := GenerateAnswer(message.content, backend, parse);
          match answer
          case Failure(e) => r := Failure(e);
          case Success(a) => r := Success(Some(SendMessage(message.senderId, a, AnswerType)));
        } else {
          r := Success(None);
        }
    }

    /**
     * How many messages of `q`, taken in order, are handled before the first
     * whose handler fails: all of `q` when none fails.
     */
    function HandledUntil(q: seq<Message>, backend: Backend, parse: Parser): (k: nat)
      ensures k <= |q|
      ensures forall i :: 0 <= i < k ==> Reply(q[i], backend, parse).Success?
      ensures k < |q| ==> Reply(q[k], backend, parse).Failure?
    {
      if q == [] then 0
      else if Reply(q[0], backend, parse).Failure? then 0
      else 1 + HandledUntil(q[1..], backend, parse)
    }

    /**
     * Drains the mailbox: dequeues the messages one at a time, in the order
     * they were admitted, and runs the handler on each. The handler's replies
     * are dropped. A handler that fails stops the drain, with the failing
     * message already dequeued and the rest left in the mailbox.
     * `handled` lists the messages given to the handler, in order.
     */
    method ProcessMessages(backend: Backend, parse: Parser) returns (handled: seq<Message>, err: Option<AgentError>)
      requires Valid()
      modifies this
      ensures Valid()
      ensures var k := HandledUntil(old(queue), backend, parse);
        if k == |old(queue)| then
          handled == old(queue) && queue == [] && err == None
        else
          && handled == old(queue)[..k + 1] && queue == old(queue)[k + 1..]
          && err == Some(Reply(old(queue)[k], backend, parse).error)
    {
      ghost var q0 := queue;
      handled, err := [], None;
      while queue != []
        invariant Valid()
        invariant |handled| <= |q0| && handled == q0[..|handled|] && queue == q0[|handled|..]
        invariant forall i :: 0 <= i < |handled| ==> Reply(q0[i], backend, parse).Success?
        decreases |queue|
      {
        var message := Dequeue();
        handled := handled + [message];
        var r := HandleMessage(message, backend, parse);
        if r.Failure? {
          err := Some(r.error);
          HandledUntilAt(q0, |handled| - 1, backend, parse);
          return;
        }
      }
      HandledUntilAt(q0, |q0|, backend, parse);
      assert q0[..|q0|] == q0;
    }

    /** `HandledUntil` is the one position of the first failing handler. */
    lemma {:induction false} HandledUntilAt(q: seq<Message>, k: nat, backend: Backend, parse: Parser)
      requires k <= |q|
      requires forall i :: 0 <= i < k ==> Reply(q[i], backend, parse).Success?
      requires k < |q| ==> Reply(q[k], backend, parse).Failure?
      ensures HandledUntil(q, backend, parse) == k
      decreases k
    {
      if k > 0 {
        assert forall i :: 0 <= i < |q| - 1 ==> q[1..][i] == q[i + 1];
        HandledUntilAt(q[1..], k - 1, backend, parse);
      }
    }
  }
}
