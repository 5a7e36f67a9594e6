# Agent messaging core, in Dafny

This project models the messaging core of a small two-agent system, `test_agents.py`.

- **Messages.** An agent builds a message to another agent.
- **Admission.** The receiving agent admits a message into its bounded first-in-first-out mailbox only if the message is addressed to it and the mailbox is not full.
- **Draining.** An agent drains its mailbox through the handler of its role:
  - the base agent has no handler;
  - the question agent only takes in what it receives;
  - the answer agent replies to each question with an answer it generates.
- **Generation.** Questions and answers are generated by a text-generation backend. The backend's streamed reply arrives as lines of JSON records. The agent joins the `response` fields of those records in order.

The model is organised in modules:

| module | file | models |
|---|---|---|
| `Wrappers` | `wrappers.dfy` | `Option`, `Result` and `Outcome` values |
| `Messages` | `messages.dfy` | the message record and the error kinds |
| `Text` | `text.dfy` | Python's `str.strip` and `str.split('\n')` |
| `Assembly` | `assembly.dfy` | the loop that joins the reply's lines, in `generate_question` and `generate_answer` |
| `Agents` | `agents.dfy` | the agent class: its mailbox, `receive_message`, `process_messages`, the three handlers and the two generators |
| `Scenarios` | `scenarios.dfy` | the three driver routines at the end of the source, plus general facts they illustrate |

An agent is a class.
- The mailbox is a `seq<Message>` field, with its head first.
- `ReceiveMessage`, `Dequeue` and `ProcessMessages` change the mailbox and state the new mailbox in full.
- One invariant, `Valid`, is kept by every operation: the mailbox never exceeds its maximum, and it holds only messages addressed to the agent.

The backend's HTTP exchange is a function parameter, `Backend`: a request gives a reply body, or `None` when the request raises. The JSON decoding of one line is a parameter too, `Parser`. Everything else is modelled as the code does it:
- the prompts, the URL, the model name and the default sizes;
- stripping with Python's whitespace set;
- splitting on `'\n'`;
- skipping empty lines;
- joining in order;
- stripping the result.

## Model

| member | source | states |
|---|---|---|
| `Text.StripLeftFacts` | test_agents.py:94 | Removing the leading characters removes a prefix made only of those characters, and leaves a result that is empty or starts with another character. |
| `Text.StripRightFacts` | test_agents.py:94 | The same, for the trailing end. |
| `Text.StripChars` | test_agents.py:100 | `s.strip(chars)` is a contiguous slice of `s`. That slice has neither end in `chars`. Everything cut off on either side is in `chars`. The result is empty exactly when every character of `s` is in `chars`. |
| `Text.Strip` | test_agents.py:94 | The no-argument `str.strip()` used at lines 94, 100, 121 and 127 is `StripChars` over Python's whitespace set. The result is no longer than its input and has no whitespace at either end. It is empty exactly when the input is all whitespace. |
| `Text.StripUnique` | test_agents.py:100 | A split of `s` into a run of `chars`, a middle trimmed of `chars`, and a run of `chars` determines the strip: the middle is the result. Nothing but the two ends is removed. |
| `Text.StripIdempotent` | test_agents.py:127 | Stripping a stripped text changes nothing. |
| `Text.SplitLines` | test_agents.py:94 | `s.split('\n')` gives at least one piece. No piece holds a newline. Joining the pieces with newlines gives `s` back. |
| `Text.SplitJoinLines` | test_agents.py:121 | The converse round trip: joining lines that hold no newline and splitting again gives the same lines. |
| `Assembly.Contribution` | test_agents.py:95-98 | One line's step: it fails, naming the line, exactly when the line is non-empty and does not parse. A non-empty line whose record carries `response` text adds exactly that text, and any text it adds is the record's `response`. An empty line, or a record without `response`, adds nothing. |
| `Assembly.Fragments` | test_agents.py:95-98 | The only error that joining lines can raise is a malformed line. |
| `Assembly.FragmentsAppend` | test_agents.py:94-98 | Joining two runs of lines one after the other is the same as joining their concatenation. The first error wins, and the texts concatenate in order. |
| `Assembly.SilentLineContributesNothing` | test_agents.py:95-97 | Removing an empty line, or a record without `response`, anywhere in the reply does not change the result. |
| `Assembly.FragmentsFailure` | test_agents.py:95-96 | Joining fails if and only if some non-empty line does not parse. The reported line is the first such line, and every earlier line is empty or parses. |
| `Assembly.ReplyLines` | test_agents.py:94 | The lines iterated over hold no newline and, joined with newlines, are exactly the stripped reply. With `Text.SplitJoinLines` this fixes them as the `split('\n')` pieces of the stripped reply. |
| `Assembly.Assembled` | test_agents.py:93-100 | A successful result has no whitespace at either end. A failure is a malformed line. |
| `Assembly.AssembledFailure` | test_agents.py:120-125 | For a whole reply body: the result fails if and only if a non-empty line of the stripped reply does not parse. The error names the first such line. |
| `Assembly.AccumulateFragments` | test_agents.py:93-98 | The accumulation loop computes `Fragments`: the in-order join of the `response` texts of the non-empty lines. It stops at the first line that does not parse. |
| `Assembly.AssembleResponse` | test_agents.py:120-127 | Strip, split, accumulate and strip compute `Assembled`. The result is a function of the reply body and the parser alone, so nothing carries over between calls. |
| `Assembly.HelloFromThreeLines` | test_agents.py:94-100 | Three reply lines assemble to `"Hello"` when they carry `"Hel"`, no `response`, and `"lo"`, for any visible line texts. |
| `Agents.Generated` | test_agents.py:82-100 | A generation fails only by a transport failure or a malformed line. It is a transport failure exactly when the backend raises. |
| `Agents.Agent.constructor` | test_agents.py:35-40 | A new agent has the given id, model and maximum, and the fixed backend URL. Its mailbox is empty and satisfies `Valid`. |
| `Agents.Agent.Valid` | test_agents.py:56-65 | The mailbox invariant: it never holds more than a positive maximum (line 38), and it holds only messages addressed to this agent (line 58). |
| `Agents.Agent.Full` | test_agents.py:62 | `Queue.full()`: never true for a maximum of zero or less. Under `Valid`, true exactly when the mailbox holds its positive maximum. |
| `Agents.Agent.SendMessage` | test_agents.py:42-52 | The message names this agent as sender. The recipient, content and type are as given, and the type defaults to `"general"`. The mailbox is neither read nor changed. |
| `Agents.Agent.ReceiveMessage` | test_agents.py:56-66 | See below the table. |
| `Agents.Agent.Dequeue` | test_agents.py:71 | Returns the head of the mailbox and leaves its tail. `Valid` is kept. |
| `Agents.Agent.GenerateQuestion` | test_agents.py:80-100 | The question is `Generated` for a request to `<base URL>/api/generate` with this agent's model and the prompt "Generate a thought-provoking question about: " followed by the topic. |
| `Agents.Agent.QuestionRequest` | test_agents.py:83-89 | The question request goes to `<base URL>/api/generate` with this agent's model. Its prompt is the question prompt followed by the topic, which can be read back from it. |
| `Agents.Agent.AnswerRequest` | test_agents.py:111-117 | The answer request goes to the same URL with the same model. Its prompt is the answer prompt followed by the question, which can be read back from it. |
| `Agents.Agent.RequestsDistinct` | test_agents.py:83-117 | Different topics give different question requests, and different questions give different answer requests. A question request is never an answer request. |
| `Agents.Agent.GenerateAnswer` | test_agents.py:108-127 | The answer is `Generated` for the prompt "Please answer this question: " followed by the question. |
| `Agents.Agent.Reply` | test_agents.py:129-139 | See below the table. |
| `Agents.Agent.HandleMessage` | test_agents.py:129-139 | Running the role's handler (lines 74-76, 102-104 and 129-139) gives `Reply`. It is kept beside `Reply` because the answerer's branch calls `GenerateAnswer`, the method holding the accumulation loop, and a function cannot call a method. |
| `Agents.Agent.HandledUntil` | test_agents.py:70-72 | The first position in the mailbox whose handler fails, or the mailbox's length when none fails. Every earlier handler succeeds. |
| `Agents.Agent.HandledUntilAt` | test_agents.py:70-72 | Any position `k` whose earlier handlers succeed, and whose own handler fails or which is the end, is `HandledUntil`. |
| `Agents.Agent.ProcessMessages` | test_agents.py:68-72 | See below the table. |
| `Scenarios.BaseAgentScenario` | test_agents.py:141-160 | Agent one's message is `("agent1", "agent2", "Hello from agent1!", "general")`. Agent two admits it, and its mailbox then holds one message. |
| `Scenarios.QuestionAnswerScenario` | test_agents.py:162-183 | See below the table. |
| `Scenarios.QueueOverflowScenario` | test_agents.py:185-203 | With a maximum of one, the first message is admitted. The second is refused with a full-mailbox error for `"test_agent"`. The mailbox holds only the first. |
| `Scenarios.FillToCapacity` | test_agents.py:56-66 | For every positive maximum `n` and every message, `n` admissions succeed, the next is refused as full, and the mailbox holds `n` messages. |
| `Scenarios.BaseAgentCannotHandle` | test_agents.py:68-76 | A base agent's drain of two messages passes only the first to its handler, which fails as not implemented. The second stays queued. |
| `Scenarios.QuestionIsAnsweredToAsker` | test_agents.py:129-139 | A question sent by any agent to an answer agent is answered if and only if the answer can be generated. The answer goes back to its sender with the generated text and type `"answer"`. |

`Agents.Agent.ReceiveMessage` states:
- A message addressed to another agent is refused with a communication error. That is checked first.
- Otherwise a message to a full mailbox is refused with a full-mailbox error.
- The message is admitted if and only if it is addressed to this agent and the mailbox was not full.
- An admitted message is appended at the tail. A refused message leaves the mailbox unchanged.
- `Valid` is kept.

`Agents.Agent.Reply` states:
- The handler fails as not implemented if and only if the agent is a base agent.
- It replies if and only if the agent is an answer agent, the message is a question, and the answer's generation succeeds.
- A reply comes from this agent, goes to the question's sender, has type `"answer"`, and carries the generated answer.
- Any other handler fails if and only if the agent is an answer agent, the message is a question, and the answer's generation fails. The failure is that generation failure, propagated as line 132 propagates it.

`Agents.Agent.ProcessMessages` states:
- Messages reach the handler in admission order.
- If every handler succeeds, all messages are handled, the mailbox ends empty, and no error is raised.
- Otherwise, if the first failure is at position `k`, the handled messages are the first `k + 1` and the mailbox keeps the rest, with the failing message already removed. The error is that handler's error.
- `Valid` is kept.

`Scenarios.QuestionAnswerScenario` states:
- The question is `Generated` for the fixed request about "python programming".
- If the question is generated, the one handled message is `("questioner", "answerer", question, "question")`.
- The drain then fails exactly when generating the answer fails, and with that failure.
- If the question is not generated, nothing further happens.

Behaviour of the code worth knowing:
- **Unbounded mailbox.** A maximum of zero or less gives an unbounded mailbox, so `Full` never holds then. Line 38 builds Python's `Queue(maxsize)`, and line 62 asks it `full()`.
- **Replies dropped.** Line 72 awaits the handler and discards the value it returns. Line 139 returns the reply message despite the comment at line 138. So the answer agent's reply is built but never delivered or exposed to the caller. `ProcessMessages` returns the handled messages and the error, not the replies.
- **Failing handler.** An exception from the handler at line 72 ends the loop of lines 70-72. The failing message has already been dequeued at line 71, and the rest stays queued.
- **Question agent.** The question agent's handler, lines 102-104, only prints, whatever the message's type. It does not filter answers.
- **No identifier validation.** Lines 35-36 store the agent id as given. It is not checked to be non-empty or unique.

## Left out

- **Timestamp.** The message timestamp is left out because it reads the wall clock. It takes no part in any decision.
- **HTTP exchange.** The HTTP exchange, its 30-second timeout and the asynchronous client are the `Backend` parameter. Any exception they raise becomes a `TransportFailure`, whatever its kind. `Backend` is a pure function, so the model assumes the same request always gets the same reply. Two identical questions in one mailbox therefore get identical outcomes, which a real generation backend does not promise.
- **JSON decoding.** `json.loads` and the `'response' in data` / `data['response']` lookup are the `Parser` parameter, with three outcomes described on `Assembly.Parsed`. A decoding error and a type error both become `MalformedLine`.
- **`print` calls.** These are console output and change no state.
- **Concurrency.** `async`/`await` scheduling and thread safety are left out. Each operation runs to completion, one at a time, as the driver routines use them.
- **`OllamaError`.** It is declared but never raised by the code, so it has no counterpart. Backend failures surface as raw exceptions, and the model gives them their own kinds. It does not wrap them in a generation error.
- **`send_message` error path.** The `CommunicationError` path of `send_message` is not modelled. Building the record from strings cannot raise, so `SendMessage` is total.
- **Empty-mailbox `get`.** `Agents.Agent.Dequeue` requires a non-empty mailbox. Its only caller checks `empty()` first, and Python's blocking `get` on an empty queue would wait forever rather than fail.
- **Argument types.** Python's argument type checks are left out, because the Dafny types already give them.
- **`if __name__ == "__main__"`.** The entry block only runs the three driver routines, which are modelled as `Scenarios` methods.
