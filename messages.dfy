/**
 * The message value exchanged between agents, and the closed set of error
 * kinds that the messaging core raises.
 */
module Messages {

  /** The type tag a message gets when its sender names none. */
  const General: string := "general"

  /**
   * One unit of inter-agent communication. The wall-clock timestamp the
   * source attaches at construction is not modelled.
   */
  datatype Message = Message(
    senderId: string,
    receiverId: string,
    content: string,
    messageType: string := General)

  /** The failures an agent operation can surface to its caller. */
  datatype AgentError =
    /** A message addressed to `intendedFor` was offered to agent `agentId`. */
    | CommunicationError(intendedFor: string, agentId: string)
    /** The mailbox of agent `agentId` already holds its maximum. */
    | QueueFullError(agentId: string)
    /** The base agent has no message handler. */
    | NotImplemented
    /** The request to the generation backend raised (timeout, connection). */
    | TransportFailure
    /** A non-empty line of the backend's reply is not a usable record. */
    | MalformedLine(line: string)
}
