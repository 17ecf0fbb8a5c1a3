/** The role-tagged messages that make up a conversation and are sent as a prompt. */
module Messages {

  /** The three roles the completion service understands. */
  datatype Role = System | User | Assistant

  /** One entry of a conversation history: an immutable role/content pair. */
  datatype Message = Message(role: Role, content: string)

  /** The ordered history of one user's conversation, oldest message first. */
  type History = seq<Message>

  /** The fixed persona text that opens every conversation. */
  const BotPersonality: string := "You are a friendly chatbot named Chip."

  /** The error a chat turn raises when the completion service yields no reply. */
  datatype ChatError = UpstreamGenerationError

  /** The message every new history starts with. */
  function SystemMessage(): Message
  {
    Message(System, BotPersonality)
  }
}
