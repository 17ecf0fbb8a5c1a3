/**
 * The chat operation as the program runs it: a store object whose table of
 * conversations is updated in place, first with the user's message and then,
 * if the completion service answers, with the reply.
 */
module ChatService {
  import opened Wrappers
  import opened Messages
  import opened Conversations
  import opened ConversationProperties

  class ConversationStore {
    /** User id to that user's history; starts empty and lives as long as the process. */
    var conversations: Table

    /** Object invariant: every stored history is well formed. */
    ghost predicate Valid()
      reads this
    {
      StoreValid(conversations)
    }

    constructor ()
      ensures Valid()
      ensures conversations == map[]
    {
      conversations := map[];
    }

    /**
     * One chat turn for `user`. `generate` stands for the completion service:
     * it receives the message list and returns the reply text, or None when
     * the call fails. On failure the user message stays in the history and
     * the error is returned; on success the reply is appended and returned.
     */
    method Chat(user: string, message: string, generate: History -> Option<string>)
      returns (result: Result<string, ChatError>)
      requires Valid()
      modifies this
      ensures Valid()
      ensures var sent := Prompt(old(conversations), user, message);
        && conversations == Conversations.Chat(old(conversations), user, message, generate(sent))
        && (generate(sent).None? ==> result == Failure(UpstreamGenerationError))
        && (generate(sent).Some? ==> result == Success(generate(sent).value))
      ensures result.Success? ==>
        conversations[user][|conversations[user]| - 1] == Message(Assistant, result.value)
    {
      ghost var before := conversations;
      if user !in conversations {
        conversations := conversations[user := [SystemMessage()]];
      }
      assert conversations == EnsureSession(before, user);
      var sent := conversations[user] + [Message(User, message)];
      conversations := conversations[user := sent];
      var reply := generate(sent);
      match reply {
        case None =>
          result := Failure(UpstreamGenerationError);
        case Some(text) =>
          conversations := conversations[user := sent + [Message(Assistant, text)]];
          result := Success(text);
      }
      ChatPreservesValid(before, user, message, reply);
    }
  }
}
