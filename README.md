# Chip chatbot: the per-user conversation table

This project models the only stateful logic of the Chip chatbot web service
(`main.py`): the process-wide table `conversations` that maps a user id to an
ordered list of role-tagged messages, and the `chat` operation that updates it.
A chat turn lazily opens the user's session with the single persona message
`BOT_PERSONALITY`, appends the user's message, sends the whole list to the
completion service, appends the returned text as an assistant message and
returns that text.

Modules:

- `Wrappers` (`wrappers.dfy`): `Option` and `Result`.
- `Messages` (`messages.dfy`): `Role` (`System | User | Assistant`), `Message`,
  `History`, the persona text `BotPersonality` and `ChatError`.
- `Conversations` (`conversations.dfy`): the table as a value
  (`map<string, History>`), what one turn does to it (`EnsureSession`,
  `Prompt`, `Chat`), a sequence of turns (`Run`), and the invariant
  `WellFormed` / `StoreValid`: every history opens with the persona message,
  no later entry has the system role, and every assistant reply directly
  follows a user message.
- `ConversationProperties` (`properties.dfy`): lemmas over single turns and
  over any sequence of turns: the invariant is kept, sessions are isolated,
  histories only grow, and lengths grow by 2 per answered turn and 1 per
  failed turn.
- `ChatService` (`chat_service.dfy`): the class `ConversationStore`, whose
  field `conversations` is updated in place by the method `Chat`; that
  method is proved to leave exactly the table `Conversations.Chat` describes.

The completion call (`client.responses.create` and `response.output_text`) is
a parameter `generate: History -> Option<string>` of `Chat`: it receives the
message list that is sent, and returns the reply text, or `None` when the call
fails. In the Python code a failing call raises an exception out of `chat`
after the user message was appended; the model returns
`Failure(UpstreamGenerationError)` in that case and leaves the user message in
place.

## Model

| member | source | states |
|---|---|---|
| `Conversations.EnsureSession` | main.py:21-24 | a user without an entry gets exactly `[system: BotPersonality]`; an existing entry (and every other one) is left untouched; the key set gains only that user |
| `Conversations.Prompt` | main.py:26-32 | the list sent to the completion service is the user's full prior history (or the fresh persona message) with the new user message as its last element |
| `Conversations.Chat` | main.py:20-42 | after a turn the sent prompt is kept at the front of the user's history, one assistant message carrying the reply is appended after it exactly when there is a reply (so growth is 2, or 1 on failure), and every other user's history is unchanged |
| `ConversationProperties.EnsureSessionIdempotent` | main.py:21 | opening a session twice equals opening it once; an existing session is never reset |
| `ConversationProperties.SystemMessageOnlyFirst` | main.py:21-28 | in a well-formed history the entry at index 0 is the persona message and no other entry has the system role |
| `ConversationProperties.ChatPreservesValid` | main.py:21-40 | one turn keeps every history well formed: persona first, no later system entry, every assistant reply right after a user message |
| `ConversationProperties.RunPreservesValid` | main.py:20-42 | the same invariant holds after any sequence of turns from any users |
| `ConversationProperties.RunIsolation` | main.py:21-39 | turns from other users never create, change or remove a user's history |
| `ConversationProperties.RunAppendOnly` | main.py:26-40 | histories only grow by appending: an earlier history is always an initial segment of the later one |
| `ConversationProperties.RunLength` | main.py:21-40 | after any sequence of turns a user has a history iff they had one or sent a turn, and its length is the starting length (1 for a new session) plus 2 per answered and 1 per failed turn of that user |
| `ConversationProperties.RoundTripsFromEmpty` | main.py:13-40 | from an empty table, N ≥ 1 answered turns from one user give a history of length 1 + 2N (for N = 0 the user has no entry, see `RunLength`) |
| `ConversationProperties.FirstExchange` | main.py:20-42 | "hi" answered with "hello" on an empty table gives `[system, user:"hi", assistant:"hello"]` |
| `ConversationProperties.SecondExchange` | main.py:26-40 | a second message is sent with the three earlier entries in front of it (a prompt of 4) and the history grows from 3 to 5 |
| `ConversationProperties.FailedFirstExchange` | main.py:26-38 | a failed first call leaves `[system, user:"hi"]`, length 2 |
| `ChatService.ConversationStore.constructor` | main.py:14 | the table starts empty and satisfies the invariant |
| `ChatService.ConversationStore.Chat` | main.py:20-42 | the in-place update leaves exactly the table `Conversations.Chat` gives for the reply the service returned on `Prompt` (so the prompt sent is the prior history plus the new user message); the result is that reply, or `UpstreamGenerationError` when there is none; on success the last history entry is the assistant message carrying the returned text; the invariant is kept |

## Left out

- The FastAPI application, the `/chat` endpoint and its `ChatRequest` body (main.py:8, 16-18, 44-47), including the default user id `"guest"`: HTTP plumbing around `chat`.
- The HTML and JavaScript page served by `home` (main.py:49-83): user-interface markup.
- Construction of the OpenAI client and the API-key lookup in the environment (main.py:11): foreign library and environment input.
- The remote completion call itself (main.py:30-37): its model name, `temperature=0.7` (a float) and `max_output_tokens=300` are opaque configuration of an external service. It is modelled only as the `generate` parameter, a deterministic function of the message list; the distinct causes of failure (network, authentication, quota) are collapsed into `None`. The source does not check the reply text: whatever `response.output_text` yields, an empty string included, is appended as an assistant message, so an empty reply is `Some("")` in the model, not a failure.
- `async` execution: `chat` (main.py:20-42) has no `await` and calls the synchronous client, so within one process calls run one at a time on the event loop and the sequential model matches the source.
- Aliasing of the Python list stored in the dictionary: the model replaces the map entry with a longer sequence instead of appending to a shared list object; no other code keeps a reference to that list, so the observable table is the same.
