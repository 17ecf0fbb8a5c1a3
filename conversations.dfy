/**
 * The process-wide conversation table as a value: a map from a user id to that
 * user's history, and the functions that say what one chat turn does to it.
 */
module Conversations {
  import opened Wrappers
  import opened Messages

  /** The table of all conversations, keyed by user id. */
  type Table = map<string, History>

  /**
   * A history is well formed when it opens with the persona message, no later
   * entry has the system role, and every assistant reply directly follows the
   * user message that prompted it.
   */
  predicate WellFormed(h: History)
  {
    && |h| >= 1
    && h[0] == SystemMessage()
    && (forall i :: 1 <= i < |h| ==> h[i].role != System)
    && (forall i :: 1 <= i < |h| && h[i].role == Assistant ==> h[i - 1].role == User)
  }

  /** Every history in the table is well formed. */
  predicate StoreValid(t: Table)
  {
    forall u {:trigger WellFormed(t[u])} :: u in t ==> WellFormed(t[u])
  }

  /** `h` is an initial segment of `h'`: what `h` holds is kept, in order, at the front of `h'`. */
  predicate IsPrefix(h: History, h': History)
  {
    |h| <= |h'| && h'[..|h|] == h
  }

  /**
   * Lazily opens a session: a user without an entry gets the single persona
   * message; an existing entry, and every other entry, is left as it is.
   */
  function EnsureSession(t: Table, user: string): (t': Table)
    ensures t'.Keys == t.Keys + {user}
    ensures forall u :: u in t ==> t'[u] == t[u]
    ensures user !in t ==> t'[user] == [SystemMessage()]
  {
    if user in t then t else t[user := [SystemMessage()]]
  }

  /**
   * The message list handed to the completion service: the user's whole prior
   * history (or the fresh persona message) with the new user message last.
   */
  function Prompt(t: Table, user: string, message: string): (p: History)
    ensures |p| == |EnsureSession(t, user)[user]| + 1
    ensures p[..|p| - 1] == EnsureSession(t, user)[user]
    ensures p[|p| - 1] == Message(User, message)
  {
    EnsureSession(t, user)[user] + [Message(User, message)]
  }

  /**
   * The table after one chat turn for `user`, given what the completion service
   * returned for the prompt: the user message is always appended; the reply is
   * appended as an assistant message only when there is one.
   */
  function Chat(t: Table, user: string, message: string, reply: Option<string>): (t': Table)
    ensures t'.Keys == t.Keys + {user}
    ensures forall u :: u in t && u != user ==> t'[u] == t[u]
    ensures IsPrefix(Prompt(t, user, message), t'[user])
    ensures |t'[user]| == |Prompt(t, user, message)| + (if reply.Some? then 1 else 0)
    ensures reply.Some? ==> t'[user][|t'[user]| - 1] == Message(Assistant, reply.value)
  {
    var withSession := EnsureSession(t, user);
    var sent := withSession[user] + [Message(User, message)];
    match reply
    case None => withSession[user := sent]
    case Some(text) => withSession[user := sent + [Message(Assistant, text)]]
  }

  /** One call of the chat operation: who sent what, and what the completion service returned. */
  datatype Turn = Turn(user: string, message: string, reply: Option<string>)

  /** The table after a sequence of chat turns, applied in order. */
  function Run(t: Table, turns: seq<Turn>): Table
    decreases |turns|
  {
    if turns == [] then t
    else Run(Chat(t, turns[0].user, turns[0].message, turns[0].reply), turns[1..])
  }

  /** Some turn in `turns` is sent by `user`. */
  predicate Mentions(turns: seq<Turn>, user: string)
  {
    exists i :: 0 <= i < |turns| && turns[i].user == user
  }

  /** How many messages `turns` add to `user`'s history: two per answered turn, one per failed one. */
  function Growth(turns: seq<Turn>, user: string): nat
    decreases |turns|
  {
    if turns == [] then 0
    else
      (if turns[0].user != user then 0 else if turns[0].reply.Some? then 2 else 1)
      + Growth(turns[1..], user)
  }
}
