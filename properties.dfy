/**
 * What the chat operation guarantees about the conversation table, one turn at
 * a time and over any sequence of turns.
 */
module ConversationProperties {
  import opened Wrappers
  import opened Messages
  import opened Conversations

  /** Opening a session twice is the same as opening it once, and never touches an existing one. */
  lemma EnsureSessionIdempotent(t: Table, user: string)
    ensures EnsureSession(EnsureSession(t, user), user) == EnsureSession(t, user)
    ensures user in t ==> EnsureSession(t, user) == t
  {
  }

  /** In a well-formed history the persona message is the one and only system message. */
  lemma SystemMessageOnlyFirst(h: History, i: int)
    requires WellFormed(h)
    requires 0 <= i < |h|
    ensures h[i].role == System <==> i == 0
    ensures i == 0 ==> h[i].content == BotPersonality
  {
  }

  /** One chat turn keeps every history in the table well formed. */
  lemma ChatPreservesValid(t: Table, user: string, message: string, reply: Option<string>)
    requires StoreValid(t)
    ensures StoreValid(Chat(t, user, message, reply))
  {
    var t' := Chat(t, user, message, reply);
    var base := EnsureSession(t, user)[user];
    assert WellFormed(base);
    var p := Prompt(t, user, message);
    assert WellFormed(p);
    forall u | u in t'
      ensures WellFormed(t'[u])
    {
      if u == user {
        match reply
        case None =>
          assert t'[u] == p;
        case Some(text) =>
          assert t'[u] == p + [Message(Assistant, text)];
      }
    }
  }

  /** Any sequence of chat turns keeps every history in the table well formed. */
  lemma {:induction false} RunPreservesValid(t: Table, turns: seq<Turn>)
    requires StoreValid(t)
    ensures StoreValid(Run(t, turns))
    decreases |turns|
  {
    if turns != [] {
      var turn := turns[0];
      ChatPreservesValid(t, turn.user, turn.message, turn.reply);
      RunPreservesValid(Chat(t, turn.user, turn.message, turn.reply), turns[1..]);
    }
  }

  /** Turns sent by other users neither create, change nor remove `user`'s history. */
  lemma {:induction false} RunIsolation(t: Table, turns: seq<Turn>, user: string)
    requires !Mentions(turns, user)
    ensures user in Run(t, turns) <==> user in t
    ensures user in t ==> Run(t, turns)[user] == t[user]
    decreases |turns|
  {
    if turns != [] {
      var turn := turns[0];
      assert turn.user != user by { assert turns[0].user == turn.user; }
      assert !Mentions(turns[1..], user) by {
        forall i | 0 <= i < |turns[1..]| ensures turns[1..][i].user != user {
          assert turns[1..][i] == turns[i + 1];
        }
      }
      RunIsolation(Chat(t, turn.user, turn.message, turn.reply), turns[1..], user);
    }
  }

  /** Histories only grow: what a user's history held before any sequence of turns stays at its front. */
  lemma {:induction false} RunAppendOnly(t: Table, turns: seq<Turn>, user: string)
    requires user in t
    ensures user in Run(t, turns)
    ensures IsPrefix(t[user], Run(t, turns)[user])
    decreases |turns|
  {
    if turns != [] {
      var turn := turns[0];
      var t1 := Chat(t, turn.user, turn.message, turn.reply);
      assert IsPrefix(t[user], t1[user]) by {
        if turn.user == user {
          var p := Prompt(t, user, turn.message);
          assert p[..|t[user]|] == t[user];
          assert t1[user][..|p|] == p;
          assert t1[user][..|t[user]|] == p[..|t[user]|];
        }
      }
      RunAppendOnly(t1, turns[1..], user);
      PrefixTransitive(t[user], t1[user], Run(t1, turns[1..])[user]);
    }
  }

  /** Being an initial segment is transitive. */
  lemma PrefixTransitive(a: History, b: History, c: History)
    requires IsPrefix(a, b) && IsPrefix(b, c)
    ensures IsPrefix(a, c)
  {
  }

  /**
   * After any sequence of turns a user has a history exactly when they had one
   * before or sent a turn, and its length is the starting length (one for a
   * fresh session) plus two per answered turn and one per failed turn.
   */
  lemma {:induction false} RunLength(t: Table, turns: seq<Turn>, user: string)
    ensures user in Run(t, turns) <==> user in t || Mentions(turns, user)
    ensures user in Run(t, turns) ==>
      |Run(t, turns)[user]| == |EnsureSession(t, user)[user]| + Growth(turns, user)
    decreases |turns|
  {
    if turns != [] {
      var turn := turns[0];
      var t1 := Chat(t, turn.user, turn.message, turn.reply);
      RunLength(t1, turns[1..], user);
      assert Mentions(turns, user) <==> turn.user == user || Mentions(turns[1..], user) by {
        if Mentions(turns, user) && turn.user != user {
          var i :| 0 <= i < |turns| && turns[i].user == user;
          assert turns[1..][i - 1] == turns[i];
        }
        if Mentions(turns[1..], user) {
          var i :| 0 <= i < |turns[1..]| && turns[1..][i].user == user;
          assert turns[i + 1] == turns[1..][i];
        }
      }
      if turn.user == user {
        assert |EnsureSession(t1, user)[user]| ==
          |EnsureSession(t, user)[user]| + (if turn.reply.Some? then 2 else 1);
      }
    }
  }

  /** Every turn in `turns` is sent by `user` and answered by the completion service. */
  predicate AllAnsweredFor(turns: seq<Turn>, user: string)
  {
    forall i :: 0 <= i < |turns| ==> turns[i].user == user && turns[i].reply.Some?
  }

  /** Answered turns all from `user` add two messages each. */
  lemma {:induction false} GrowthAllAnswered(turns: seq<Turn>, user: string)
    requires AllAnsweredFor(turns, user)
    ensures Growth(turns, user) == 2 * |turns|
    decreases |turns|
  {
    if turns != [] {
      assert turns[0].user == user && turns[0].reply.Some?;
      assert AllAnsweredFor(turns[1..], user) by {
        forall i | 0 <= i < |turns[1..]|
          ensures turns[1..][i].user == user && turns[1..][i].reply.Some?
        {
          assert turns[1..][i] == turns[i + 1];
        }
      }
      GrowthAllAnswered(turns[1..], user);
    }
  }

  /**
   * From an empty table, N answered turns from one user leave that user with a
   * history of 1 + 2N messages (the persona plus one user/assistant pair per turn).
   */
  lemma RoundTripsFromEmpty(turns: seq<Turn>, user: string)
    requires AllAnsweredFor(turns, user)
    requires turns != []
    ensures user in Run(map[], turns)
    ensures |Run(map[], turns)[user]| == 1 + 2 * |turns|
  {
    assert turns[0].user == user;
    RunLength(map[], turns, user);
    GrowthAllAnswered(turns, user);
  }

  /** First exchange with a fresh table: the history becomes persona, question, answer. */
  lemma FirstExchange()
    ensures Chat(map[], "alice", "hi", Some("hello"))["alice"] ==
      [SystemMessage(), Message(User, "hi"), Message(Assistant, "hello")]
  {
  }

  /**
   * A second message from the same user is sent with the three earlier entries
   * in front of it, and the history grows from three to five entries.
   */
  lemma SecondExchange()
    ensures
      var t := Chat(map[], "alice", "hi", Some("hello"));
      && Prompt(t, "alice", "how are you") == t["alice"] + [Message(User, "how are you")]
      && |Prompt(t, "alice", "how are you")| == 4
      && |Chat(t, "alice", "how are you", Some("fine"))["alice"]| == 5
  {
  }

  /** When the completion service fails on the first message, the history holds the persona and the question only. */
  lemma FailedFirstExchange()
    ensures Chat(map[], "alice", "hi", None)["alice"] == [SystemMessage(), Message(User, "hi")]
  {
  }
}
