/** A session: the server handling a sequence of messages one at a time,
    and the properties that hold of every such run. */
module PollSession {
  import opened Search
  import opened Polls
  import opened PollServer

  /** Handles the messages in order, each to completion before the next,
      collecting every snapshot broadcast along the way. */
  function Run(s: PollState, ms: seq<Message>): (r: Step)
    decreases |ms|
  {
    if |ms| == 0 then Step(s, [])
    else
      var first := OnMessage(s, ms[0]);
      var rest := Run(first.state, ms[1..]);
      Step(rest.state, first.broadcasts + rest.broadcasts)
  }

  /** Exactly one poll is active, `currentPollId` names it, and ids stay
      unique, whatever messages arrive. */
  lemma {:induction false} RunKeepsWellFormed(s: PollState, ms: seq<Message>)
    requires WellFormed(s)
    ensures WellFormed(Run(s, ms).state)
    decreases |ms|
  {
    if |ms| > 0 {
      RunKeepsWellFormed(OnMessage(s, ms[0]).state, ms[1..]);
    }
  }

  /** The catalog (poll ids, names, questions, option ids and texts, and
      their order) never changes; only votes and activity do. */
  lemma {:induction false} RunKeepsCatalog(s: PollState, ms: seq<Message>)
    ensures Catalog(Run(s, ms).state) == Catalog(s)
    decreases |ms|
  {
    if |ms| > 0 {
      RunKeepsCatalog(OnMessage(s, ms[0]).state, ms[1..]);
    }
  }

  /** A connection that opens after a run receives the last snapshot
      broadcast, or the starting state when nothing was broadcast. */
  lemma {:induction false} JoinSeesLastBroadcast(s: PollState, ms: seq<Message>)
    ensures var r := Run(s, ms);
      OnConnect(r.state) == if r.broadcasts == [] then s else r.broadcasts[|r.broadcasts| - 1]
    decreases |ms|
  {
    if |ms| > 0 {
      JoinSeesLastBroadcast(OnMessage(s, ms[0]).state, ms[1..]);
    }
  }

  /** Every state the server can reach from its seed satisfies the invariant
      and has the seed's catalog. */
  lemma ReachableStates(ms: seq<Message>)
    ensures WellFormed(Run(InitialState(), ms).state)
    ensures Catalog(Run(InitialState(), ms).state) == Catalog(InitialState())
  {
    RunKeepsWellFormed(InitialState(), ms);
    RunKeepsCatalog(InitialState(), ms);
  }

  /** Resetting a poll twice leaves the same state as resetting it once. */
  lemma ResetIdempotent(s: PollState, pollId: string)
    ensures var once := ResetPollVotes(s, pollId).state;
      ResetPollVotes(once, pollId).state == once
  {
    var once := ResetPollVotes(s, pollId).state;
    var twice := ResetPollVotes(once, pollId).state;
    match FirstIndex(PollIds(s), pollId)
    case None =>
    case Some(pi) =>
      CatalogFixesIds(s, once);
      assert IsFirst(PollIds(once), pollId, pi);
      var n := |s.polls[pi].options|;
      assert Tally(once)[pi] == Zeros(n);
      assert Tally(twice) == Tally(once)[pi := Zeros(n)];
      assert Tally(twice) == Tally(once);
      Reassemble(once, twice);
  }

  /** With the invariant in force, a vote is accepted exactly when it names
      the current poll and one of that poll's options. */
  lemma VoteAcceptedIffCurrent(s: PollState, pollId: string, optionId: string)
    requires WellFormed(s)
    ensures var r := HandleVote(s, pollId, optionId);
      |r.broadcasts| == (if pollId == s.currentPollId && optionId in CurrentOptionIds(s) then 1 else 0)
  {
    var i :| ActiveExactly(s, i) && s.polls[i].id == s.currentPollId;
    FirstOfDistinct(PollIds(s), s.currentPollId, i);
    if pollId == s.currentPollId {
      if optionId in OptionIds(s.polls[i]) {
        var oi := FirstIndex(OptionIds(s.polls[i]), optionId).value;
        assert VoteTarget(s, pollId, optionId, i, oi);
      }
    } else if pollId in PollIds(s) {
      var pi := FirstIndex(PollIds(s), pollId).value;
      assert pi != i;
    }
  }

  /** The option ids of the active poll. */
  function CurrentOptionIds(s: PollState): seq<string>
    requires Valid(s)
  {
    var i :| ActiveExactly(s, i) && s.polls[i].id == s.currentPollId;
    OptionIds(s.polls[i])
  }

  // ---------------------------------------------------------------------------
  // A walkthrough of one session from the seed
  // ---------------------------------------------------------------------------

  const SeedPollIds: seq<string> := ["poll1", "poll2", "poll3", "poll4", "poll5"]

  /** `s` has the seed's ids and the given counters, flags and current id. */
  ghost predicate Looks(s: PollState, tally: seq<seq<nat>>, activity: seq<bool>, current: string) {
    && PollIds(s) == SeedPollIds
    && OptionIds(s.polls[0]) == ["a", "b", "c", "d", "e"]
    && OptionIds(s.polls[1]) == ["a", "b", "c", "d"]
    && Tally(s) == tally
    && Activity(s) == activity
    && s.currentPollId == current
  }

  /** A step that keeps the catalog keeps the ids `Looks` checks. */
  lemma KeepsSeedIds(s: PollState, t: PollState)
    requires |s.polls| >= 2 && Catalog(t) == Catalog(s)
    ensures PollIds(t) == PollIds(s)
    ensures OptionIds(t.polls[0]) == OptionIds(s.polls[0])
    ensures OptionIds(t.polls[1]) == OptionIds(s.polls[1])
  {
    CatalogFixesIds(s, t);
  }

  const Before: seq<seq<nat>> := [Zeros(5), Zeros(4), Zeros(2), Zeros(3), Zeros(5)]
  const AfterVote1: seq<seq<nat>> := [[1, 0, 0, 0, 0], Zeros(4), Zeros(2), Zeros(3), Zeros(5)]
  const AfterVote2: seq<seq<nat>> := [[1, 0, 0, 0, 0], [1, 0, 0, 0], Zeros(2), Zeros(3), Zeros(5)]
  const AfterReset: seq<seq<nat>> := [Zeros(5), [1, 0, 0, 0], Zeros(2), Zeros(3), Zeros(5)]
  const Poll1Active: seq<bool> := [true, false, false, false, false]
  const Poll2Active: seq<bool> := [false, true, false, false, false]

  lemma WalkStart()
    ensures Looks(InitialState(), Before, Poll1Active, "poll1")
  {
    var s := InitialState();
    assert Activity(s) == Poll1Active;
    assert OptionIds(s.polls[0]) == ["a", "b", "c", "d", "e"];
    assert OptionIds(s.polls[1]) == ["a", "b", "c", "d"];
  }

  lemma FirstVoteTally()
    ensures Increment(Before, 0, 0) == AfterVote1
  {
    assert Zeros(5) == [0, 0, 0, 0, 0];
    assert Before[0][0 := 1] == [1, 0, 0, 0, 0];
  }

  lemma SecondVoteTally()
    ensures Increment(AfterVote1, 1, 0) == AfterVote2
  {
    assert Zeros(4) == [0, 0, 0, 0];
    assert AfterVote1[1][0 := 1] == [1, 0, 0, 0];
  }

  lemma ResetTally()
    ensures AfterVote2[0 := Zeros(5)] == AfterReset
  {
  }

  lemma WalkVoteOnActive(s: PollState)
    requires Looks(s, Before, Poll1Active, "poll1")
    ensures var r := OnMessage(s, Message("vote", "poll1", "a"));
      Looks(r.state, AfterVote1, Poll1Active, "poll1") && |r.broadcasts| == 1
  {
    assert IsFirst(PollIds(s), "poll1", 0);
    assert IsFirst(OptionIds(s.polls[0]), "a", 0);
    assert VoteTarget(s, "poll1", "a", 0, 0);
    var r := OnMessage(s, Message("vote", "poll1", "a"));
    KeepsSeedIds(s, r.state);
    FirstVoteTally();
  }

  lemma WalkVoteOnInactive(s: PollState)
    requires Looks(s, AfterVote1, Poll1Active, "poll1")
    ensures OnMessage(s, Message("vote", "poll2", "a")) == Step(s, [])
  {
    assert IsFirst(PollIds(s), "poll2", 1);
    assert Activity(s)[1] == false;
  }

  lemma WalkChangePoll(s: PollState)
    requires Looks(s, AfterVote1, Poll1Active, "poll1")
    ensures var r := OnMessage(s, Message("changePoll", "poll2", ""));
      Looks(r.state, AfterVote1, Poll2Active, "poll2") && |r.broadcasts| == 1
  {
    assert IsFirst(PollIds(s), "poll2", 1);
    var r := OnMessage(s, Message("changePoll", "poll2", ""));
    KeepsSeedIds(s, r.state);
    assert ActiveExactly(r.state, 1);
    assert Activity(r.state) == Poll2Active;
  }

  lemma WalkVoteAfterChange(s: PollState)
    requires Looks(s, AfterVote1, Poll2Active, "poll2")
    ensures var r := OnMessage(s, Message("vote", "poll2", "a"));
      Looks(r.state, AfterVote2, Poll2Active, "poll2") && |r.broadcasts| == 1
  {
    assert IsFirst(PollIds(s), "poll2", 1);
    assert IsFirst(OptionIds(s.polls[1]), "a", 0);
    assert Activity(s)[1];
    assert VoteTarget(s, "poll2", "a", 1, 0);
    var r := OnMessage(s, Message("vote", "poll2", "a"));
    KeepsSeedIds(s, r.state);
    SecondVoteTally();
  }

  lemma WalkReset(s: PollState)
    requires Looks(s, AfterVote2, Poll2Active, "poll2")
    ensures var r := OnMessage(s, Message("resetPoll", "poll1", ""));
      Looks(r.state, AfterReset, Poll2Active, "poll2") && |r.broadcasts| == 5
  {
    assert IsFirst(PollIds(s), "poll1", 0) && |s.polls[0].options| == 5 by {
      assert |Tally(s)[0]| == 5;
    }
    var r := OnMessage(s, Message("resetPoll", "poll1", ""));
    KeepsSeedIds(s, r.state);
    assert Tally(r.state) == AfterVote2[0 := Zeros(5)];
    ResetTally();
  }

  /** Handling `m` and then `ms` is handling `[m] + ms`. */
  lemma RunCons(s: PollState, m: Message, ms: seq<Message>)
    ensures var first := OnMessage(s, m);
      var rest := Run(first.state, ms);
      Run(s, [m] + ms) == Step(rest.state, first.broadcasts + rest.broadcasts)
  {
    assert ([m] + ms)[1..] == ms;
  }

  /** The walkthrough of a session: a vote on the active poll, a vote on an
      inactive poll, a switch to poll2, a vote there, and a reset of poll1
      that broadcasts once for each of its five options. */
  lemma Walkthrough()
    ensures var r := Run(InitialState(), [
        Message("vote", "poll1", "a"),
        Message("vote", "poll2", "a"),
        Message("changePoll", "poll2", ""),
        Message("vote", "poll2", "a"),
        Message("resetPoll", "poll1", "")]);
      && Looks(r.state, AfterReset, Poll2Active, "poll2")
      && |r.broadcasts| == 1 + 0 + 1 + 1 + 5
  {
    var m1, m2, m3, m4, m5 :=
      Message("vote", "poll1", "a"),
      Message("vote", "poll2", "a"),
      Message("changePoll", "poll2", ""),
      Message("vote", "poll2", "a"),
      Message("resetPoll", "poll1", "");
    var s0 := InitialState();
    WalkStart();
    WalkVoteOnActive(s0);
    var s1 := OnMessage(s0, m1).state;
    WalkVoteOnInactive(s1);
    WalkChangePoll(s1);
    var s3 := OnMessage(s1, m3).state;
    WalkVoteAfterChange(s3);
    var s4 := OnMessage(s3, m4).state;
    WalkReset(s4);
    var s5 := OnMessage(s4, m5).state;
    RunCons(s4, m5, []);
    RunCons(s3, m4, [m5]);
    RunCons(s1, m3, [m4, m5]);
    RunCons(s1, m2, [m3, m4, m5]);
    RunCons(s0, m1, [m2, m3, m4, m5]);
  }
}
