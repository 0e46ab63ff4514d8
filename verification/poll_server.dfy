/** The command handlers of the poll server.

    Every handler is a pure step: it takes the current state and returns the
    next state together with the snapshots it broadcasts to every connection,
    in the order they are sent.  A rejected command returns the state it was
    given and broadcasts nothing. */
module PollServer {
  import opened Search
  import opened Polls

  /** The state after a command and the snapshots broadcast while handling it. */
  datatype Step = Step(state: PollState, broadcasts: seq<PollState>)

  /** A decoded inbound message: its `type` discriminant and the two id fields
      the handlers read. */
  datatype Message = Message(kind: string, pollId: string, optionId: string)

  /** The commands the server understands; any other discriminant is Unknown. */
  datatype Command =
    | Vote(pollId: string, optionId: string)
    | ChangePoll(pollId: string)
    | ResetPoll(pollId: string)
    | Unknown

  const KnownKinds: set<string> := {"vote", "changePoll", "resetPoll"}

  /** Selects the command by the message's `type` field. */
  function Decode(m: Message): (c: Command)
    ensures c.Unknown? <==> m.kind !in KnownKinds
    ensures m.kind == "vote" ==> c == Vote(m.pollId, m.optionId)
    ensures m.kind == "changePoll" ==> c == ChangePoll(m.pollId)
    ensures m.kind == "resetPoll" ==> c == ResetPoll(m.pollId)
  {
    if m.kind == "vote" then Vote(m.pollId, m.optionId)
    else if m.kind == "changePoll" then ChangePoll(m.pollId)
    else if m.kind == "resetPoll" then ResetPoll(m.pollId)
    else Unknown
  }

  /** The message a client sends for a known command. */
  function Encode(c: Command): (m: Message)
    requires !c.Unknown?
    ensures m.kind in KnownKinds && m.pollId == c.pollId
  {
    match c
    case Vote(p, o) => Message("vote", p, o)
    case ChangePoll(p) => Message("changePoll", p, "")
    case ResetPoll(p) => Message("resetPoll", p, "")
  }

  /** Decoding the message a client sends for a command gives back that command. */
  lemma DecodeEncode(c: Command)
    requires !c.Unknown?
    ensures Decode(Encode(c)) == c
  {
  }

  // ---------------------------------------------------------------------------
  // Connection open
  // ---------------------------------------------------------------------------

  /** The snapshot sent to a connection that has just opened. */
  function OnConnect(s: PollState): (sent: PollState)
    ensures sent == s
  {
    s
  }

  // ---------------------------------------------------------------------------
  // Vote
  // ---------------------------------------------------------------------------

  /** The counter a vote names: `pi` is the first poll with `pollId`, it is
      active, and `oi` is its first option with `optionId`. */
  predicate VoteTarget(s: PollState, pollId: string, optionId: string, pi: int, oi: int) {
    && IsFirst(PollIds(s), pollId, pi)
    && 0 <= pi < |s.polls|
    && s.polls[pi].isActive
    && IsFirst(OptionIds(s.polls[pi]), optionId, oi)
  }

  function Increment(t: seq<seq<nat>>, pi: nat, oi: nat): (u: seq<seq<nat>>)
    requires pi < |t| && oi < |t[pi]|
    ensures |u| == |t| && |u[pi]| == |t[pi]|
    ensures u[pi][oi] == t[pi][oi] + 1
    ensures forall i, k :: 0 <= i < |t| && 0 <= k < |t[i]| && (i, k) != (pi, oi) ==>
      |u[i]| == |t[i]| && u[i][k] == t[i][k]
  {
    var row: seq<nat> := t[pi][oi := t[pi][oi] + 1];
    t[pi := row]
  }

  /** `handleVote`: one more vote for an option of the active poll. */
  function HandleVote(s: PollState, pollId: string, optionId: string): (r: Step)
    ensures forall pi, oi :: VoteTarget(s, pollId, optionId, pi, oi) ==>
      && SameExceptVotes(s, r.state)
      && Tally(r.state) == Increment(Tally(s), pi, oi)
      && r.broadcasts == [r.state]
    ensures pollId !in PollIds(s) ==> r == Step(s, [])
    ensures forall pi :: IsFirst(PollIds(s), pollId, pi) && !s.polls[pi].isActive ==>
      r == Step(s, [])
    ensures forall pi :: IsFirst(PollIds(s), pollId, pi) && optionId !in OptionIds(s.polls[pi]) ==>
      r == Step(s, [])
    ensures Catalog(r.state) == Catalog(s)
    ensures Valid(s) ==> Valid(r.state)
    ensures UniqueIds(s) ==> UniqueIds(r.state)
    ensures r.broadcasts == [] ==> r.state == s
    ensures r.broadcasts != [] ==> r.broadcasts[|r.broadcasts| - 1] == r.state
  {
    match FirstIndex(PollIds(s), pollId)
    case None => Step(s, [])
    case Some(pi) =>
      FirstIsUnique(PollIds(s), pollId, pi);
      if !s.polls[pi].isActive then Step(s, [])
      else
        match FirstIndex(OptionIds(s.polls[pi]), optionId)
        case None => Step(s, [])
        case Some(oi) =>
          var t := WithVotes(s, pi, oi, s.polls[pi].options[oi].votes + 1);
          FirstIsUnique(OptionIds(s.polls[pi]), optionId, oi);
          assert Tally(t) == Increment(Tally(s), pi, oi);
          SameExceptVotesKeepsWellFormed(s, t);
          Step(t, [t])
  }

  // ---------------------------------------------------------------------------
  // Change the active poll
  // ---------------------------------------------------------------------------

  /** Every poll with its flag cleared: the `forEach` of `changeCurrentPoll`. */
  function DeactivateAll(polls: seq<Poll>): (r: seq<Poll>)
    ensures |r| == |polls|
    ensures forall i :: 0 <= i < |polls| ==> r[i] == polls[i].(isActive := false)
  {
    seq(|polls|, i requires 0 <= i < |polls| => polls[i].(isActive := false))
  }

  /** `changeCurrentPoll`: makes the first poll with `pollId` the only active
      one and records its id as current. */
  function ChangeCurrentPoll(s: PollState, pollId: string): (r: Step)
    ensures pollId !in PollIds(s) ==> r == Step(s, [])
    ensures forall pi :: IsFirst(PollIds(s), pollId, pi) ==>
      && ActiveExactly(r.state, pi)
      && r.state.currentPollId == pollId
      && Catalog(r.state) == Catalog(s)
      && Tally(r.state) == Tally(s)
      && r.broadcasts == [r.state]
    ensures Catalog(r.state) == Catalog(s)
    ensures pollId in PollIds(s) ==> Valid(r.state)
    ensures UniqueIds(s) ==> UniqueIds(r.state)
    ensures r.broadcasts == [] ==> r.state == s
    ensures r.broadcasts != [] ==> r.broadcasts[|r.broadcasts| - 1] == r.state
  {
    match FirstIndex(PollIds(s), pollId)
    case None => Step(s, [])
    case Some(pi) =>
      var off := DeactivateAll(s.polls);
      var t := PollState(off[pi := off[pi].(isActive := true)], pollId);
      assert forall i :: 0 <= i < |s.polls| ==> Shape(t.polls[i]) == Shape(s.polls[i]);
      assert forall i :: 0 <= i < |s.polls| ==> Votes(t.polls[i]) == Votes(s.polls[i]);
      assert Catalog(t) == Catalog(s);
      assert Tally(t) == Tally(s);
      CatalogFixesIds(s, t);
      assert ActiveExactly(t, pi) && t.polls[pi].id == t.currentPollId;
      Step(t, [t])
  }

  // ---------------------------------------------------------------------------
  // Reset a poll's votes
  // ---------------------------------------------------------------------------

  /** `v` with the counters at positions `lo` up to `hi` (exclusive) zeroed. */
  function ZeroRange(v: seq<nat>, lo: nat, hi: nat): (w: seq<nat>)
    requires lo <= hi <= |v|
    ensures |w| == |v|
  {
    v[..lo] + Zeros(hi - lo) + v[hi..]
  }

  lemma ZeroRangeOne(v: seq<nat>, k: nat)
    requires k < |v|
    ensures ZeroRange(v, k, k + 1) == v[k := 0]
  {
  }

  /** Zeroing position `lo` first and then the rest of the range zeroes the
      whole range. */
  lemma ZeroRangeStep(v: seq<nat>, lo: nat, hi: nat)
    requires lo < hi <= |v|
    ensures ZeroRange(v[lo := 0], lo + 1, hi) == ZeroRange(v, lo, hi)
  {
  }

  /** `t` is `s` with the counters of poll `pi` at positions `lo` up to `hi`
      zeroed, and nothing else changed. */
  predicate ZeroedRange(s: PollState, t: PollState, pi: nat, lo: nat, hi: nat)
    requires pi < |s.polls| && lo <= hi <= |s.polls[pi].options|
  {
    && SameExceptVotes(s, t)
    && Tally(t) == Tally(s)[pi := ZeroRange(Tally(s)[pi], lo, hi)]
  }

  /** Zeroing counter `lo` and then the rest of the range zeroes the range. */
  lemma ZeroedRangeStep(s: PollState, s1: PollState, t: PollState, pi: nat, lo: nat, hi: nat)
    requires pi < |s.polls| && lo < hi <= |s.polls[pi].options|
    requires SameExceptVotes(s, s1)
    requires var row: seq<nat> := Tally(s)[pi][lo := 0]; Tally(s1) == Tally(s)[pi := row]
    requires pi < |s1.polls| && hi <= |s1.polls[pi].options|
    requires ZeroedRange(s1, t, pi, lo + 1, hi)
    ensures ZeroedRange(s, t, pi, lo, hi)
  {
    var v := Tally(s)[pi];
    assert Tally(s1)[pi] == v[lo := 0];
    ZeroRangeStep(v, lo, hi);
    assert Tally(t) == Tally(s1)[pi := ZeroRange(v, lo, hi)];
    assert Tally(s1)[pi := ZeroRange(v, lo, hi)] == Tally(s)[pi := ZeroRange(v, lo, hi)];
  }

  /** The snapshots broadcast from iteration `k` on, iteration `k + j`
      having zeroed the counters `k` to `k + j`. */
  predicate ZeroSnapshots(s: PollState, pi: nat, k: nat, bs: seq<PollState>)
    requires pi < |s.polls| && k + |bs| <= |s.polls[pi].options|
  {
    forall j :: 0 <= j < |bs| ==> ZeroedRange(s, bs[j], pi, k, k + j + 1)
  }

  lemma ZeroSnapshotsCons(s: PollState, pi: nat, k: nat, bs: seq<PollState>)
    requires pi < |s.polls| && k + 1 + |bs| <= |s.polls[pi].options|
    requires ZeroedRange(s, WithVotes(s, pi, k, 0), pi, k, k + 1)
    requires ZeroSnapshots(WithVotes(s, pi, k, 0), pi, k + 1, bs)
    ensures ZeroSnapshots(s, pi, k, [WithVotes(s, pi, k, 0)] + bs)
  {
    var s1 := WithVotes(s, pi, k, 0);
    var all := [s1] + bs;
    forall j | 0 <= j < |all|
      ensures ZeroedRange(s, all[j], pi, k, k + j + 1)
    {
      if j > 0 {
        assert all[j] == bs[j - 1];
        assert ZeroedRange(s1, bs[j - 1], pi, k + 1, k + 1 + (j - 1) + 1);
        ZeroedRangeStep(s, s1, bs[j - 1], pi, k, k + j + 1);
      }
    }
  }

  /** The `for` loop of `resetPollVotes` from option `k` on: each iteration
      zeroes one counter and broadcasts the state as it then stands. */
  function ZeroFrom(s: PollState, pi: nat, k: nat): (r: Step)
    requires pi < |s.polls| && k <= |s.polls[pi].options|
    decreases |s.polls[pi].options| - k
    ensures ZeroedRange(s, r.state, pi, k, |s.polls[pi].options|)
    ensures |r.broadcasts| == |s.polls[pi].options| - k
    ensures ZeroSnapshots(s, pi, k, r.broadcasts)
    ensures r.broadcasts == [] ==> r.state == s
    ensures r.broadcasts != [] ==> r.broadcasts[|r.broadcasts| - 1] == r.state
  {
    var n := |s.polls[pi].options|;
    if k == n then
      var v := Tally(s)[pi];
      assert ZeroRange(v, k, n) == v;
      assert Tally(s)[pi := v] == Tally(s);
      Step(s, [])
    else
      var s1 := WithVotes(s, pi, k, 0);
      var rest := ZeroFrom(s1, pi, k + 1);
      ZeroRangeOne(Tally(s)[pi], k);
      ZeroedRangeStep(s, s1, rest.state, pi, k, n);
      ZeroSnapshotsCons(s, pi, k, rest.broadcasts);
      Step(rest.state, [s1] + rest.broadcasts)
  }

  lemma ZeroRangeFromStart(v: seq<nat>, hi: nat)
    requires hi <= |v|
    ensures ZeroRange(v, 0, hi) == Zeros(hi) + v[hi..]
  {
  }

  /** The whole loop leaves every counter of the poll at zero. */
  lemma ZeroFromStartState(s: PollState, pi: nat)
    requires pi < |s.polls|
    ensures var r := ZeroFrom(s, pi, 0);
      && SameExceptVotes(s, r.state)
      && Tally(r.state) == Tally(s)[pi := Zeros(|s.polls[pi].options|)]
      && |r.broadcasts| == |s.polls[pi].options|
  {
    var r := ZeroFrom(s, pi, 0);
    var v := Tally(s)[pi];
    assert ZeroedRange(s, r.state, pi, 0, |v|);
    assert ZeroRange(v, 0, |v|) == Zeros(|v|) by {
      ZeroRangeFromStart(v, |v|);
      assert v[|v|..] == [];
    }
  }

  /** Snapshot `j` of the whole loop has the first `j + 1` counters zeroed. */
  lemma ZeroFromStartSnapshots(s: PollState, pi: nat)
    requires pi < |s.polls|
    ensures var r := ZeroFrom(s, pi, 0);
      forall j :: 0 <= j < |r.broadcasts| ==>
        && SameExceptVotes(s, r.broadcasts[j])
        && Tally(r.broadcasts[j]) == Tally(s)[pi := Zeros(j + 1) + Tally(s)[pi][j + 1..]]
  {
    var bs := ZeroFrom(s, pi, 0).broadcasts;
    var v := Tally(s)[pi];
    forall j | 0 <= j < |bs|
      ensures SameExceptVotes(s, bs[j])
      ensures Tally(bs[j]) == Tally(s)[pi := Zeros(j + 1) + v[j + 1..]]
    {
      assert ZeroSnapshots(s, pi, 0, bs);
      assert ZeroedRange(s, bs[j], pi, 0, j + 1);
      ZeroRangeFromStart(v, j + 1);
    }
  }

  /** `resetPollVotes`: zeroes every counter of the first poll with `pollId`,
      active or not, broadcasting once per option. */
  function ResetPollVotes(s: PollState, pollId: string): (r: Step)
    ensures pollId !in PollIds(s) ==> r == Step(s, [])
    ensures Catalog(r.state) == Catalog(s)
    ensures forall pi :: IsFirst(PollIds(s), pollId, pi) ==>
      && SameExceptVotes(s, r.state)
      && Tally(r.state) == Tally(s)[pi := Zeros(|s.polls[pi].options|)]
      && |r.broadcasts| == |s.polls[pi].options|
      && forall j :: 0 <= j < |r.broadcasts| ==>
           && SameExceptVotes(s, r.broadcasts[j])
           && Tally(r.broadcasts[j]) == Tally(s)[pi := Zeros(j + 1) + Tally(s)[pi][j + 1..]]
    ensures Valid(s) ==> Valid(r.state)
    ensures UniqueIds(s) ==> UniqueIds(r.state)
    ensures r.broadcasts == [] ==> r.state == s
    ensures r.broadcasts != [] ==> r.broadcasts[|r.broadcasts| - 1] == r.state
  {
    match FirstIndex(PollIds(s), pollId)
    case None => Step(s, [])
    case Some(pi) =>
      var r := ZeroFrom(s, pi, 0);
      FirstIsUnique(PollIds(s), pollId, pi);
      ZeroFromStartState(s, pi);
      ZeroFromStartSnapshots(s, pi);
      SameExceptVotesKeepsWellFormed(s, r.state);
      r
  }

  // ---------------------------------------------------------------------------
  // Dispatch
  // ---------------------------------------------------------------------------

  /** Runs the handler a command selects; Unknown does nothing. */
  function Apply(s: PollState, c: Command): (r: Step)
    ensures c.Unknown? ==> r == Step(s, [])
    ensures Catalog(r.state) == Catalog(s)
    ensures Valid(s) ==> Valid(r.state)
    ensures UniqueIds(s) ==> UniqueIds(r.state)
    ensures r.broadcasts == [] ==> r.state == s
    ensures r.broadcasts != [] ==> r.broadcasts[|r.broadcasts| - 1] == r.state
  {
    match c
    case Vote(p, o) => HandleVote(s, p, o)
    case ChangePoll(p) => ChangeCurrentPoll(s, p)
    case ResetPoll(p) => ResetPollVotes(s, p)
    case Unknown => Step(s, [])
  }

  /** `onMessage`: decode the discriminant, then dispatch. */
  function OnMessage(s: PollState, m: Message): (r: Step)
    ensures m.kind !in KnownKinds ==> r == Step(s, [])
    ensures m.kind == "vote" ==> r == HandleVote(s, m.pollId, m.optionId)
    ensures m.kind == "changePoll" ==> r == ChangeCurrentPoll(s, m.pollId)
    ensures m.kind == "resetPoll" ==> r == ResetPollVotes(s, m.pollId)
    ensures Catalog(r.state) == Catalog(s)
    ensures WellFormed(s) ==> WellFormed(r.state)
    ensures r.broadcasts == [] ==> r.state == s
    ensures r.broadcasts != [] ==> r.broadcasts[|r.broadcasts| - 1] == r.state
  {
    Apply(s, Decode(m))
  }
}
