/** The session state of the poll server: a fixed catalog of polls, their
    vote counters, which poll is active, and the seed the server starts from.

    Besides the records themselves the module splits a state into three
    projections: the Catalog (everything a command never changes), the Tally
    (the vote counters) and the Activity (the `isActive` flags).  Together
    with `currentPollId` they determine the state (lemma Reassemble), so each
    handler's contract can say which projections it changes and how. */
module Polls {
  import opened Search

  datatype PollOption = PollOption(id: string, text: string, votes: nat)

  datatype Poll = Poll(
    id: string,
    name: string,
    question: string,
    options: seq<PollOption>,
    isActive: bool)

  datatype PollState = PollState(polls: seq<Poll>, currentPollId: string)

  // ---------------------------------------------------------------------------
  // Projections
  // ---------------------------------------------------------------------------

  /** The poll ids in catalog order: what `polls.find` searches. */
  function PollIds(s: PollState): (ids: seq<string>)
    ensures |ids| == |s.polls|
    ensures forall i :: 0 <= i < |s.polls| ==> ids[i] == s.polls[i].id
  {
    seq(|s.polls|, i requires 0 <= i < |s.polls| => s.polls[i].id)
  }

  /** The option ids of one poll in order: what `options.find` searches. */
  function OptionIds(p: Poll): (ids: seq<string>)
    ensures |ids| == |p.options|
    ensures forall k :: 0 <= k < |p.options| ==> ids[k] == p.options[k].id
  {
    seq(|p.options|, k requires 0 <= k < |p.options| => p.options[k].id)
  }

  /** The part of an option that is fixed for the whole session. */
  datatype OptionShape = OptionShape(id: string, text: string)

  /** The part of a poll that is fixed for the whole session. */
  datatype PollShape = PollShape(
    id: string,
    name: string,
    question: string,
    options: seq<OptionShape>)

  function Shape(p: Poll): (sh: PollShape)
    ensures |sh.options| == |p.options|
    ensures forall k :: 0 <= k < |p.options| ==>
      sh.options[k] == OptionShape(p.options[k].id, p.options[k].text)
  {
    PollShape(p.id, p.name, p.question,
      seq(|p.options|, k requires 0 <= k < |p.options| =>
        OptionShape(p.options[k].id, p.options[k].text)))
  }

  /** Everything about the polls except votes and activity. */
  function Catalog(s: PollState): (c: seq<PollShape>)
    ensures |c| == |s.polls|
    ensures forall i :: 0 <= i < |s.polls| ==> c[i] == Shape(s.polls[i])
  {
    seq(|s.polls|, i requires 0 <= i < |s.polls| => Shape(s.polls[i]))
  }

  /** The vote counters of one poll, in option order. */
  function Votes(p: Poll): (v: seq<nat>)
    ensures |v| == |p.options|
    ensures forall k :: 0 <= k < |p.options| ==> v[k] == p.options[k].votes
  {
    seq(|p.options|, k requires 0 <= k < |p.options| => p.options[k].votes)
  }

  /** The vote counters of every poll, in catalog order. */
  function Tally(s: PollState): (t: seq<seq<nat>>)
    ensures |t| == |s.polls|
    ensures forall i :: 0 <= i < |s.polls| ==> t[i] == Votes(s.polls[i])
  {
    seq(|s.polls|, i requires 0 <= i < |s.polls| => Votes(s.polls[i]))
  }

  /** The `isActive` flags, in catalog order. */
  function Activity(s: PollState): (a: seq<bool>)
    ensures |a| == |s.polls|
    ensures forall i :: 0 <= i < |s.polls| ==> a[i] == s.polls[i].isActive
  {
    seq(|s.polls|, i requires 0 <= i < |s.polls| => s.polls[i].isActive)
  }

  /** `b` differs from `a` at most in its vote counters. */
  predicate SameExceptVotes(a: PollState, b: PollState) {
    && Catalog(a) == Catalog(b)
    && Activity(a) == Activity(b)
    && a.currentPollId == b.currentPollId
  }

  function Zeros(n: nat): (z: seq<nat>)
    ensures |z| == n
    ensures forall k :: 0 <= k < n ==> z[k] == 0
  {
    seq(n, _ => 0)
  }

  // ---------------------------------------------------------------------------
  // Invariants
  // ---------------------------------------------------------------------------

  /** Poll `i` is active and no other poll is. */
  predicate ActiveExactly(s: PollState, i: int) {
    && 0 <= i < |s.polls|
    && forall j :: 0 <= j < |s.polls| ==> (s.polls[j].isActive <==> j == i)
  }

  /** Exactly one poll is active, and `currentPollId` is its id. */
  ghost predicate Valid(s: PollState) {
    exists i :: ActiveExactly(s, i) && s.polls[i].id == s.currentPollId
  }

  /** Poll ids are unique in the session, option ids unique within a poll. */
  predicate UniqueIds(s: PollState) {
    && Distinct(PollIds(s))
    && forall i :: 0 <= i < |s.polls| ==> Distinct(OptionIds(s.polls[i]))
  }

  ghost predicate WellFormed(s: PollState) {
    Valid(s) && UniqueIds(s)
  }

  // ---------------------------------------------------------------------------
  // The one mutation of a counter
  // ---------------------------------------------------------------------------

  /** Sets the counter of option `oi` of poll `pi` to `v`, as the
      assignments `option.votes++` and `option.votes = 0` do. */
  function WithVotes(s: PollState, pi: nat, oi: nat, v: nat): (t: PollState)
    requires pi < |s.polls| && oi < |s.polls[pi].options|
    ensures SameExceptVotes(s, t)
    ensures var row: seq<nat> := Tally(s)[pi][oi := v]; Tally(t) == Tally(s)[pi := row]
  {
    var p := s.polls[pi];
    var p' := p.(options := p.options[oi := p.options[oi].(votes := v)]);
    var t := s.(polls := s.polls[pi := p']);
    assert Shape(p') == Shape(p);
    assert Catalog(t) == Catalog(s);
    assert Activity(t) == Activity(s);
    var row: seq<nat> := Votes(p)[oi := v];
    assert Votes(p') == row;
    t
  }

  // ---------------------------------------------------------------------------
  // Lemmas about the projections
  // ---------------------------------------------------------------------------

  lemma ReassemblePoll(p: Poll, q: Poll)
    requires Shape(p) == Shape(q) && Votes(p) == Votes(q) && p.isActive == q.isActive
    ensures p == q
  {
    assert |p.options| == |q.options|;
    forall k | 0 <= k < |p.options|
      ensures p.options[k] == q.options[k]
    {
      assert Shape(p).options[k] == Shape(q).options[k];
      assert Votes(p)[k] == Votes(q)[k];
    }
    assert p.options == q.options;
  }

  /** A state is determined by its catalog, tally, activity and current id. */
  lemma Reassemble(a: PollState, b: PollState)
    requires SameExceptVotes(a, b) && Tally(a) == Tally(b)
    ensures a == b
  {
    assert |a.polls| == |b.polls|;
    forall i | 0 <= i < |a.polls|
      ensures a.polls[i] == b.polls[i]
    {
      assert Catalog(a)[i] == Catalog(b)[i];
      assert Tally(a)[i] == Tally(b)[i];
      assert Activity(a)[i] == Activity(b)[i];
      ReassemblePoll(a.polls[i], b.polls[i]);
    }
    assert a.polls == b.polls;
  }

  /** The ids every search runs over belong to the catalog. */
  lemma CatalogFixesIds(a: PollState, b: PollState)
    requires Catalog(a) == Catalog(b)
    ensures PollIds(a) == PollIds(b)
    ensures forall i :: 0 <= i < |a.polls| ==> OptionIds(a.polls[i]) == OptionIds(b.polls[i])
  {
    forall i | 0 <= i < |a.polls|
      ensures a.polls[i].id == b.polls[i].id
      ensures OptionIds(a.polls[i]) == OptionIds(b.polls[i])
    {
      assert Catalog(a)[i] == Catalog(b)[i];
      var p, q := a.polls[i], b.polls[i];
      forall k | 0 <= k < |p.options|
        ensures p.options[k].id == q.options[k].id
      {
        assert Shape(p).options[k] == Shape(q).options[k];
      }
    }
  }

  /** Changing only vote counters keeps both invariants. */
  lemma SameExceptVotesKeepsWellFormed(a: PollState, b: PollState)
    requires SameExceptVotes(a, b)
    ensures Valid(a) <==> Valid(b)
    ensures UniqueIds(a) <==> UniqueIds(b)
  {
    CatalogFixesIds(a, b);
    assert PollIds(a) == PollIds(b);
    if Valid(a) {
      var i :| ActiveExactly(a, i) && a.polls[i].id == a.currentPollId;
      assert Activity(a) == Activity(b);
      assert PollIds(a)[i] == PollIds(b)[i];
      assert ActiveExactly(b, i);
    }
    if Valid(b) {
      var i :| ActiveExactly(b, i) && b.polls[i].id == b.currentPollId;
      assert Activity(a) == Activity(b);
      assert PollIds(a)[i] == PollIds(b)[i];
      assert ActiveExactly(a, i);
    }
  }

  // ---------------------------------------------------------------------------
  // The seed catalog
  // ---------------------------------------------------------------------------

  /** A poll of the seed catalog: options labelled by (id, text) pairs, all
      counters at zero. */
  function SeedPoll(id: string, name: string, question: string,
                    labels: seq<(string, string)>, isActive: bool): (p: Poll)
    ensures p.id == id && p.isActive == isActive
    ensures OptionIds(p) == seq(|labels|, k requires 0 <= k < |labels| => labels[k].0)
    ensures Votes(p) == Zeros(|labels|)
  {
    Poll(id, name, question,
      seq(|labels|, k requires 0 <= k < |labels| => PollOption(labels[k].0, labels[k].1, 0)),
      isActive)
  }

  function Poll1(): (p: Poll)
    ensures p.id == "poll1" && p.isActive
    ensures Distinct(OptionIds(p)) && Votes(p) == Zeros(|p.options|)
  {
    var p := SeedPoll("poll1", "Poll 1", "Which option is correct?",
      [("a", "A"), ("b", "B"), ("c", "C"), ("d", "D"), ("e", "E")], true);
    assert OptionIds(p) == ["a", "b", "c", "d", "e"];
    p
  }

  function Poll2(): (p: Poll)
    ensures p.id == "poll2" && !p.isActive
    ensures Distinct(OptionIds(p)) && Votes(p) == Zeros(|p.options|)
  {
    var p := SeedPoll("poll2", "Poll 2", "Which option is the best?",
      [("a", "A"), ("b", "B"), ("c", "C"), ("d", "D")], false);
    assert OptionIds(p) == ["a", "b", "c", "d"];
    p
  }

  function Poll3(): (p: Poll)
    ensures p.id == "poll3" && !p.isActive
    ensures Distinct(OptionIds(p)) && Votes(p) == Zeros(|p.options|)
  {
    var p := SeedPoll("poll3", "Poll 3", "True or False?",
      [("true", "True"), ("false", "False")], false);
    assert OptionIds(p) == ["true", "false"];
    p
  }

  function Poll4(): (p: Poll)
    ensures p.id == "poll4" && !p.isActive
    ensures Distinct(OptionIds(p)) && Votes(p) == Zeros(|p.options|)
  {
    var p := SeedPoll("poll4", "Poll 4", "Yes or No?",
      [("yes", "Yes"), ("no", "No"), ("maybe", "Maybe")], false);
    assert OptionIds(p) == ["yes", "no", "maybe"];
    p
  }

  function Poll5(): (p: Poll)
    ensures p.id == "poll5" && !p.isActive
    ensures Distinct(OptionIds(p)) && Votes(p) == Zeros(|p.options|)
  {
    var p := SeedPoll("poll5", "Poll 5",
      "On a scale of 1 to 5, how are you feeling about what we just learned?",
      [("a", "1"), ("b", "2"), ("c", "3"), ("d", "4"), ("e", "5")], false);
    assert OptionIds(p) == ["a", "b", "c", "d", "e"];
    p
  }

  /** The state the server constructs: five polls, the first one active,
      unique ids, every counter at zero. */
  function InitialState(): (s: PollState)
    ensures WellFormed(s)
    ensures s.currentPollId == "poll1" && ActiveExactly(s, 0)
    ensures PollIds(s) == ["poll1", "poll2", "poll3", "poll4", "poll5"]
    ensures forall i :: 0 <= i < |s.polls| ==> Tally(s)[i] == Zeros(|s.polls[i].options|)
  {
    var s := PollState([Poll1(), Poll2(), Poll3(), Poll4(), Poll5()], "poll1");
    assert ActiveExactly(s, 0);
    assert PollIds(s) == ["poll1", "poll2", "poll3", "poll4", "poll5"];
    s
  }
}
