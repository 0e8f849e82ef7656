/** A run in which a commit overtakes the leader's proposal. */
module Overtaking {
  import opened Syntax
  import opened Rsm
  import opened Proto
  import opened Auth
  import opened AuthSafety

  /** A leader with `log` that has collected `votes` for `cmd`. */
  ghost predicate Collecting(seat: Seat, st: State, log: seq<Command>, cmd: WireCommand, votes: seq<Vote>) {
    && Shaped(seat, st) && st.view.log == log && st.proposing == Some((cmd, votes))
    && BallotMatches(seat.roster, st.ballot, cmd, votes)
  }

  /** A valid vote of a new signer is collected, or decides. */
  lemma {:induction false} NewVote(s: Scheme, seat: Seat, st: State, log: seq<Command>, cmd: WireCommand,
      votes: seq<Vote>, v: Vote)
    requires Collecting(seat, st, log, cmd, votes) && v.voter !in Signers(votes)
    requires GoodRoster(seat.roster) && |seat.roster.members| <= 0x5555_5555
    requires VerifyVote(s, v, st.NextSlot(), cmd, seat.roster)
    ensures var (next, outs) := Recorded(s, seat, st, st.NextSlot(), v);
      && Signers(votes + [v]) == Signers(votes) + {v.voter}
      && (!seat.roster.quorum.Reached(|votes| + 1, |seat.roster.members|) ==>
            outs == [] && Collecting(seat, next, log, cmd, votes + [v]))
      && (seat.roster.quorum.Reached(|votes| + 1, |seat.roster.members|) ==>
            && outs == [Out(Peers, MCommit(Commitment(st.NextSlot(), cmd, votes + [v])))]
            && next.view.log == log + [cmd])
  {
    hide VerifyVote, DecidedBy, CommitView, Signers;
    VoterIsMember(s, v, st.NextSlot(), cmd, seat.roster);
    RecordMatches(seat.roster, st.ballot, cmd, votes, v);
    SignersPlus(votes, v);
    DecidesExactly(s, seat, st, v);
    CommitGrows(st.view, cmd);
  }

  lemma CastVerifies(s: Scheme, roster: Roster, seed: Bytes32, slot: U32, cmd: WireCommand)
    requires Correct(s) && s.publicKey(seed) in roster.members
    ensures VerifyVote(s, CastVote(s, seed, slot, cmd), slot, cmd, roster)
  {
    hide VoteMsg;
  }

  // ---------------------------------------------------------------------------
  // The run
  // ---------------------------------------------------------------------------

  /** The committee of five that `seeds` make, with the majority threshold. */
  ghost function Five(s: Scheme, seeds: seq<Bytes32>): Roster
    requires |seeds| == 5
  {
    Roster([s.publicKey(seeds[0]), s.publicKey(seeds[1]), s.publicKey(seeds[2]), s.publicKey(seeds[3]),
      s.publicKey(seeds[4])], Crash)
  }

  /** The leader submits `c`, accepts a valid commit of `d` for the same slot, and is handed two
      votes for `c` at the next one. */
  ghost function Overtaken(s: Scheme, seeds: seq<Bytes32>, c: WireCommand, cap: Capability, d: WireCommand): seq<Event>
    requires |seeds| == 5
  {
    [ESubmit(c, cap), EDeliver(MCommit(Commitment(0, d, LastThree(s, seeds, d)))),
     EDeliver(MVote(CastVote(s, seeds[1], 1, c))), EDeliver(MVote(CastVote(s, seeds[2], 1, c)))]
  }

  ghost function LastThree(s: Scheme, seeds: seq<Bytes32>, d: WireCommand): seq<Vote>
    requires |seeds| == 5
  {
    seq(3, i requires 0 <= i < 3 => CastVote(s, seeds[i + 2], 0, d))
  }

  lemma ThreeCertify(s: Scheme, seeds: seq<Bytes32>, d: WireCommand)
    requires Correct(s) && |seeds| == 5 && Distinct(Five(s, seeds).members)
    ensures QcValid(s, LastThree(s, seeds, d), 0, d, Five(s, seeds))
  {
    hide VoteMsg, VerifyVote;
    var m, votes := Five(s, seeds).members, LastThree(s, seeds, d);
    forall i | 0 <= i < 3
      ensures VerifyVote(s, votes[i], 0, d, Five(s, seeds))
    {
      assert m[i + 2] == s.publicKey(seeds[i + 2]);
      CastVerifies(s, Five(s, seeds), seeds[i + 2], 0, d);
    }
    assert votes[0].voter == m[2] && votes[1].voter == m[3] && votes[2].voter == m[4];
    assert Signers(votes) == {m[2], m[3], m[4]};
  }

  /** The run ends with the broadcast of a certificate that mixes the two slots and is invalid,
      for a command that the leader has appended. */
  lemma {:induction false} OvertakenRun(
      s: Scheme, seeds: seq<Bytes32>, init: Term, budget: FailureBudget, c: WireCommand, cap: Capability,
          d: WireCommand)
    requires Correct(s) && |seeds| == 5 && Distinct(Five(s, seeds).members) && VerifyCapability(s, cap, c)
    ensures var seat := Seat(seeds[0], Five(s, seeds), 0, 0);
      var (st, sent) := RunNode(s, seat, Initial(seat, init, budget), Overtaken(s, seeds, c, cap, d));
      && st.view.log == [d, c] && |sent| == 2 && sent[1].msg.MCommit?
      && var w := sent[1].msg.c; w.slot == 1 && w.cmd == c && !QcValid(s, w.votes, w.slot, w.cmd, seat.roster)
  {
    hide *;
    var seat, es := Seat(seeds[0], Five(s, seeds), 0, 0), Overtaken(s, seeds, c, cap, d);
    var own, v1, v2 := CastVote(s, seeds[0], 0, c), CastVote(s, seeds[1], 1, c), CastVote(s, seeds[2], 1, c);
    var st0 := Initial(seat, init, budget);
    TheEvents(s, seeds, init, budget, c, cap, d);
    Keys(s, seeds, c);
    var (st1, outs1) := StepNode(s, seat, st0, es[0]);
    AfterSubmit(s, seat, st0, c, cap);
    var (st2, outs2) := StepNode(s, seat, st1, es[1]);
    AfterCommit(s, seat, st1, c, [own], Commitment(0, d, LastThree(s, seeds, d)));
    var (st3, outs3) := StepNode(s, seat, st2, es[2]);
    AfterVote(s, seat, st2, [d], c, [own], v1);
    var (st4, outs4) := StepNode(s, seat, st3, es[3]);
    AfterVote(s, seat, st3, [d], c, [own] + [v1], v2);
    MixedInvalid(s, own, v1, v2, c, seat.roster);
    RunFour(s, seat, st0, es);
  }

  lemma TheEvents(s: Scheme, seeds: seq<Bytes32>, init: Term, budget: FailureBudget, c: WireCommand,
      cap: Capability, d: WireCommand)
    requires Correct(s) && |seeds| == 5 && Distinct(Five(s, seeds).members)
    ensures var seat, es := Seat(seeds[0], Five(s, seeds), 0, 0), Overtaken(s, seeds, c, cap, d);
      && es == [ESubmit(c, cap), EDeliver(MCommit(Commitment(0, d, LastThree(s, seeds, d)))),
                EDeliver(MVote(CastVote(s, seeds[1], 1, c))), EDeliver(MVote(CastVote(s, seeds[2], 1, c)))]
      && |seat.roster.members| == 5 && seat.roster.quorum == Crash && GoodRoster(seat.roster) && seat.IsLeader()
      && Shaped(seat, Initial(seat, init, budget))
      && Initial(seat, init, budget).view.log == [] && Initial(seat, init, budget).proposing == None
      && QcValid(s, LastThree(s, seeds, d), 0, d, seat.roster)
  {
    hide QcValid, LastThree, CastVote;
    ThreeCertify(s, seeds, d);
  }

  /** The first three seats' votes are valid, and of different signers. */
  lemma Keys(s: Scheme, seeds: seq<Bytes32>, c: WireCommand)
    requires Correct(s) && |seeds| == 5 && Distinct(Five(s, seeds).members)
    ensures var m := Five(s, seeds).members;
      var own, v1, v2 := CastVote(s, seeds[0], 0, c), CastVote(s, seeds[1], 1, c), CastVote(s, seeds[2], 1, c);
      && VerifyVote(s, own, 0, c, Five(s, seeds)) && VerifyVote(s, v1, 1, c, Five(s, seeds))
      && VerifyVote(s, v2, 1, c, Five(s, seeds)) && own.slot == 0
      && Signers([own]) == {own.voter} && Signers([own] + [v1]) == {own.voter, v1.voter}
      && own.voter == s.publicKey(seeds[0]) && v1.voter != own.voter && v2.voter != own.voter && v2.voter != v1.voter
  {
    hide VoteMsg, VerifyVote, Signers;
    var r := Five(s, seeds);
    assert r.members[0] == s.publicKey(seeds[0]) && r.members[1] == s.publicKey(seeds[1]) && r.members[2]
      == s.publicKey(seeds[2]);
    CastVerifies(s, r, seeds[0], 0, c);
    CastVerifies(s, r, seeds[1], 1, c);
    CastVerifies(s, r, seeds[2], 1, c);
    var own, v1 := CastVote(s, seeds[0], 0, c), CastVote(s, seeds[1], 1, c);
    NoSigners();
    SignersPlus([], own);
    assert [] + [own] == [own];
    SignersPlus([own], v1);
  }

  lemma AfterSubmit(s: Scheme, seat: Seat, st: State, c: WireCommand, cap: Capability)
    requires Shaped(seat, st) && st.view.log == [] && st.proposing == None && seat.IsLeader()
    requires GoodRoster(seat.roster) && |seat.roster.members| == 5 && seat.roster.quorum == Crash
    requires VerifyCapability(s, cap, c) && VerifyVote(s, CastVote(s, seat.seed, 0, c), 0, c, seat.roster)
    ensures var (next, outs) := StepNode(s, seat, st, ESubmit(c, cap));
      |outs| == 1 && Collecting(seat, next, [], c, [CastVote(s, seat.seed, 0, c)])
  {
    hide VerifyVote, Recorded, VerifyCapability, BallotMatches, Signers, CastVote, Propose;
    var mid, own := State(st.view, EmptyBallot(seat.roster), Some((c, []))), CastVote(s, seat.seed, 0, c);
    EmptyMatches(seat.roster, c);
    NoSigners();
    NewVote(s, seat, mid, [], c, [], own);
    assert [] + [own] == [own];
  }

  lemma AfterCommit(s: Scheme, seat: Seat, st: State, c: WireCommand, votes: seq<Vote>, w: Commitment)
    requires Collecting(seat, st, [], c, votes) && w.slot == 0 && QcValid(s, w.votes, 0, w.cmd, seat.roster)
    ensures var (next, outs) := StepNode(s, seat, st, EDeliver(MCommit(w)));
      outs == [] && Collecting(seat, next, [w.cmd], c, votes)
  {
    hide QcValid, BallotMatches;
    CommitGrows(st.view, w.cmd);
  }

  lemma AfterVote(s: Scheme, seat: Seat, st: State, log: seq<Command>, c: WireCommand, votes: seq<Vote>, v: Vote)
    requires Collecting(seat, st, log, c, votes) && v.voter !in Signers(votes) && |log| == 1 && seat.IsLeader()
    requires GoodRoster(seat.roster) && |seat.roster.members| == 5 && seat.roster.quorum == Crash
    requires VerifyVote(s, v, 1, c, seat.roster)
    ensures var (next, outs) := StepNode(s, seat, st, EDeliver(MVote(v)));
      && (|votes| + 1 < 3 ==> outs == [] && Collecting(seat, next, log, c, votes + [v]))
      && (|votes| + 1 >= 3 ==>
            outs == [Out(Peers, MCommit(Commitment(1, c, votes + [v])))] && next.view.log == log + [c])
  {
    hide VerifyVote, Recorded, BallotMatches, Signers;
    NewVote(s, seat, st, log, c, votes, v);
  }

  lemma MixedInvalid(s: Scheme, own: Vote, v1: Vote, v2: Vote, c: WireCommand, roster: Roster)
    requires own.slot == 0
    ensures !QcValid(s, [own] + [v1] + [v2], 1, c, roster)
  {
    assert !VerifyVote(s, ([own] + [v1] + [v2])[0], 1, c, roster);
  }

  lemma RunFour(s: Scheme, seat: Seat, st: State, es: seq<Event>)
    requires Shaped(seat, st) && |es| == 4
    ensures var (st1, outs1) := StepNode(s, seat, st, es[0]);
      var (st2, outs2) := StepNode(s, seat, st1, es[1]);
      var (st3, outs3) := StepNode(s, seat, st2, es[2]);
      var (st4, outs4) := StepNode(s, seat, st3, es[3]);
      RunNode(s, seat, st, es) == (st4, outs1 + outs2 + outs3 + outs4)
  {
    hide StepNode;
    assert es[..3][..2] == es[..2] && es[..2][..1] == es[..1] && es[..1][..0] == [];
    var (st1, outs1) := StepNode(s, seat, st, es[0]);
    assert [] + outs1 == outs1;
    assert RunNode(s, seat, st, es[..1]) == (st1, outs1);
    assert RunNode(s, seat, st, es[..2]).0 == StepNode(s, seat, st1, es[1]).0;
    assert RunNode(s, seat, st, es[..3]).0 == StepNode(s, seat, RunNode(s, seat, st, es[..2]).0, es[2]).0;
  }
}
