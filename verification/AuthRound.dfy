/** What the authenticated protocol achieves: one round of a committee in which a set of the
    followers responds. */
module AuthRound {
  import opened Syntax
  import opened Rsm
  import opened Consensus
  import opened Proto
  import opened Auth
  import opened AuthSafety
  import opened Cluster
  import opened Overtaking
  import Credentials

  // ---------------------------------------------------------------------------
  // A round
  // ---------------------------------------------------------------------------

  /** The messages among `outs`, sent by `from`, that go to `to`. */
  ghost function Inbox(outs: seq<Out>, from: U32, to: U32): seq<Msg> {
    if outs == [] then []
    else (if Reaches(outs[0].dest, from, to) then [outs[0].msg] else []) + Inbox(outs[1..], from, to)
  }

  predicate Reaches(dest: Dest, from: U32, to: U32) {
    match dest case Peers => to != from case To(seat) => to == seat
  }

  ghost function HandledAll(s: Scheme, seat: Seat, st: State, msgs: seq<Msg>): (r: (State, seq<Out>))
    requires Shaped(seat, st)
    ensures Shaped(seat, r.0)
    decreases |msgs|
  {
    if msgs == [] then (st, [])
    else
      var (mid, sent) := Handled(s, seat, st, msgs[0]);
      var (next, outs) := HandledAll(s, seat, mid, msgs[1..]);
      (next, sent + outs)
  }

  ghost predicate Staffed(su: Setup, nodes: seq<State>) {
    && su.Formed() && |nodes| == |su.seeds| < TWO32
    && forall i: nat :: i < |nodes| ==> Shaped(su.SeatOf(i), nodes[i])
  }

  /** What follower `i` answers to what the leader sent. */
  ghost function Reply(su: Setup, nodes: seq<State>, sent: seq<Out>, i: U32): (r: (State, seq<Out>))
    requires Staffed(su, nodes) && i < |nodes|
    ensures Shaped(su.SeatOf(i), r.0)
  {
    HandledAll(su.s, su.SeatOf(i), nodes[i], Inbox(sent, su.leader, i))
  }

  /** The leader, and all it sent, after the answers of the responding followers below `k`. */
  ghost function Gather(su: Setup, nodes: seq<State>, cmd: WireCommand, cap: Capability, up: set<nat>,
                        k: nat): (r: (State, seq<Out>))
    requires Staffed(su, nodes) && k <= |nodes|
    ensures Shaped(su.SeatOf(su.leader), r.0)
  {
    var seat := su.SeatOf(su.leader);
    if k == 0 then Submitted(su.s, seat, nodes[su.leader], cmd, cap)
    else
      var (st, outs) := Gather(su, nodes, cmd, cap, up, k - 1);
      if k - 1 !in up || k - 1 == su.leader then (st, outs) else
      var first := Submitted(su.s, seat, nodes[su.leader], cmd, cap).1;
      var (next, more) := HandledAll(su.s, seat, st, Inbox(Reply(su, nodes, first, k - 1).1, k - 1, su.leader));
      (next, outs + more)
  }

  /** A node after the round: the leader, a responding follower that also got what the leader
      sent last, or one that was not reached. */
  ghost function AfterRound(su: Setup, nodes: seq<State>, cmd: WireCommand, cap: Capability, up: set<nat>,
                            i: U32): State
    requires Staffed(su, nodes) && i < |nodes|
  {
    var (st, outs) := Gather(su, nodes, cmd, cap, up, |nodes|);
    if i == su.leader then st
    else if i !in up then nodes[i]
    else HandledAll(su.s, su.SeatOf(i), nodes[i], Inbox(outs, su.leader, i)).0
  }

  /** The seats heard of so far: the leader's own and the responding ones below `k`. */
  ghost function Heard(leader: U32, up: set<nat>, k: nat): set<nat> {
    {leader} + set i: nat | i < k && i in up
  }

  ghost function KeysOf(members: seq<Bytes32>, q: set<nat>): set<Bytes32> {
    set i: nat | i < |members| && i in q :: members[i]
  }

  // ---------------------------------------------------------------------------
  // The leader
  // ---------------------------------------------------------------------------

  /** The leader has collected the valid votes of `voters`, and not decided. */
  ghost predicate Waiting(su: Setup, log: seq<Command>, cmd: WireCommand, voters: set<nat>, st: State, votes: seq<Vote>)
    requires su.Formed() && su.leader < |su.seeds|
  {
    && Collecting(su.SeatOf(su.leader), st, log, cmd, votes)
    && Signers(votes) == KeysOf(su.roster.members, voters)
    && forall j :: 0 <= j < |votes| ==> VerifyVote(su.s, votes[j], |log| % TWO32, cmd, su.roster)
  }

  /** A commit of `cmd` for the slot after `log` that every node accepts. */
  ghost predicate Commits(su: Setup, log: seq<Command>, cmd: WireCommand, m: Msg) {
    && m.MCommit? && m.c.slot == |log| % TWO32 && m.c.cmd == cmd
    && QcValid(su.s, m.c.votes, m.c.slot, m.c.cmd, su.roster)
  }

  ghost predicate Proposes(su: Setup, log: seq<Command>, cmd: WireCommand, m: Msg) {
    m.MPropose? && m.p.slot == |log| % TWO32 && m.p.cmd == cmd && VerifyProposal(su.s, m.p, su.roster)
  }

  /** What the leader has done once it heard of `voters`. */
  ghost predicate Progressed(su: Setup, log: seq<Command>, cmd: WireCommand, voters: set<nat>, st: State,
                             outs: seq<Out>)
    requires su.Formed()
  {
    if su.roster.quorum.Reached(|voters|, |su.seeds|)
    then
      && Shaped(su.SeatOf(su.leader), st) && st.view.log == log + [cmd] && st.proposing == None
      && |outs| == 2 && outs[0].dest == Peers && Proposes(su, log, cmd, outs[0].msg)
      && outs[1].dest == Peers && Commits(su, log, cmd, outs[1].msg)
    else
      && (exists votes :: Waiting(su, log, cmd, voters, st, votes))
      && |outs| == 1 && outs[0].dest == Peers && Proposes(su, log, cmd, outs[0].msg)
  }

  /** All nodes hold `log`, the leader is idle, and the capability is good. */
  ghost predicate Ready(su: Setup, nodes: seq<State>, log: seq<Command>, cmd: WireCommand, cap: Capability) {
    && Staffed(su, nodes) && Correct(su.s) && |su.seeds| <= 0x5555_5555
    && nodes[su.leader].proposing == None && VerifyCapability(su.s, cap, cmd)
    && forall i: nat :: i < |nodes| ==> nodes[i].view.log == log
  }

  /** The leader takes the vote of one more seat. */
  lemma {:induction false} TakesVote(su: Setup, log: seq<Command>, cmd: WireCommand, voters: set<nat>, st: State,
                                     votes: seq<Vote>, i: U32)
    requires su.Formed() && Correct(su.s) && |su.seeds| <= 0x5555_5555 && i < |su.seeds| && i !in voters
    requires voters <= Seats(|su.seeds|) && Waiting(su, log, cmd, voters, st, votes)
    ensures var v := CastVote(su.s, su.seeds[i], |log| % TWO32, cmd);
      var (next, outs) := Recorded(su.s, su.SeatOf(su.leader), st, st.NextSlot(), v);
      if su.roster.quorum.Reached(|voters + {i}|, |su.seeds|)
      then
        && next.view.log == log + [cmd] && next.proposing == None
        && |outs| == 1 && outs[0].dest == Peers && Commits(su, log, cmd, outs[0].msg)
      else Waiting(su, log, cmd, voters + {i}, next, votes + [v]) && outs == []
  {
    hide VerifyVote, CastVote, Recorded, BallotMatches, Signers, KeysOf, Correct, Distinct;
    var slot, seat := |log| % TWO32, su.SeatOf(su.leader);
    var v := CastVote(su.s, su.seeds[i], slot, cmd);
    CastBy(su, i, slot, cmd);
    KeysMore(su.roster.members, voters, i);
    KeysCard(su.roster.members, voters + {i});
    VotesCount(seat, st, log, cmd, votes);
    NewVote(su.s, seat, st, log, cmd, votes, v);
    assert |votes + [v]| == |votes| + 1;
    KeysCard(su.roster.members, voters);
    assert forall j :: 0 <= j < |votes + [v]| ==> VerifyVote(su.s, (votes + [v])[j], slot, cmd, su.roster);
    Settled(su.s, seat, st, v);
  }

  /** A decision leaves nothing in flight. */
  lemma Settled(s: Scheme, seat: Seat, st: State, v: Vote)
    requires Shaped(seat, st)
    ensures Recorded(s, seat, st, st.NextSlot(), v).1 != [] ==>
      Recorded(s, seat, st, st.NextSlot(), v).0.proposing == None
  {
    hide VerifyVote, DecidedBy;
  }

  lemma VotesCount(seat: Seat, st: State, log: seq<Command>, cmd: WireCommand, votes: seq<Vote>)
    requires Collecting(seat, st, log, cmd, votes)
    ensures |votes| == |Signers(votes)| && st.NextSlot() == |log| % TWO32 && Shaped(seat, st) && st.view.log == log
    ensures st.proposing.Some?
  {
    hide Signers;
  }

  lemma CastBy(su: Setup, i: U32, slot: U32, cmd: WireCommand)
    requires su.Formed() && Correct(su.s) && i < |su.seeds|
    ensures var v := CastVote(su.s, su.seeds[i], slot, cmd);
      v.voter == su.roster.members[i] && VerifyVote(su.s, v, slot, cmd, su.roster)
  {
    hide VoteMsg;
    assert su.roster.members[i] == su.s.publicKey(su.seeds[i]);
    CastVerifies(su.s, su.roster, su.seeds[i], slot, cmd);
  }

  lemma KeysMore(members: seq<Bytes32>, q: set<nat>, i: nat)
    requires i < |members| && Distinct(members)
    ensures KeysOf(members, q + {i}) == KeysOf(members, q) + {members[i]}
    ensures i !in q ==> members[i] !in KeysOf(members, q)
  {
  }

  lemma KeysCard(members: seq<Bytes32>, q: set<nat>)
    requires Distinct(members) && q <= Seats(|members|)
    ensures |KeysOf(members, q)| == |q|
  {
    SeatsCard(members, KeysOf(members, q));
    assert SeatsOf(members, KeysOf(members, q)) == q;
  }

  lemma {:induction false} GatherStart(su: Setup, nodes: seq<State>, log: seq<Command>, cmd: WireCommand,
                                       cap: Capability)
    requires Ready(su, nodes, log, cmd, cap)
    ensures var (st, outs) := Submitted(su.s, su.SeatOf(su.leader), nodes[su.leader], cmd, cap);
      Progressed(su, log, cmd, {su.leader}, st, outs)
    ensures |su.seeds| > 1 ==> |Submitted(su.s, su.SeatOf(su.leader), nodes[su.leader], cmd, cap).1| == 1
  {
    hide VerifyVote, CastVote, Recorded, BallotMatches, Signers, KeysOf, Correct, VerifyCapability;
    hide VerifyProposal, Propose, QcValid, Waiting;
    var seat, st0 := su.SeatOf(su.leader), nodes[su.leader];
    assert Shaped(seat, st0);
    var mid := State(st0.view, EmptyBallot(su.roster), Some((cmd, [])));
    NothingHeard(su, log, cmd, mid);
    TakesVote(su, log, cmd, {}, mid, [], su.leader);
    assert {} + {su.leader} == {su.leader} && |{su.leader}| == 1;
    Credentials.ProposedAccepted(su.s, su.roster, su.seeds[su.leader], |log| % TWO32, cmd, cap);
    ProposeFields(su.s, su.seeds[su.leader], |log| % TWO32, cmd, cap);
  }

  lemma ProposeFields(s: Scheme, seed: Bytes32, slot: U32, cmd: WireCommand, cap: Capability)
    ensures Propose(s, seed, slot, cmd, cap).slot == slot && Propose(s, seed, slot, cmd, cap).cmd == cmd
  {
  }

  lemma NothingHeard(su: Setup, log: seq<Command>, cmd: WireCommand, st: State)
    requires su.Formed() && Shaped(su.SeatOf(su.leader), st) && st.view.log == log
    requires st.proposing == Some((cmd, [])) && st.ballot == EmptyBallot(su.roster)
    ensures Waiting(su, log, cmd, {}, st, [])
  {
    EmptyMatches(su.roster, cmd);
    NoSigners();
    assert KeysOf(su.roster.members, {}) == {};
  }

  // ---------------------------------------------------------------------------
  // The followers
  // ---------------------------------------------------------------------------

  lemma HandledOne(s: Scheme, seat: Seat, st: State, msg: Msg)
    requires Shaped(seat, st)
    ensures HandledAll(s, seat, st, [msg]) == Handled(s, seat, st, msg)
  {
    hide Handled;
    var (mid, sent) := Handled(s, seat, st, msg);
    assert [msg][1..] == [] && HandledAll(s, seat, mid, []) == (mid, []) && sent + [] == sent;
  }

  lemma VotesFor(su: Setup, i: U32, st: State, log: seq<Command>, cmd: WireCommand, m: Msg)
    requires su.Formed() && i < |su.seeds| && Shaped(su.SeatOf(i), st) && st.view.log == log &&
      Proposes(su, log, cmd, m)
    ensures Handled(su.s, su.SeatOf(i), st, m) ==
      (st, [Out(To(su.leader), MVote(CastVote(su.s, su.seeds[i], |log| % TWO32, cmd)))])
  {
    hide VerifyProposal, CastVote;
  }

  lemma AppliesCommit(su: Setup, i: U32, st: State, log: seq<Command>, cmd: WireCommand, m: Msg)
    requires su.Formed() && i < |su.seeds| && Shaped(su.SeatOf(i), st) && st.view.log == log && Commits(su, log, cmd, m)
    ensures var (next, outs) := Handled(su.s, su.SeatOf(i), st, m);
      outs == [] && next.view.log == log + [cmd] && next.view.replicas[0].applied == |log| + 1
  {
    hide QcValid;
    CommitGrows(st.view, cmd);
  }

  lemma {:induction false} FollowerReply(su: Setup, nodes: seq<State>, log: seq<Command>, cmd: WireCommand,
                                         cap: Capability, i: U32)
    requires Ready(su, nodes, log, cmd, cap) && i < |nodes| && i != su.leader
    ensures var first := Submitted(su.s, su.SeatOf(su.leader), nodes[su.leader], cmd, cap).1;
      Inbox(Reply(su, nodes, first, i).1, i, su.leader) == [MVote(CastVote(su.s, su.seeds[i], |log| % TWO32, cmd))]
  {
    hide Handled, Submitted, Shaped, CastVote, Waiting, QcValid, VerifyProposal, VerifyCapability, Correct;
    assert Shaped(su.SeatOf(i), nodes[i]);
    GatherStart(su, nodes, log, cmd, cap);
    var first := Submitted(su.s, su.SeatOf(su.leader), nodes[su.leader], cmd, cap).1;
    assert first[1..] == [] && Inbox(first, su.leader, i) == [first[0].msg];
    HandledOne(su.s, su.SeatOf(i), nodes[i], first[0].msg);
    VotesFor(su, i, nodes[i], log, cmd, first[0].msg);
    var vote := MVote(CastVote(su.s, su.seeds[i], |log| % TWO32, cmd));
    var answer := [Out(To(su.leader), vote)];
    assert answer[1..] == [] && Inbox(answer, i, su.leader) == [vote];
  }

  lemma {:induction false} GatherOne(su: Setup, log: seq<Command>, cmd: WireCommand, voters: set<nat>,
                                     r: (State, seq<Out>), i: U32)
    requires su.Formed() && Correct(su.s) && |su.seeds| <= 0x5555_5555 && i < |su.seeds| && i !in voters
    requires voters <= Seats(|su.seeds|) && Shaped(su.SeatOf(su.leader), r.0) &&
      Progressed(su, log, cmd, voters, r.0, r.1)
    ensures var vote := MVote(CastVote(su.s, su.seeds[i], |log| % TWO32, cmd));
      var (next, more) := HandledAll(su.s, su.SeatOf(su.leader), r.0, [vote]);
      Progressed(su, log, cmd, voters + {i}, next, r.1 + more)
  {
    hide Handled, Waiting, Shaped, CastVote, QcValid, VerifyProposal, Correct, Recorded;
    var seat, v := su.SeatOf(su.leader), CastVote(su.s, su.seeds[i], |log| % TWO32, cmd);
    HandledOne(su.s, seat, r.0, MVote(v));
    VoteRecorded(su.s, seat, r.0, v);
    SubsetCard(voters, voters + {i});
    if su.roster.quorum.Reached(|voters|, |su.seeds|) {
      assert r.1 + [] == r.1;
    } else {
      var votes :| Waiting(su, log, cmd, voters, r.0, votes);
      TakesVote(su, log, cmd, voters, r.0, votes, i);
    }
  }

  lemma VoteRecorded(s: Scheme, seat: Seat, st: State, v: Vote)
    requires Shaped(seat, st) && seat.IsLeader()
    ensures Handled(s, seat, st, MVote(v)) == Recorded(s, seat, st, st.NextSlot(), v)
    ensures st.proposing.None? ==> Handled(s, seat, st, MVote(v)) == (st, [])
  {
    hide VerifyVote, DecidedBy;
  }

  lemma {:induction false} GatherProgress(su: Setup, nodes: seq<State>, log: seq<Command>, cmd: WireCommand,
                                          cap: Capability, up: set<nat>, k: nat)
    requires Ready(su, nodes, log, cmd, cap) && k <= |nodes|
    ensures var (st, outs) := Gather(su, nodes, cmd, cap, up, k);
      Progressed(su, log, cmd, Heard(su.leader, up, k), st, outs)
  {
    hide Submitted, Shaped, Reply, Progressed, HandledAll, Heard, Inbox, CastVote, VerifyCapability, Correct;
    HeardMore(|nodes|, su.leader, up, k);
    if k == 0 {
      GatherStart(su, nodes, log, cmd, cap);
    } else {
      var i: nat := k - 1;
      GatherProgress(su, nodes, log, cmd, cap, up, i);
      if i in up && i != su.leader {
        FollowerReply(su, nodes, log, cmd, cap, i);
        GatherOne(su, log, cmd, Heard(su.leader, up, i), Gather(su, nodes, cmd, cap, up, i), i);
      }
    }
  }

  lemma HeardMore(n: nat, leader: U32, up: set<nat>, k: nat)
    requires k <= n && leader < n
    ensures Heard(leader, up, k) <= Seats(n)
    ensures k == 0 ==> Heard(leader, up, k) == {leader}
    ensures k > 0 ==>
      Heard(leader, up, k) == Heard(leader, up, k - 1) + if k - 1 in up && k - 1 != leader then {k - 1} else {}
    ensures k > 0 ==> Heard(leader, up, k - 1) <= Seats(n) && (k - 1 != leader ==> k - 1 !in Heard(leader, up, k - 1))
  {
    HeardMembers(leader, up, k);
    if k > 0 { HeardMembers(leader, up, k - 1); }
    hide Heard;
  }

  lemma HeardMembers(leader: U32, up: set<nat>, k: nat)
    ensures forall i: nat :: i in Heard(leader, up, k) <==> i == leader || (i < k && i in up)
  {
  }

  /** A round decides exactly when the leader and the responding followers reach the roster's
      threshold. Then they all have the command appended and applied; otherwise no log changes
      and the command stays in flight. The followers that were not reached are as they were. */
  lemma {:induction false} RoundExactly(su: Setup, nodes: seq<State>, log: seq<Command>, cmd: WireCommand,
                                        cap: Capability, up: set<nat>, i: U32)
    requires Ready(su, nodes, log, cmd, cap) && i < |nodes|
    ensures var voters := Heard(su.leader, up, |nodes|);
      var decided, node := su.roster.quorum.Reached(|voters|, |nodes|), AfterRound(su, nodes, cmd, cap, up, i);
      && (i in voters && decided ==> node.view.log == log + [cmd] && node.view.replicas[0].applied == |log| + 1)
      && (i in voters && !decided ==> node.view.log == log)
      && (i == su.leader ==> (node.proposing.Some? <==> !decided))
      && (i !in voters ==> node == nodes[i])
  {
    hide Gather, Waiting, Handled, QcValid, VerifyProposal, VerifyCapability, Correct;
    GatherProgress(su, nodes, log, cmd, cap, up, |nodes|);
    var (st, outs) := Gather(su, nodes, cmd, cap, up, |nodes|);
    var voters := Heard(su.leader, up, |nodes|);
    if i == su.leader {
      if !su.roster.quorum.Reached(|voters|, |nodes|) {
        var votes :| Waiting(su, log, cmd, voters, st, votes);
        StillWaiting(su, log, cmd, voters, st, votes);
      }
    } else if i in up {
      Notified(su, i, nodes[i], log, cmd, outs);
    }
  }

  lemma StillWaiting(su: Setup, log: seq<Command>, cmd: WireCommand, voters: set<nat>, st: State, votes: seq<Vote>)
    requires su.Formed() && Waiting(su, log, cmd, voters, st, votes)
    ensures st.view.log == log && st.proposing.Some?
  {
    hide VerifyVote, BallotMatches, Signers, KeysOf;
  }

  /** A follower after the proposal and, if there is one, the commit. */
  lemma {:induction false} Notified(su: Setup, i: U32, st: State, log: seq<Command>, cmd: WireCommand, outs: seq<Out>)
    requires su.Formed() && i < |su.seeds| && i != su.leader && Shaped(su.SeatOf(i), st) && st.view.log == log
    requires 1 <= |outs| <= 2 && outs[0].dest == Peers && Proposes(su, log, cmd, outs[0].msg)
    requires |outs| == 2 ==> outs[1].dest == Peers && Commits(su, log, cmd, outs[1].msg)
    ensures var next := HandledAll(su.s, su.SeatOf(i), st, Inbox(outs, su.leader, i)).0;
      if |outs| == 2 then next.view.log == log + [cmd] && next.view.replicas[0].applied == |log| + 1
      else next.view.log == log
  {
    hide Handled, Shaped, Proposes, Commits;
    var propose := outs[0].msg;
    VotesFor(su, i, st, log, cmd, propose);
    if |outs| == 2 {
      var commit := outs[1].msg;
      AppliesCommit(su, i, st, log, cmd, commit);
      HandledOne(su.s, su.SeatOf(i), st, commit);
      assert outs[1..][1..] == [] && Inbox(outs[1..], su.leader, i) == [commit];
      assert Inbox(outs, su.leader, i) == [propose, commit] && [propose, commit][1..] == [commit];
    } else {
      assert outs[1..] == [] && Inbox(outs, su.leader, i) == [propose];
      HandledOne(su.s, su.SeatOf(i), st, propose);
    }
  }
}
