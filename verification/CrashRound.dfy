/** What the crash protocol achieves: one round of a cluster in which a set of the followers
    responds. */
module CrashRound {
  import opened Syntax
  import opened Rsm
  import opened Consensus
  import opened CrashNode

  // ---------------------------------------------------------------------------
  // One message
  // ---------------------------------------------------------------------------

  /** A leader that has `cmd` in flight on `log`, with the votes of `voters`. */
  ghost predicate Tallying(p: Peer, st: State, log: seq<Command>, cmd: Command, voters: set<nat>) {
    && Shaped(p, st) && p.IsLeader() && st.view.log == log && st.proposing == Some(cmd)
    && forall i: nat :: i < |st.ballot| ==> st.ballot[i] == if i in voters then Some(cmd) else None
  }

  lemma VotersAre(p: Peer, st: State, log: seq<Command>, cmd: Command, voters: set<nat>)
    requires Tallying(p, st, log, cmd, voters) && voters <= Seats(p.cluster)
    ensures Voters(st.ballot, cmd) == voters
  {
  }

  /** The votes decide exactly when their distinct seats are a majority. */
  lemma {:induction false} TallyDecides(p: Peer, st: State, log: seq<Command>, cmd: Command, voters: set<nat>)
    requires Tallying(p, st, log, cmd, voters) && voters <= Seats(p.cluster) && p.cluster < 0x8000_0000
    ensures var (next, outs) := Tallied(p, st, st.NextSlot(), cmd);
      if 2 * |voters| > p.cluster
      then next.view.log == log + [cmd] && next.proposing == None && outs == [Out(Peers, MCommit(st.NextSlot(), cmd))]
      else next == st && outs == []
  {
    hide IsQuorum, Voters, CommitView;
    VotersAre(p, st, log, cmd, voters);
    Tally(st.ballot, cmd);
    CommitGrows(st.view, cmd);
  }

  /** A submission to an idle leader is broadcast, counts the leader's vote and, in a cluster of
      one, is decided. */
  lemma {:induction false} SubmitAnswered(p: Peer, st: State, cmd: Command)
    requires Shaped(p, st) && p.IsLeader() && p.id < p.cluster < 0x8000_0000 && st.proposing == None
    ensures var (next, outs) := Submitted(p, st, cmd);
      && |outs| > 0 && outs[0] == Out(Peers, MPropose(st.NextSlot(), cmd))
      && (p.cluster > 1 ==> |outs| == 1 && Tallying(p, next, st.view.log, cmd, {p.id}))
      && (p.cluster == 1 ==> next.view.log == st.view.log + [cmd] && next.proposing == None)
  {
    hide Tallied;
    var mid := State(st.view, EmptyBallot(p)[p.id := Some(cmd)], Some(cmd));
    assert |{p.id}| == 1;
    TallyDecides(p, mid, st.view.log, cmd, {p.id});
  }

  /** A vote for the command in flight is counted, once per seat. */
  lemma {:induction false} VoteAnswered(p: Peer, st: State, log: seq<Command>, cmd: Command, voters: set<nat>, i: U32)
    requires Tallying(p, st, log, cmd, voters) && voters <= Seats(p.cluster) && i < p.cluster < 0x8000_0000
    ensures var (next, outs) := Handled(p, st, MVote(st.NextSlot(), i, cmd));
      if 2 * |voters + {i}| > p.cluster
      then next.view.log == log + [cmd] && next.proposing == None && outs == [Out(Peers, MCommit(st.NextSlot(), cmd))]
      else Tallying(p, next, log, cmd, voters + {i}) && outs == []
  {
    hide Tallied;
    var mid := st.(ballot := st.ballot[i := Some(cmd)]);
    TallyDecides(p, mid, log, cmd, voters + {i});
  }

  /** A proposal for the next slot is voted for, to the leader; a commit for it is appended and
      applied; and whatever is for another slot changes nothing and gets no answer. */
  lemma {:induction false} HandledExactly(p: Peer, st: State, msg: Msg)
    requires Shaped(p, st)
    ensures msg.slot != st.NextSlot() ==> Handled(p, st, msg) == (st, [])
    ensures msg.MPropose? && msg.slot == st.NextSlot() ==>
      Handled(p, st, msg) == (st, [Out(To(p.leader), MVote(msg.slot, p.id, msg.cmd))])
    ensures msg.MCommit? && msg.slot == st.NextSlot() ==>
      var (next, outs) := Handled(p, st, msg);
      && outs == [] && next.view.log == st.view.log + [msg.cmd]
      && next.view.replicas[0].applied == |next.view.log|
      && next.ballot == st.ballot && next.proposing == st.proposing
    ensures msg.MVote? && !p.IsLeader() ==> Handled(p, st, msg) == (st, [])
  {
    hide Tallied;
    CommitGrows(st.view, msg.cmd);
  }

  // ---------------------------------------------------------------------------
  // A round
  // ---------------------------------------------------------------------------

  /** The messages among `outs`, sent by `from`, that go to `to`. */
  ghost function Inbox(outs: seq<Out>, from: U32, to: U32): seq<Msg> {
    if outs == [] then []
    else (if Reaches(outs[0].dest, from, to) then [outs[0].msg] else []) + Inbox(outs[1..], from, to)
  }

  predicate Reaches(dest: Dest, from: U32, to: U32) {
    match dest case Peers => to != from case To(id) => to == id
  }

  ghost function HandledAll(p: Peer, st: State, msgs: seq<Msg>): (r: (State, seq<Out>))
    requires Shaped(p, st)
    ensures Shaped(p, r.0)
    decreases |msgs|
  {
    if msgs == [] then (st, [])
    else
      var (mid, sent) := Handled(p, st, msgs[0]);
      var (next, outs) := HandledAll(p, mid, msgs[1..]);
      (next, sent + outs)
  }

  ghost predicate Cluster(n: U32, leader: U32, nodes: seq<State>) {
    |nodes| == n && leader < n && forall i: nat :: i < n ==> Shaped(Peer(i, n, leader), nodes[i])
  }

  /** What follower `i` answers to what the leader sent. */
  ghost function Reply(n: U32, leader: U32, nodes: seq<State>, sent: seq<Out>, i: U32): (r: (State, seq<Out>))
    requires Cluster(n, leader, nodes) && i < n
    ensures Shaped(Peer(i, n, leader), r.0)
  {
    HandledAll(Peer(i, n, leader), nodes[i], Inbox(sent, leader, i))
  }

  /** The leader, and all it sent, after the answers of the responding followers below `k`. */
  ghost function Gather(n: U32, leader: U32, nodes: seq<State>, cmd: Command, up: set<nat>, k: nat): (r: (State,
                        seq<Out>))
    requires Cluster(n, leader, nodes) && k <= n
    ensures Shaped(Peer(leader, n, leader), r.0)
  {
    var p := Peer(leader, n, leader);
    if k == 0 then Submitted(p, nodes[leader], cmd)
    else
      var (st, outs) := Gather(n, leader, nodes, cmd, up, k - 1);
      if k - 1 !in up || k - 1 == leader then (st, outs) else
      var first := Submitted(p, nodes[leader], cmd).1;
      var (next, more) := HandledAll(p, st, Inbox(Reply(n, leader, nodes, first, k - 1).1, k - 1, leader));
      (next, outs + more)
  }

  /** A node after the round: the leader, a responding follower that also got what the leader
      sent last, or one that was not reached. */
  ghost function AfterRound(n: U32, leader: U32, nodes: seq<State>, cmd: Command, up: set<nat>, i: U32): State
    requires Cluster(n, leader, nodes) && i < n
  {
    var (st, outs) := Gather(n, leader, nodes, cmd, up, n);
    if i == leader then st
    else if i !in up then nodes[i]
    else HandledAll(Peer(i, n, leader), nodes[i], Inbox(outs, leader, i)).0
  }

  /** The seats heard of so far: the leader's own and the responding ones below `k`. */
  ghost function Heard(leader: U32, up: set<nat>, k: nat): set<nat> {
    {leader} + set i: nat | i < k && i in up
  }

  /** What the leader has done once it heard of `voters`. */
  ghost predicate Progressed(n: U32, leader: U32, log: seq<Command>, cmd: Command, voters: set<nat>, st: State,
                             outs: seq<Out>)
  {
    var slot := |log| % TWO32;
    if 2 * |voters| > n
    then
      && Shaped(Peer(leader, n, leader), st) && st.view.log == log + [cmd] && st.proposing == None
      && (n > 1 ==> outs == [Out(Peers, MPropose(slot, cmd)), Out(Peers, MCommit(slot, cmd))])
    else
      Tallying(Peer(leader, n, leader), st, log, cmd, voters) && outs == [Out(Peers, MPropose(slot, cmd))]
  }

  /** All nodes hold `log`, and the leader is idle. */
  ghost predicate Ready(n: U32, leader: U32, nodes: seq<State>, log: seq<Command>) {
    && Cluster(n, leader, nodes) && n < 0x8000_0000 && nodes[leader].proposing == None
    && forall i: nat :: i < n ==> nodes[i].view.log == log
  }

  lemma {:induction false} GatherProgress(n: U32, leader: U32, nodes: seq<State>, log: seq<Command>, cmd: Command,
                                          up: set<nat>, k: nat)
    requires Ready(n, leader, nodes, log) && k <= n
    ensures var (st, outs) := Gather(n, leader, nodes, cmd, up, k);
      Progressed(n, leader, log, cmd, Heard(leader, up, k), st, outs)
  {
    hide Submitted, Shaped, Reply, Progressed, HandledAll, Heard, Inbox;
    HeardMore(n, leader, up, k);
    if k == 0 {
      GatherStart(n, leader, nodes, log, cmd);
    } else {
      var i: nat := k - 1;
      GatherProgress(n, leader, nodes, log, cmd, up, i);
      if i in up && i != leader {
        FollowerReply(n, leader, nodes, log, cmd, i);
        GatherOne(n, leader, log, cmd, Heard(leader, up, i), Gather(n, leader, nodes, cmd, up, i), i);
      }
    }
  }

  lemma HeardMore(n: U32, leader: U32, up: set<nat>, k: nat)
    requires k <= n && leader < n
    ensures Heard(leader, up, k) <= Seats(n)
    ensures k == 0 ==> Heard(leader, up, k) == {leader}
    ensures k > 0 ==>
      Heard(leader, up, k) == Heard(leader, up, k - 1) + if k - 1 in up && k - 1 != leader then {k - 1} else {}
    ensures k > 0 ==> Heard(leader, up, k - 1) <= Seats(n)
  {
    hide Heard;
    HeardMembers(leader, up, k);
    HeardSeats(n, leader, up, k);
    if k > 0 {
      var before, added := Heard(leader, up, k - 1), if k - 1 in up && k - 1 != leader then {k - 1} else {};
      HeardMembers(leader, up, k - 1);
      HeardSeats(n, leader, up, k - 1);
      forall i: nat
        ensures i in Heard(leader, up, k) <==> i in before + added
      {
      }
    }
  }

  lemma HeardSeats(n: U32, leader: U32, up: set<nat>, k: nat)
    requires k <= n && leader < n
    ensures Heard(leader, up, k) <= Seats(n)
  {
  }

  lemma HeardMembers(leader: U32, up: set<nat>, k: nat)
    ensures forall i: nat :: i in Heard(leader, up, k) <==> i == leader || (i < k && i in up)
  {
  }

  lemma GatherStart(n: U32, leader: U32, nodes: seq<State>, log: seq<Command>, cmd: Command)
    requires Ready(n, leader, nodes, log)
    ensures var (st, outs) := Submitted(Peer(leader, n, leader), nodes[leader], cmd);
      Progressed(n, leader, log, cmd, {leader}, st, outs)
  {
    hide Submitted, Tallying, Shaped;
    var p := Peer(leader, n, leader);
    assert Shaped(p, nodes[leader]);
    SubmitAnswered(p, nodes[leader], cmd);
    assert |{leader}| == 1;
  }

  lemma {:induction false} FollowerReply(n: U32, leader: U32, nodes: seq<State>, log: seq<Command>, cmd: Command,
                                         i: U32)
    requires Ready(n, leader, nodes, log) && i < n && i != leader
    ensures var first := Submitted(Peer(leader, n, leader), nodes[leader], cmd).1;
      && first == [Out(Peers, MPropose(|log| % TWO32, cmd))]
      && Inbox(Reply(n, leader, nodes, first, i).1, i, leader) == [MVote(|log| % TWO32, i, cmd)]
  {
    hide Handled, Submitted, Tallying, Shaped;
    var p := Peer(leader, n, leader);
    assert Shaped(p, nodes[leader]) && Shaped(Peer(i, n, leader), nodes[i]);
    SubmitAnswered(p, nodes[leader], cmd);
    var propose := MPropose(|log| % TWO32, cmd);
    HandledExactly(Peer(i, n, leader), nodes[i], propose);
    var outs := [Out(Peers, propose)];
    assert outs[1..] == [] && Inbox(outs, leader, i) == [propose];
    HandledOne(Peer(i, n, leader), nodes[i], propose);
    var vote := MVote(|log| % TWO32, i, cmd);
    var answer := [Out(To(leader), vote)];
    assert answer[1..] == [] && Inbox(answer, i, leader) == [vote];
  }

  lemma HandledOne(p: Peer, st: State, msg: Msg)
    requires Shaped(p, st)
    ensures HandledAll(p, st, [msg]) == Handled(p, st, msg)
  {
    hide Handled;
    var (mid, sent) := Handled(p, st, msg);
    assert [msg][1..] == [] && HandledAll(p, mid, []) == (mid, []) && sent + [] == sent;
  }

  lemma {:induction false} GatherOne(n: U32, leader: U32, log: seq<Command>, cmd: Command, voters: set<nat>,
                                     r: (State, seq<Out>), i: U32)
    requires i < n < 0x8000_0000 && n > 1 && Shaped(Peer(leader, n, leader), r.0) && voters <= Seats(n)
    requires Progressed(n, leader, log, cmd, voters, r.0, r.1)
    ensures var (next, more) := HandledAll(Peer(leader, n, leader), r.0, [MVote(|log| % TWO32, i, cmd)]);
      Progressed(n, leader, log, cmd, voters + {i}, next, r.1 + more)
  {
    hide Handled, Tallying, Shaped;
    var p, vote := Peer(leader, n, leader), MVote(|log| % TWO32, i, cmd);
    HandledOne(p, r.0, vote);
    SubsetCard(voters, voters + {i});
    if 2 * |voters| > n {
      HandledExactly(p, r.0, vote);
      assert r.1 + [] == r.1;
    } else {
      TallyingFacts(p, r.0, log, cmd, voters);
      VoteAnswered(p, r.0, log, cmd, voters, i);
    }
  }

  lemma TallyingFacts(p: Peer, st: State, log: seq<Command>, cmd: Command, voters: set<nat>)
    requires Tallying(p, st, log, cmd, voters)
    ensures st.view.log == log && Shaped(p, st) && st.proposing == Some(cmd)
  {
  }

  /** A round decides exactly when the leader and the responding followers are a majority. Then
      they all have the command appended and applied; otherwise no log changes and the command
      stays in flight. The followers that were not reached are as they were. */
  lemma {:induction false} RoundExactly(n: U32, leader: U32, nodes: seq<State>, log: seq<Command>, cmd: Command,
                                        up: set<nat>, i: U32)
    requires Ready(n, leader, nodes, log) && i < n
    ensures var voters := Heard(leader, up, n);
      var node := AfterRound(n, leader, nodes, cmd, up, i);
      && (i in voters && 2 * |voters| > n ==>
            node.view.log == log + [cmd] && node.view.replicas[0].applied == |log| + 1)
      && (i in voters && 2 * |voters| <= n ==> node.view.log == log)
      && (i == leader ==> node.proposing == if 2 * |voters| > n then None else Some(cmd))
      && (i !in voters ==> node == nodes[i])
  {
    hide Gather, Tallying, Handled;
    GatherProgress(n, leader, nodes, log, cmd, up, n);
    var (st, outs) := Gather(n, leader, nodes, cmd, up, n);
    var voters := Heard(leader, up, n);
    if i == leader {
      if 2 * |voters| <= n { TallyingFacts(Peer(leader, n, leader), st, log, cmd, voters); }
    } else if i in up {
      Notified(n, leader, nodes[i], log, cmd, outs, i, 2 * |voters| > n);
    }
  }

  /** A follower after the proposal and, if it was decided, the commit. */
  lemma {:induction false} Notified(n: U32, leader: U32, st: State, log: seq<Command>, cmd: Command, outs: seq<Out>,
                                    i: U32, decided: bool)
    requires Shaped(Peer(i, n, leader), st) && i != leader && st.view.log == log
    requires outs == [Out(Peers, MPropose(|log| % TWO32, cmd))]
      + if decided then [Out(Peers, MCommit(|log| % TWO32, cmd))] else []
    ensures var next := HandledAll(Peer(i, n, leader), st, Inbox(outs, leader, i)).0;
      if decided then next.view.log == log + [cmd] &&
        next.view.replicas[0].applied == |log| + 1 else next.view.log == log
  {
    hide Handled, Shaped;
    var p, propose, commit := Peer(i, n, leader), MPropose(|log| % TWO32, cmd), MCommit(|log| % TWO32, cmd);
    HandledExactly(p, st, propose);
    HandledExactly(p, st, commit);
    HandledOne(p, st, commit);
    if decided {
      assert outs[1..] == [Out(Peers, commit)] && outs[1..][1..] == [];
      assert Inbox(outs[1..], leader, i) == [commit];
      assert Inbox(outs, leader, i) == [propose, commit] && [propose, commit][1..] == [commit];
    } else {
      assert outs[1..] == [] && Inbox(outs, leader, i) == [propose];
      HandledOne(p, st, propose);
    }
  }
}
