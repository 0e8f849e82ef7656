/** A cluster of crash-protocol nodes over a network that loses, duplicates and reorders
    messages. */
module CrashCluster {
  import opened Syntax
  import opened Rsm
  import opened Consensus
  import opened CrashNode

  datatype Setup = Setup(n: U32, leader: U32, init: Term, budget: FailureBudget) {
    function PeerOf(i: U32): Peer { Peer(i, n, leader) }
  }

  datatype Config = Config(nodes: seq<State>, net: set<Msg>)

  datatype Move = Request(id: U32, cmd: Command) | Receive(id: U32, msg: Msg)

  ghost function Start(su: Setup): Config {
    Config(seq(su.n, i requires 0 <= i < su.n => Initial(su.PeerOf(i), su.init, su.budget)), {})
  }

  ghost predicate ShapedAll(su: Setup, c: Config) {
    |c.nodes| == su.n && forall i :: 0 <= i < su.n ==> Shaped(su.PeerOf(i), c.nodes[i])
  }

  ghost function Sent(outs: seq<Out>): set<Msg> {
    set i | 0 <= i < |outs| :: outs[i].msg
  }

  ghost function After(su: Setup, c: Config, i: U32, r: (State, seq<Out>)): (d: Config)
    requires ShapedAll(su, c) && i < su.n && Shaped(su.PeerOf(i), r.0)
    ensures ShapedAll(su, d)
  {
    Config(c.nodes[i := r.0], c.net + Sent(r.1))
  }

  /** One move. Any message ever sent may reach any node, any number of times or never. */
  ghost function Next(su: Setup, c: Config, m: Move): (d: Config)
    requires ShapedAll(su, c)
    ensures ShapedAll(su, d)
  {
    match m
    case Request(i, cmd) => if i < su.n then After(su, c, i, Submitted(su.PeerOf(i), c.nodes[i], cmd)) else c
    case Receive(i, msg) =>
      if i < su.n && msg in c.net then After(su, c, i, Handled(su.PeerOf(i), c.nodes[i], msg)) else c
  }

  ghost function Run(su: Setup, moves: seq<Move>): (c: Config)
    ensures ShapedAll(su, c)
  {
    if moves == [] then Start(su) else Next(su, Run(su, moves[..|moves| - 1]), moves[|moves| - 1])
  }

  // ---------------------------------------------------------------------------
  // The invariant
  // ---------------------------------------------------------------------------

  /** The one command ever proposed for `slot`: the decided one, or the one in flight. */
  ghost predicate Proposable(lead: State, slot: nat, cmd: Command) {
    || (slot < |lead.view.log| && lead.view.log[slot] == cmd)
    || (slot == |lead.view.log| && lead.proposing == Some(cmd))
  }

  ghost predicate MsgFits(lead: State, m: Msg) {
    match m
    case MPropose(slot, cmd) => Proposable(lead, slot, cmd)
    case MVote(slot, _, cmd) => Proposable(lead, slot, cmd)
    case MCommit(slot, cmd) => slot < |lead.view.log| && lead.view.log[slot] == cmd
  }

  /** Seat `i` voted for `cmd` at `slot`: its vote was sent, or it is the leader, who counts
      its own. */
  ghost predicate SeatVoted(su: Setup, net: set<Msg>, slot: U32, i: nat, cmd: Command) {
    i == su.leader || (i < su.n && MVote(slot, i, cmd) in net)
  }

  /** The ballot holds only votes for the command in flight. */
  ghost predicate BallotFits(su: Setup, lead: State, net: set<Msg>, slot: U32) {
    forall i :: 0 <= i < |lead.ballot| && lead.ballot[i].Some? ==>
      lead.proposing == lead.ballot[i] && SeatVoted(su, net, slot, i, lead.ballot[i].value)
  }

  /** Seats of some majority voted for `cmd` at `slot`. */
  ghost predicate Elected(su: Setup, net: set<Msg>, slot: U32, cmd: Command) {
    exists q :: Majority(su, net, slot, cmd, q)
  }

  ghost predicate Majority(su: Setup, net: set<Msg>, slot: U32, cmd: Command, q: set<nat>) {
    q <= Seats(su.n) && 2 * |q| > su.n && forall i :: i in q ==> SeatVoted(su, net, slot, i, cmd)
  }

  ghost predicate LogElected(su: Setup, net: set<Msg>, log: seq<Command>) {
    |log| <= TWO32 && forall k :: 0 <= k < |log| ==> Elected(su, net, k, log[k])
  }

  ghost predicate Inv(su: Setup, c: Config)
    requires ShapedAll(su, c) && su.leader < su.n
  {
    var lead := c.nodes[su.leader];
    && |lead.view.log| < TWO32
    && (forall i :: 0 <= i < su.n ==> OnLog(c.nodes[i].view, su.init, lead.view.log))
    && (forall m :: m in c.net ==> MsgFits(lead, m))
    && BallotFits(su, lead, c.net, |lead.view.log|)
    && LogElected(su, c.net, lead.view.log)
  }

  // ---------------------------------------------------------------------------
  // One move
  // ---------------------------------------------------------------------------

  lemma ElectedMore(su: Setup, net: set<Msg>, more: set<Msg>, slot: U32, cmd: Command)
    requires Elected(su, net, slot, cmd) && net <= more
    ensures Elected(su, more, slot, cmd)
  {
    var q :| Majority(su, net, slot, cmd, q);
    assert Majority(su, more, slot, cmd, q);
  }

  lemma LogElectedMore(su: Setup, net: set<Msg>, more: set<Msg>, log: seq<Command>)
    requires LogElected(su, net, log) && net <= more
    ensures LogElected(su, more, log)
  {
    hide Elected;
    forall k | 0 <= k < |log|
      ensures Elected(su, more, k, log[k])
    {
      ElectedMore(su, net, more, k, log[k]);
    }
  }

  /** A ballot decided for a command names a majority that voted for it. */
  lemma {:induction false} DecidedElects(su: Setup, lead: State, net: set<Msg>, slot: U32, cmd: Command)
    requires |lead.ballot| == su.n && BallotFits(su, lead, net, slot)
    requires IsQuorum(|Voters(lead.ballot, cmd)| % TWO32, |lead.ballot| % TWO32)
    ensures Elected(su, net, slot, cmd) && lead.proposing == Some(cmd)
  {
    hide IsQuorum;
    var q := Voters(lead.ballot, cmd);
    Tally(lead.ballot, cmd);
    assert q != {};
    var w :| w in q;
    assert Majority(su, net, slot, cmd, q);
  }

  /** A node's view unchanged, and only fitting messages sent. */
  lemma {:induction false} InvQuiet(su: Setup, c: Config, i: U32, next: State, outs: seq<Out>)
    requires ShapedAll(su, c) && su.leader < su.n && Inv(su, c) && i < su.n && Shaped(su.PeerOf(i), next)
    requires next.view == c.nodes[i].view
    requires i != su.leader || c.nodes[i].proposing.None? || next.proposing == c.nodes[i].proposing
    requires var lead := if i == su.leader then next else c.nodes[su.leader];
      && BallotFits(su, lead, c.net + Sent(outs), |lead.view.log|)
      && forall m :: m in Sent(outs) ==> MsgFits(lead, m)
    ensures Inv(su, After(su, c, i, (next, outs)))
  {
    hide Elected, Consistent, BallotFits, LogElected;
    var d := After(su, c, i, (next, outs));
    var lead := d.nodes[su.leader];
    LogElectedMore(su, c.net, d.net, lead.view.log);
    forall m | m in d.net
      ensures MsgFits(lead, m)
    {
      if m in c.net { assert MsgFits(c.nodes[su.leader], m); }
    }
  }

  lemma MsgFitsMore(lead: State, next: State, m: Msg, cmd: Command)
    requires MsgFits(lead, m) && (lead.proposing == Some(cmd) || lead.proposing == None)
    requires next.view.log == lead.view.log + [cmd]
    ensures MsgFits(next, m)
  {
  }

  lemma SentNext(c: set<Msg>, first: seq<Out>, last: Out)
    ensures c + Sent(first + [last]) == c + Sent(first) + {last.msg}
  {
    var all := first + [last];
    forall m | m in Sent(first)
      ensures m in Sent(all)
    {
      var i :| 0 <= i < |first| && first[i].msg == m;
      assert all[i].msg == m;
    }
    assert all[|first|].msg == last.msg;
    forall m | m in Sent(all)
      ensures m in Sent(first) + {last.msg}
    {
      var i :| 0 <= i < |all| && all[i].msg == m;
      assert i < |first| ==> first[i].msg == m;
    }
  }

  /** The leader's tally, after it took a vote or made a proposal: from an invariant state, a
      decision extends the log and keeps the invariant. */
  lemma {:induction false} InvTallied(su: Setup, c: Config, cmd: Command)
    requires ShapedAll(su, c) && su.leader < su.n && Inv(su, c) && |c.nodes[su.leader].view.log| + 1 < TWO32
    requires var lead := c.nodes[su.leader];
      IsQuorum(|Voters(lead.ballot, cmd)| % TWO32, |lead.ballot| % TWO32)
    ensures Inv(su, After(su, c, su.leader, Tallied(su.PeerOf(su.leader), c.nodes[su.leader],
        c.nodes[su.leader].NextSlot(), cmd)))
  {
    hide Elected, Consistent, BallotFits, LogElected, IsQuorum, CommitView, OnLog, MsgFits;
    var lead := c.nodes[su.leader];
    var log, slot := lead.view.log, lead.NextSlot();
    SmallMod(|log|);
    DecidedElects(su, lead, c.net, slot, cmd);
    var r := Tallied(su.PeerOf(su.leader), lead, slot, cmd);
    var d := After(su, c, su.leader, r);
    var next := r.0;
    CommitGrows(lead.view, cmd);
    assert r.1 == [] + [Out(Peers, MCommit(slot, cmd))];
    SentNext(c.net, [], Out(Peers, MCommit(slot, cmd)));
    assert d.net == c.net + {MCommit(slot, cmd)};
    forall i | 0 <= i < su.n
      ensures OnLog(d.nodes[i].view, su.init, next.view.log)
    {
      OnLogMore(c.nodes[i].view, su.init, log, next.view.log);
      if i == su.leader { CommitOnLog(lead.view, su.init, next.view.log, cmd); }
    }
    forall m | m in d.net
      ensures MsgFits(next, m)
    {
      if m in c.net { MsgFitsMore(lead, next, m, cmd); } else { CommitFits(next, slot, cmd); }
    }
    LogElectedMore(su, c.net, d.net, log);
    ElectedMore(su, c.net, d.net, slot, cmd);
    LogElectedOne(su, d.net, log, cmd);
    EmptyFits(su, next, d.net, |next.view.log|);
  }

  lemma CommitFits(lead: State, slot: U32, cmd: Command)
    requires slot < |lead.view.log| && lead.view.log[slot] == cmd
    ensures MsgFits(lead, MCommit(slot, cmd))
  {
  }

  lemma LogElectedOne(su: Setup, net: set<Msg>, log: seq<Command>, cmd: Command)
    requires |log| < TWO32 && LogElected(su, net, log) && Elected(su, net, |log|, cmd)
    ensures LogElected(su, net, log + [cmd])
  {
    hide Elected;
  }

  lemma EmptyFits(su: Setup, lead: State, net: set<Msg>, slot: U32)
    requires lead.ballot == EmptyBallot(su.PeerOf(su.leader))
    ensures BallotFits(su, lead, net, slot)
  {
  }

  /** The configuration right after the leader put its proposal, or a vote, on its ballot and
      before it tallied. */
  lemma {:induction false} InvProposed(su: Setup, c: Config, cmd: Command)
    requires ShapedAll(su, c) && su.leader < su.n && Inv(su, c) && c.nodes[su.leader].proposing.None?
    ensures var p, lead := su.PeerOf(su.leader), c.nodes[su.leader];
      var mid := State(lead.view, EmptyBallot(p)[su.leader := Some(cmd)], Some(cmd));
      Inv(su, After(su, c, su.leader, (mid, [Out(Peers, MPropose(lead.NextSlot(), cmd))])))
  {
    hide Elected, Consistent, LogElected, OnLog;
    var p, lead := su.PeerOf(su.leader), c.nodes[su.leader];
    var mid := State(lead.view, EmptyBallot(p)[su.leader := Some(cmd)], Some(cmd));
    SmallMod(|lead.view.log|);
    InvQuiet(su, c, su.leader, mid, [Out(Peers, MPropose(lead.NextSlot(), cmd))]);
  }

  lemma {:induction false} InvVoted(su: Setup, c: Config, from: U32, cmd: Command)
    requires ShapedAll(su, c) && su.leader < su.n && Inv(su, c)
    requires MVote(c.nodes[su.leader].NextSlot(), from, cmd) in c.net
    ensures var lead := c.nodes[su.leader];
      from < su.n ==> Inv(su, After(su, c, su.leader, (lead.(ballot := lead.ballot[from := Some(cmd)]), [])))
  {
    hide Elected, Consistent, LogElected, OnLog;
    var lead := c.nodes[su.leader];
    SmallMod(|lead.view.log|);
    assert MsgFits(lead, MVote(lead.NextSlot(), from, cmd));
    if from < su.n { InvQuiet(su, c, su.leader, lead.(ballot := lead.ballot[from := Some(cmd)]), []); }
  }

  lemma {:induction false} InvRequest(su: Setup, c: Config, i: U32, cmd: Command)
    requires ShapedAll(su, c) && su.leader < su.n && Inv(su, c) && i < su.n
    requires |Next(su, c, Request(i, cmd)).nodes[su.leader].view.log| < TWO32
    ensures Inv(su, Next(su, c, Request(i, cmd)))
  {
    hide Inv, IsQuorum, CommitView, Shaped;
    var p, st := su.PeerOf(i), c.nodes[i];
    if !p.IsLeader() || st.proposing.Some? {
      Unmoved(su, c, i);
    } else {
      var slot := st.NextSlot();
      var mid := State(st.view, EmptyBallot(p)[i := Some(cmd)], Some(cmd));
      ShapedMid(p, st, mid);
      var proposed := [Out(Peers, MPropose(slot, cmd))];
      InvProposed(su, c, cmd);
      var h := After(su, c, i, (mid, proposed));
      var r := Tallied(p, mid, slot, cmd);
      if r.1 != [] {
        CommitGrows(st.view, cmd);
        InvTallied(su, h, cmd);
        SentNext(c.net, proposed, r.1[0]);
        SentNext(h.net, [], r.1[0]);
        assert [] + [r.1[0]] == r.1;
        assert Next(su, c, Request(i, cmd)) == After(su, h, i, r);
      } else {
        assert proposed + [] == proposed;
      }
    }
  }

  lemma ShapedMid(p: Peer, st: State, mid: State)
    requires Shaped(p, st) && mid.view == st.view && |mid.ballot| == p.cluster
    ensures Shaped(p, mid)
  {
  }

  lemma Unmoved(su: Setup, c: Config, i: U32)
    requires ShapedAll(su, c) && i < su.n
    ensures After(su, c, i, (c.nodes[i], [])) == c
  {
  }

  lemma {:induction false} InvReceive(su: Setup, c: Config, i: U32, msg: Msg)
    requires ShapedAll(su, c) && su.leader < su.n && Inv(su, c) && i < su.n && msg in c.net
    requires |Next(su, c, Receive(i, msg)).nodes[su.leader].view.log| < TWO32
    ensures Inv(su, Next(su, c, Receive(i, msg)))
  {
    hide Inv, IsQuorum, CommitView, Shaped;
    var p, st := su.PeerOf(i), c.nodes[i];
    Unmoved(su, c, i);
    match msg {
      case MPropose(slot, cmd) => if slot == st.NextSlot() { InvVotes(su, c, i, slot, cmd); }
      case MCommit(slot, cmd) => if slot == st.NextSlot() { InvCommitted(su, c, i, slot, cmd); }
      case MVote(slot, from, cmd) =>
        if p.IsLeader() && slot == st.NextSlot() {
          var mid := if from < |st.ballot| then st.(ballot := st.ballot[from := Some(cmd)]) else st;
          BallotSize(p, st);
          ShapedMid(p, st, mid);
          InvVoted(su, c, from, cmd);
          var h := After(su, c, i, (mid, []));
          var r := Tallied(p, mid, slot, cmd);
          assert h.net == c.net;
          if r.1 != [] {
            CommitGrows(st.view, cmd);
            InvTallied(su, h, cmd);
            assert After(su, h, i, r) == After(su, c, i, r);
          }
        }
    }
  }

  lemma BallotSize(p: Peer, st: State)
    requires Shaped(p, st)
    ensures |st.ballot| == p.cluster
  {
  }

  /** A node votes for what it is proposed. */
  lemma {:induction false} InvVotes(su: Setup, c: Config, i: U32, slot: U32, cmd: Command)
    requires ShapedAll(su, c) && su.leader < su.n && Inv(su, c) && i < su.n
    requires MPropose(slot, cmd) in c.net
    ensures Inv(su, After(su, c, i, (c.nodes[i], [Out(To(su.leader), MVote(slot, i, cmd))])))
  {
    hide Elected, Consistent, LogElected, OnLog;
    assert MsgFits(c.nodes[su.leader], MPropose(slot, cmd));
    InvQuiet(su, c, i, c.nodes[i], [Out(To(su.leader), MVote(slot, i, cmd))]);
  }

  /** A node appends a decided command: never the leader, whose log is ahead of every commit. */
  lemma {:induction false} InvCommitted(su: Setup, c: Config, i: U32, slot: U32, cmd: Command)
    requires ShapedAll(su, c) && su.leader < su.n && Inv(su, c) && i < su.n
    requires MCommit(slot, cmd) in c.net && slot == c.nodes[i].NextSlot()
    ensures Inv(su, After(su, c, i, (c.nodes[i].(view := CommitView(c.nodes[i].view, cmd)), [])))
  {
    hide Elected, Consistent, LogElected, BallotFits;
    var st, lead := c.nodes[i], c.nodes[su.leader];
    assert MsgFits(lead, MCommit(slot, cmd)) && OnLog(st.view, su.init, lead.view.log);
    SmallMod(|st.view.log|);
    assert i != su.leader;
    var next := st.(view := CommitView(st.view, cmd));
    CommitOnLog(st.view, su.init, lead.view.log, cmd);
    var d := After(su, c, i, (next, []));
    assert d.net == c.net;
  }

  lemma {:induction false} LeaderLogGrows(su: Setup, c: Config, m: Move)
    requires ShapedAll(su, c) && su.leader < su.n
    ensures c.nodes[su.leader].view.log <= Next(su, c, m).nodes[su.leader].view.log
  {
    hide IsQuorum;
  }

  lemma {:induction false} RunInv(su: Setup, moves: seq<Move>)
    requires su.leader < su.n && |Run(su, moves).nodes[su.leader].view.log| < TWO32
    ensures Inv(su, Run(su, moves))
  {
    hide Inv, Next, ShapedAll;
    if moves == [] {
      InvStart(su);
    } else {
      var n := |moves| - 1;
      LeaderLogGrows(su, Run(su, moves[..n]), moves[n]);
      RunInv(su, moves[..n]);
      InvNext(su, Run(su, moves[..n]), moves[n]);
    }
  }

  lemma InvNext(su: Setup, c: Config, m: Move)
    requires ShapedAll(su, c) && su.leader < su.n && Inv(su, c)
    requires |Next(su, c, m).nodes[su.leader].view.log| < TWO32
    ensures Inv(su, Next(su, c, m))
  {
    hide Inv, After, Submitted, Handled;
    match m
    case Request(i, cmd) => if i < su.n { InvRequest(su, c, i, cmd); }
    case Receive(i, msg) => if i < su.n && msg in c.net { InvReceive(su, c, i, msg); }
  }

  lemma InvStart(su: Setup)
    requires su.leader < su.n
    ensures Inv(su, Start(su))
  {
    EmptyFits(su, Start(su).nodes[su.leader], {}, 0);
  }

  // ---------------------------------------------------------------------------
  // Safety
  // ---------------------------------------------------------------------------

  /** At every point of every run: every proposal, vote and commit ever sent for a slot is for
      the one command the leader has decided, or has in flight, there; so no two proposals
      for a slot differ. Every node's log is a prefix of the leader's and wholly applied, and every
      command in it was voted for, at its slot, by a majority of the seats. */
  lemma {:induction false} CrashSafety(su: Setup, moves: seq<Move>, i: U32, k: U32)
    requires su.leader < su.n && i < su.n && |Run(su, moves).nodes[su.leader].view.log| < TWO32
    ensures var c := Run(su, moves);
      var view, lead := c.nodes[i].view, c.nodes[su.leader];
      && (forall m :: m in c.net ==> MsgFits(lead, m))
      && (forall c1, c2 :: MPropose(k, c1) in c.net && MPropose(k, c2) in c.net ==> c1 == c2)
      && view.log <= lead.view.log
      && view.replicas[0].applied == |view.log| && view.replicas[0].store == Applied(su.init, view.log)
      && (k < |view.log| ==> Elected(su, c.net, k, view.log[k]))
  {
    hide Run, Shaped, Elected, BallotFits, Consistent;
    RunInv(su, moves);
    var c := Run(su, moves);
    var lead := c.nodes[su.leader];
    assert OnLog(c.nodes[i].view, su.init, lead.view.log);
    StoreOf(c.nodes[i].view, su.init);
    forall c1, c2 | MPropose(k, c1) in c.net && MPropose(k, c2) in c.net
      ensures c1 == c2
    {
      assert MsgFits(lead, MPropose(k, c1)) && MsgFits(lead, MPropose(k, c2));
    }
  }
}
