/** A committee of authenticated nodes with a static leader, over a network that loses,
    duplicates and reorders messages, and into which proposals and votes are injected. */
module Cluster {
  import opened Syntax
  import opened Rsm
  import opened Consensus
  import opened Proto
  import opened Auth
  import opened AuthSafety
  import Agreement
  import Credentials

  datatype Setup = Setup(s: Scheme, roster: Roster, seeds: seq<Bytes32>, leader: U32, init: Term,
      budget: FailureBudget) {
    function SeatOf(i: U32): Seat
      requires i < |seeds|
    {
      Seat(seeds[i], roster, i, leader)
    }

    /** Every seat's node accepts its seed, and the leader is one of them. */
    ghost predicate Formed() {
      && GoodRoster(roster) && |seeds| == |roster.members| && leader < |seeds|
      && forall i :: 0 <= i < |seeds| ==> roster.members[i] == s.publicKey(seeds[i])
    }
  }

  /** The nodes, every message ever put on the network, and every client request. */
  datatype Config = Config(nodes: seq<State>, net: set<Msg>, requests: set<(WireCommand, Capability)>)

  /** A message stays on the network: receiving it later or again, or never, is a matter of
      which moves are made. */
  datatype Move =
    | Request(seat: U32, cmd: WireCommand, cap: Capability)
    | Receive(seat: U32, msg: Msg)
    | Inject(msg: Msg)

  ghost function Start(su: Setup): Config
    requires su.Formed()
  {
    Config(seq(|su.seeds|, i requires 0 <= i < |su.seeds| => Initial(su.SeatOf(i), su.init, su.budget)), {}, {})
  }

  ghost predicate ShapedAll(su: Setup, c: Config) {
    |c.nodes| == |su.seeds| < TWO32 && forall i :: 0 <= i < |c.nodes| ==> Shaped(su.SeatOf(i), c.nodes[i])
  }

  ghost function Sent(outs: seq<Out>): set<Msg> {
    set i | 0 <= i < |outs| :: outs[i].msg
  }

  ghost function After(su: Setup, c: Config, i: U32, e: Event): (d: Config)
    requires ShapedAll(su, c) && i < |c.nodes|
    ensures ShapedAll(su, d)
  {
    var (next, outs) := StepNode(su.s, su.SeatOf(i), c.nodes[i], e);
    Config(c.nodes[i := next], c.net + Sent(outs), c.requests + if e.ESubmit? then {(e.cmd, e.cap)} else {})
  }

  /** One move; a move that is not possible changes nothing. */
  ghost function Next(su: Setup, c: Config, m: Move): (d: Config)
    requires ShapedAll(su, c)
    ensures ShapedAll(su, d)
  {
    match m
    case Request(i, cmd, cap) => if i < |c.nodes| then After(su, c, i, ESubmit(cmd, cap)) else c
    case Receive(i, msg) => if i < |c.nodes| && msg in c.net then After(su, c, i, EDeliver(msg)) else c
    case Inject(msg) => if msg.MCommit? then c else c.(net := c.net + {msg})
  }

  ghost function Run(su: Setup, moves: seq<Move>): (c: Config)
    requires su.Formed()
    ensures ShapedAll(su, c)
  {
    if moves == [] then Start(su) else Next(su, Run(su, moves[..|moves| - 1]), moves[|moves| - 1])
  }

  // ---------------------------------------------------------------------------
  // The invariant
  // ---------------------------------------------------------------------------

  /** A client asked for `cmd` with a capability that verifies. */
  ghost predicate Authorized(s: Scheme, requests: set<(WireCommand, Capability)>, cmd: Command) {
    exists r :: r in requests && r.0 == cmd && VerifyCapability(s, r.1, r.0)
  }

  /** `cmd` was decided for `slot`: a certificate for it was broadcast. */
  ghost predicate Decreed(s: Scheme, roster: Roster, net: set<Msg>, slot: nat, cmd: Command) {
    exists c :: MCommit(c) in net && c.slot == slot && c.cmd == cmd && QcValid(s, c.votes, c.slot, c.cmd, roster)
  }

  /** The leader: its proposal in flight is sound, and was asked for. */
  ghost predicate Leading(su: Setup, st: State, requests: set<(WireCommand, Capability)>)
    requires su.leader < |su.seeds|
  {
    && InFlight(su.s, su.SeatOf(su.leader), st, st.NextSlot())
    && (st.proposing.Some? ==> Authorized(su.s, requests, st.proposing.value.0))
  }

  ghost predicate CommitsMatch(net: set<Msg>, log: seq<Command>) {
    forall c :: MCommit(c) in net ==> c.slot < |log| && log[c.slot] == c.cmd
  }

  ghost predicate LogFounded(su: Setup, net: set<Msg>, requests: set<(WireCommand, Capability)>, log: seq<Command>) {
    forall k :: 0 <= k < |log| ==> Decreed(su.s, su.roster, net, k, log[k]) && Authorized(su.s, requests, log[k])
  }

  ghost function LeaderLog(su: Setup, c: Config): seq<Command>
    requires su.Formed() && ShapedAll(su, c)
  {
    c.nodes[su.leader].view.log
  }

  ghost predicate Inv(su: Setup, c: Config)
    requires su.Formed() && ShapedAll(su, c)
  {
    var log := LeaderLog(su, c);
    && Leading(su, c.nodes[su.leader], c.requests)
    && (forall i :: 0 <= i < |c.nodes| ==> OnLog(c.nodes[i].view, su.init, log))
    && CommitsMatch(c.net, log)
    && LogFounded(su, c.net, c.requests, log)
  }

  // ---------------------------------------------------------------------------
  // One move
  // ---------------------------------------------------------------------------

  ghost predicate NoCommitIn(outs: seq<Out>) {
    forall i :: 0 <= i < |outs| ==> !outs[i].msg.MCommit?
  }

  /** The leader's step decides nothing, or it decides one command for its next slot. */
  ghost predicate DecidesAtMost(s: Scheme, roster: Roster, st: State, next: State, outs: seq<Out>, cmd: Command) {
    || (NoCommitIn(outs) && next.view == st.view)
    || (exists c ::
          && (forall m :: m in Sent(outs) && m.MCommit? ==> m == MCommit(c)) && MCommit(c) in Sent(outs)
          && c.slot == st.NextSlot() && c.cmd == cmd && QcValid(s, c.votes, c.slot, c.cmd, roster)
          && next.view == CommitView(st.view, cmd) && next.proposing.None?)
  }

  lemma {:induction false} RecordedDecides(s: Scheme, seat: Seat, st: State, v: Vote)
    requires Shaped(seat, st) && GoodRoster(seat.roster) && InFlight(s, seat, st, st.NextSlot()) && st.proposing.Some?
    ensures var (next, outs) := Recorded(s, seat, st, st.NextSlot(), v);
      && DecidesAtMost(s, seat.roster, st, next, outs, st.proposing.value.0)
      && InFlight(s, seat, next, next.NextSlot())
      && (next.proposing.Some? ==> next.proposing.value.0 == st.proposing.value.0)
  {
    hide VerifyVote, DecidedBy, QcValid, CommitView, InFlight;
    RecordedSafe(s, seat, st, v);
    var outs := Recorded(s, seat, st, st.NextSlot(), v).1;
    if outs != [] { assert Sent(outs) == {outs[0].msg}; }
  }

  lemma {:induction false} SubmittedDecides(s: Scheme, seat: Seat, st: State, cmd: WireCommand, cap: Capability)
    requires Shaped(seat, st) && GoodRoster(seat.roster)
    requires seat.IsLeader() && st.proposing.None? && VerifyCapability(s, cap, cmd)
    ensures var (next, outs) := Submitted(s, seat, st, cmd, cap);
      && DecidesAtMost(s, seat.roster, st, next, outs, cmd)
      && InFlight(s, seat, next, next.NextSlot())
      && (next.proposing.Some? ==> next.proposing.value.0 == cmd)
  {
    hide VerifyVote, QcValid, CommitView, InFlight, Recorded, VerifyCapability, CastVote, Propose;
    var slot := st.NextSlot();
    var mid := State(st.view, EmptyBallot(seat.roster), Some((cmd, [])));
    FreshInFlight(s, seat, mid, slot);
    var own := CastVote(s, seat.seed, slot, cmd);
    RecordedDecides(s, seat, mid, own);
    var first := Out(Peers, MPropose(Propose(s, seat.seed, slot, cmd, cap)));
    SentAfter(first, Recorded(s, seat, mid, slot, own).1);
  }

  lemma SentAfter(first: Out, outs: seq<Out>)
    ensures Sent([first] + outs) == {first.msg} + Sent(outs)
  {
    var all := [first] + outs;
    forall m | m in Sent(all)
      ensures m in {first.msg} + Sent(outs)
    {
      var i :| 0 <= i < |all| && all[i].msg == m;
      assert i > 0 ==> outs[i - 1].msg == m;
    }
    forall m | m in {first.msg} + Sent(outs)
      ensures m in Sent(all)
    {
      if m == first.msg {
        assert all[0].msg == m;
      } else {
        var i :| 0 <= i < |outs| && outs[i].msg == m;
        assert all[i + 1].msg == m;
      }
    }
  }

  /** Anything a node handles short of accepting a commit or, at the leader, a vote leaves it
      as it is and decides nothing. */
  lemma {:induction false} OtherwiseQuiet(s: Scheme, seat: Seat, st: State, e: Event)
    requires Shaped(seat, st)
    requires match e
      case ESubmit(cmd, cap) => !seat.IsLeader() || st.proposing.Some? || !VerifyCapability(s, cap, cmd)
      case EDeliver(MVote(_)) => !seat.IsLeader() || st.proposing.None?
      case EDeliver(MCommit(c)) => c.slot != st.NextSlot() || !QcValid(s, c.votes, c.slot, c.cmd, seat.roster)
      case EDeliver(MPropose(_)) => true
    ensures var (next, outs) := StepNode(s, seat, st, e); next == st && NoCommitIn(outs)
  {
    hide VerifyVote, QcValid, VerifyProposal, VerifyCapability;
  }

  // ---------------------------------------------------------------------------
  // What keeps the invariant
  // ---------------------------------------------------------------------------

  lemma FoundedMore(su: Setup, net: set<Msg>, moreNet: set<Msg>,
      requests: set<(WireCommand, Capability)>, moreRequests: set<(WireCommand, Capability)>, log: seq<Command>)
    requires LogFounded(su, net, requests, log) && net <= moreNet && requests <= moreRequests
    ensures LogFounded(su, moreNet, moreRequests, log)
  {
  }

  /** Nothing is decided and no node moves: only the network and the requests grow. */
  lemma InvQuiet(su: Setup, c: Config, d: Config)
    requires su.Formed() && ShapedAll(su, c) && Inv(su, c)
    requires d.nodes == c.nodes && c.net <= d.net && c.requests <= d.requests
    requires forall m :: m in d.net && m.MCommit? ==> m in c.net
    ensures Inv(su, d)
  {
  }

  /** The leader moves and decides at most `cmd`. */
  lemma {:induction false} InvLeader(su: Setup, c: Config, d: Config, next: State, outs: seq<Out>, cmd: Command)
    requires su.Formed() && ShapedAll(su, c) && Inv(su, c) && |LeaderLog(su, c)| < TWO32
    requires d.nodes == c.nodes[su.leader := next] && d.net == c.net + Sent(outs) && c.requests <= d.requests
    requires ShapedAll(su, d)
    requires DecidesAtMost(su.s, su.roster, c.nodes[su.leader], next, outs, cmd)
    requires Authorized(su.s, d.requests, cmd) && Leading(su, next, d.requests)
    ensures Inv(su, d)
  {
    hide OnLog, InFlight, Authorized, QcValid, CommitView, LogFounded, GoodRoster, Leading;
    var st := c.nodes[su.leader];
    var log := st.view.log;
    FoundedMore(su, c.net, d.net, c.requests, d.requests, log);
    if NoCommitIn(outs) && next.view == st.view {
    } else {
      var w :| (forall m :: m in Sent(outs) && m.MCommit? ==> m == MCommit(w)) && MCommit(w) in Sent(outs)
        && w.slot == st.NextSlot() && w.cmd == cmd && QcValid(su.s, w.votes, w.slot, w.cmd, su.roster)
        && next.view == CommitView(st.view, cmd) && next.proposing.None?;
      SmallMod(|log|);
      CommitGrows(st.view, cmd);
      CommitOnLog(st.view, su.init, log + [cmd], cmd);
      FoundedOne(su, d.net, d.requests, log, w);
      forall i | 0 <= i < |c.nodes|
        ensures OnLog(c.nodes[i].view, su.init, log + [cmd])
      {
        OnLogMore(c.nodes[i].view, su.init, log, log + [cmd]);
      }
    }
  }

  lemma {:induction false} FoundedOne(su: Setup, net: set<Msg>, requests: set<(WireCommand, Capability)>,
      log: seq<Command>, w: Commitment)
    requires LogFounded(su, net, requests, log) && MCommit(w) in net && w.slot == |log|
    requires QcValid(su.s, w.votes, w.slot, w.cmd, su.roster) && Authorized(su.s, requests, w.cmd)
    ensures LogFounded(su, net, requests, log + [w.cmd])
  {
    hide QcValid, Authorized;
  }

  /** A node other than the leader accepts a commit. */
  lemma {:induction false} InvFollower(su: Setup, c: Config, i: U32, w: Commitment)
    requires su.Formed() && ShapedAll(su, c) && Inv(su, c) && |LeaderLog(su, c)| < TWO32
    requires i < |c.nodes| && MCommit(w) in c.net
    ensures Inv(su, After(su, c, i, EDeliver(MCommit(w))))
  {
    hide InFlight, Authorized, QcValid, CommitView, LogFounded, GoodRoster, Leading, Shaped, Consistent;
    var st, log, d := c.nodes[i], LeaderLog(su, c), After(su, c, i, EDeliver(MCommit(w)));
    assert OnLog(st.view, su.init, log);
    SmallMod(|st.view.log|);
    ReceivesCommit(su.s, su.SeatOf(i), st, w);
    assert d.net == c.net && d.requests == c.requests;
    if d.nodes[i] == st {
      assert d.nodes == c.nodes;
    } else {
      OnLogMore(st.view, su.init, log, log);
      CommitOnLog(st.view, su.init, log, w.cmd);
    }
  }

  lemma ReceivesCommit(s: Scheme, seat: Seat, st: State, w: Commitment)
    requires Shaped(seat, st)
    ensures var (next, outs) := StepNode(s, seat, st, EDeliver(MCommit(w)));
      && Sent(outs) == {}
      && (next == st || (w.slot == st.NextSlot() && next.view == CommitView(st.view, w.cmd)))
  {
    hide QcValid, CommitView;
  }

  lemma {:induction false} InvAfter(su: Setup, c: Config, i: U32, e: Event)
    requires su.Formed() && ShapedAll(su, c) && Inv(su, c) && |LeaderLog(su, c)| < TWO32
    requires i < |c.nodes| && (e.EDeliver? ==> e.msg in c.net)
    ensures Inv(su, After(su, c, i, e))
  {
    hide OnLog, LogFounded, InFlight, QcValid, VerifyCapability, StepNode, DecidesAtMost, GoodRoster, CommitsMatch,
        Shaped;
    var seat, st, d := su.SeatOf(i), c.nodes[i], After(su, c, i, e);
    var (next, outs) := StepNode(su.s, seat, st, e);
    match e {
      case EDeliver(MCommit(w)) =>
        InvFollower(su, c, i, w);
      case EDeliver(MVote(v)) =>
        if seat.IsLeader() && st.proposing.Some? {
          VoteAtLeader(su.s, seat, st, v);
          InvLeader(su, c, d, next, outs, st.proposing.value.0);
        } else {
          QuietStep(su, c, i, e);
        }
      case EDeliver(MPropose(_)) =>
        QuietStep(su, c, i, e);
      case ESubmit(cmd, cap) =>
        if seat.IsLeader() && st.proposing.None? && VerifyCapability(su.s, cap, cmd) {
          SubmitAtLeader(su.s, seat, st, cmd, cap);
          assert (cmd, cap) in d.requests;
          InvLeader(su, c, d, next, outs, cmd);
        } else {
          QuietStep(su, c, i, e);
        }
    }
  }

  lemma VoteAtLeader(s: Scheme, seat: Seat, st: State, v: Vote)
    requires Shaped(seat, st) && GoodRoster(seat.roster) && InFlight(s, seat, st, st.NextSlot()) && st.proposing.Some?
    requires seat.IsLeader()
    ensures var (next, outs) := StepNode(s, seat, st, EDeliver(MVote(v)));
      && DecidesAtMost(s, seat.roster, st, next, outs, st.proposing.value.0)
      && InFlight(s, seat, next, next.NextSlot())
      && (next.proposing.Some? ==> next.proposing.value.0 == st.proposing.value.0)
  {
    hide Recorded, DecidesAtMost, InFlight, GoodRoster;
    RecordedDecides(s, seat, st, v);
  }

  lemma SubmitAtLeader(s: Scheme, seat: Seat, st: State, cmd: WireCommand, cap: Capability)
    requires Shaped(seat, st) && GoodRoster(seat.roster)
    requires seat.IsLeader() && st.proposing.None? && VerifyCapability(s, cap, cmd)
    ensures var (next, outs) := StepNode(s, seat, st, ESubmit(cmd, cap));
      && DecidesAtMost(s, seat.roster, st, next, outs, cmd)
      && InFlight(s, seat, next, next.NextSlot())
      && (next.proposing.Some? ==> next.proposing.value.0 == cmd)
  {
    hide Submitted, DecidesAtMost, InFlight, GoodRoster, VerifyCapability;
    SubmittedDecides(s, seat, st, cmd, cap);
  }

  lemma {:induction false} QuietStep(su: Setup, c: Config, i: U32, e: Event)
    requires su.Formed() && ShapedAll(su, c) && Inv(su, c) && i < |c.nodes|
    requires var st, seat := c.nodes[i], su.SeatOf(i);
      match e
      case ESubmit(cmd, cap) => !seat.IsLeader() || st.proposing.Some? || !VerifyCapability(su.s, cap, cmd)
      case EDeliver(MVote(_)) => !seat.IsLeader() || st.proposing.None?
      case EDeliver(MCommit(_)) => false
      case EDeliver(MPropose(_)) => true
    ensures Inv(su, After(su, c, i, e))
  {
    hide Inv, StepNode, VerifyCapability, GoodRoster, Shaped;
    OtherwiseQuiet(su.s, su.SeatOf(i), c.nodes[i], e);
    var d := After(su, c, i, e);
    assert d.nodes == c.nodes;
    InvQuiet(su, c, d);
  }

  lemma {:induction false} InvNext(su: Setup, c: Config, m: Move)
    requires su.Formed() && ShapedAll(su, c) && Inv(su, c) && |LeaderLog(su, c)| < TWO32
    ensures Inv(su, Next(su, c, m))
  {
    hide Inv, After, LeaderLog, ShapedAll;
    match m
    case Request(i, cmd, cap) => if i < |c.nodes| { InvAfter(su, c, i, ESubmit(cmd, cap)); }
    case Receive(i, msg) => if i < |c.nodes| && msg in c.net { InvAfter(su, c, i, EDeliver(msg)); }
    case Inject(msg) => if !msg.MCommit? { InvQuiet(su, c, Next(su, c, m)); }
  }

  /** No move shortens the leader's log. */
  lemma {:induction false} LeaderLogGrows(su: Setup, c: Config, m: Move)
    requires su.Formed() && ShapedAll(su, c)
    ensures LeaderLog(su, c) <= LeaderLog(su, Next(su, c, m))
  {
    hide StepNode, Shaped, GoodRoster;
    var l := su.leader;
    match m
    case Request(i, cmd, cap) => if i == l { Agreement.LogGrows(su.s, su.SeatOf(l), c.nodes[l], ESubmit(cmd, cap)); }
    case Receive(i, msg) => if i == l { Agreement.LogGrows(su.s, su.SeatOf(l), c.nodes[l], EDeliver(msg)); }
    case Inject(_) =>
  }

  lemma {:induction false} RunInv(su: Setup, moves: seq<Move>)
    requires su.Formed() && |LeaderLog(su, Run(su, moves))| < TWO32
    ensures Inv(su, Run(su, moves))
  {
    hide Inv, Next, LeaderLog, ShapedAll, Start;
    if moves == [] {
      InvStart(su);
    } else {
      var n := |moves| - 1;
      LeaderLogGrows(su, Run(su, moves[..n]), moves[n]);
      RunInv(su, moves[..n]);
      InvNext(su, Run(su, moves[..n]), moves[n]);
    }
  }

  lemma InvStart(su: Setup)
    requires su.Formed()
    ensures Inv(su, Start(su))
  {
    hide GoodRoster;
    NothingInFlight(su.s, su.SeatOf(su.leader), Start(su).nodes[su.leader]);
  }

  // ---------------------------------------------------------------------------
  // Cluster safety
  // ---------------------------------------------------------------------------

  /** At every point of every run, each node's log is a prefix of the leader's and its store is
      the meaning of its log; and every logged command was asked for by a client with an
      issuer's valid signature on that very command, and is backed by valid votes of a quorum
      of distinct seats for its slot. */
  lemma {:induction false} ClusterSafety(su: Setup, moves: seq<Move>, i: U32, k: nat)
    requires su.Formed() && i < |su.seeds| && |LeaderLog(su, Run(su, moves))| < TWO32
    ensures var c := Run(su, moves);
      var view := c.nodes[i].view;
      && view.log <= LeaderLog(su, c)
      && view.replicas[0].applied == |view.log| && view.replicas[0].store == Applied(su.init, view.log)
      && (k < |view.log| ==>
            && (exists cap :: (view.log[k], cap) in c.requests && su.s.verify(cap.issuer, CapMsg(view.log[k]), cap.sig))
            && (exists votes ::
                  && QcValid(su.s, votes, k, view.log[k], su.roster)
                  && su.roster.quorum.Reached(|SeatsOf(su.roster.members, Signers(votes))|, |su.roster.members|)))
  {
    hide QcValid, Run, Shaped, Leading, Consistent, CommitsMatch, CapMsg;
    RunInv(su, moves);
    var c := Run(su, moves);
    var view, log := c.nodes[i].view, LeaderLog(su, c);
    assert OnLog(c.nodes[i].view, su.init, log);
    StoreOf(view, su.init);
    if k < |view.log| {
      assert view.log[k] == log[k];
      assert Decreed(su.s, su.roster, c.net, k, log[k]) && Authorized(su.s, c.requests, log[k]);
      var w :| MCommit(w) in c.net && w.slot == k && w.cmd == log[k]
        && QcValid(su.s, w.votes, w.slot, w.cmd, su.roster);
      Agreement.CertificateSeats(su.s, su.roster, w.votes, w.slot, w.cmd);
      var r :| r in c.requests && r.0 == log[k] && VerifyCapability(su.s, r.1, r.0);
    }
  }

  /** So if the capabilities that were handed in are not forged, the issuer of one of them issued
      every logged command. */
  lemma {:induction false} LogIssued(su: Setup, moves: seq<Move>, i: U32, k: nat, issued: Bytes32 -> set<Act>)
    requires su.Formed() && i < |su.seeds| && |LeaderLog(su, Run(su, moves))| < TWO32
    requires k < |Run(su, moves).nodes[i].view.log|
    requires forall r :: r in Run(su, moves).requests ==>
      Credentials.OnlySigned(su.s, r.1.issuer, r.1.sig, issued(r.1.issuer))
    ensures Wire.Encodable(Run(su, moves).nodes[i].view.log[k].payload)
    ensures exists key :: Issued(Run(su, moves).nodes[i].view.log[k]) in issued(key)
  {
    hide QcValid, Run, CapMsg, LeaderLog;
    var c := Run(su, moves);
    ClusterSafety(su, moves, i, k);
    var cap :| (c.nodes[i].view.log[k], cap) in c.requests
      && su.s.verify(cap.issuer, CapMsg(c.nodes[i].view.log[k]), cap.sig);
    var r := (c.nodes[i].view.log[k], cap);
    assert r in c.requests;
    Credentials.AcceptedIssued(su.s, cap, r.0, issued(cap.issuer));
  }

  /** Why injected commits are excluded: a node accepts a commit from anyone, and one that is
      valid though the leader never sent it puts a follower ahead of the leader. */
  lemma InjectedCommit(su: Setup, i: U32, w: Commitment)
    requires su.Formed() && i < |su.seeds| && i != su.leader && w.slot == 0
    requires QcValid(su.s, w.votes, w.slot, w.cmd, su.roster)
    ensures var c := After(su, Start(su), i, EDeliver(MCommit(w)));
      c.nodes[i].view.log == [w.cmd] && LeaderLog(su, c) == []
  {
    hide QcValid;
    CommitGrows(Start(su).nodes[i].view, w.cmd);
  }
}
