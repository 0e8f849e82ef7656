/** The authenticated node. `Submitted` and `Handled` say what one call does to a node's state;
    class `AuthNode` is the node itself, with the loops and the updates in place. */
module Auth {
  import opened Syntax
  import opened Rsm
  import opened Consensus
  import opened Proto

  datatype Msg =
    | MPropose(p: Proposal)
    | MVote(v: Vote)
    | MCommit(c: Commitment)

  datatype Dest = Peers | To(seat: U32)

  datatype Out = Out(dest: Dest, msg: Msg)

  /** A node's fixed identity: its key, its committee, its seat and the static leader's. */
  datatype Seat = Seat(seed: Bytes32, roster: Roster, idx: U32, leader: U32) {
    predicate IsLeader() { idx == leader }
  }

  /** What changes: the model view, the ballot and the proposal in flight with its votes. */
  datatype State = State(view: GlobalConfig, ballot: Ballot, proposing: Option<(WireCommand, seq<Vote>)>) {
    /** The next undecided slot, as the 32-bit number messages carry. */
    function NextSlot(): U32 { |view.log| % TWO32 }
  }

  function EmptyBallot(roster: Roster): Ballot { seq(|roster.members|, _ => None) }

  function Initial(seat: Seat, init: Term, budget: FailureBudget): State {
    State(GlobalConfig([Replica(seat.idx, init, 0)], [], budget), EmptyBallot(seat.roster), None)
  }

  predicate Shaped(seat: Seat, st: State) { CaughtUp(st.view) && |st.ballot| == |seat.roster.members| }

  // ---------------------------------------------------------------------------
  // One call
  // ---------------------------------------------------------------------------

  /** The decision predicate of the roster's fault model. */
  ghost predicate DecidedBy(roster: Roster, ballot: Ballot, cmd: Command) {
    match roster.quorum
    case Crash => IsQuorum(|Voters(ballot, cmd)| % TWO32, |ballot| % TWO32)
    case Byzantine => IsByzQuorum(|Voters(ballot, cmd)| % TWO32, |ballot| % TWO32)
  }

  ghost function Recorded(s: Scheme, seat: Seat, st: State, slot: U32, v: Vote): (r: (State, seq<Out>))
    requires Shaped(seat, st)
    ensures Shaped(seat, r.0)
  {
    if st.proposing.None? || slot != st.NextSlot() then (st, []) else
    var (cmd, votes) := st.proposing.value;
    if !VerifyVote(s, v, slot, cmd, seat.roster) then (st, []) else
    var i := IndexOf(seat.roster.members, v.voter).value;
    var more := if st.ballot[i].None? then votes + [v] else votes;
    var ballot := if st.ballot[i].None? then st.ballot[i := Some(cmd)] else st.ballot;
    if !DecidedBy(seat.roster, ballot, cmd) then (State(st.view, ballot, Some((cmd, more))), [])
    else (State(CommitView(st.view, cmd), EmptyBallot(seat.roster), None),
          [Out(Peers, MCommit(Commitment(slot, cmd, more)))])
  }

  ghost function Submitted(s: Scheme, seat: Seat, st: State, cmd: WireCommand, cap: Capability): (r: (State, seq<Out>))
    requires Shaped(seat, st)
    ensures Shaped(seat, r.0)
  {
    if !seat.IsLeader() || st.proposing.Some? || !VerifyCapability(s, cap, cmd) then (st, []) else
    var slot := st.NextSlot();
    var (next, outs) := Recorded(s, seat, State(st.view, EmptyBallot(seat.roster), Some((cmd, []))), slot,
                                   CastVote(s, seat.seed, slot, cmd));
    (next, [Out(Peers, MPropose(Propose(s, seat.seed, slot, cmd, cap)))] + outs)
  }

  ghost function Handled(s: Scheme, seat: Seat, st: State, msg: Msg): (r: (State, seq<Out>))
    requires Shaped(seat, st)
    ensures Shaped(seat, r.0)
  {
    match msg
    case MPropose(p) =>
      if p.slot != st.NextSlot() || !VerifyProposal(s, p, seat.roster) then (st, [])
      else (st, [Out(To(seat.leader), MVote(CastVote(s, seat.seed, p.slot, p.cmd)))])
    case MVote(v) =>
      if !seat.IsLeader() then (st, []) else Recorded(s, seat, st, st.NextSlot(), v)
    case MCommit(c) =>
      if c.slot != st.NextSlot() || !QcValid(s, c.votes, c.slot, c.cmd, seat.roster) then (st, [])
      else (st.(view := CommitView(st.view, c.cmd)), [])
  }

  // ---------------------------------------------------------------------------
  // The node
  // ---------------------------------------------------------------------------

  class AuthNode {
    const s: Scheme
    const seat: Seat
    const pk: Bytes32
    var view: GlobalConfig
    var ballot: Ballot
    var proposing: Option<(WireCommand, seq<Vote>)>

    ghost predicate Valid()
      reads this
    {
      Shaped(seat, Abs())
    }

    ghost function Abs(): State
      reads this
    {
      State(view, ballot, proposing)
    }

    constructor (s: Scheme, seat: Seat, init: Term, budget: FailureBudget)
      ensures Valid() && Abs() == Initial(seat, init, budget)
      ensures this.s == s && this.seat == seat && pk == s.publicKey(seat.seed)
    {
      this.s, this.seat, this.pk := s, seat, s.publicKey(seat.seed);
      view := GlobalConfig([Replica(seat.idx, init, 0)], [], budget);
      ballot := EmptyBallot(seat.roster);
      proposing := None;
    }

    /** A node whose seed is not its seat's key is refused. */
    static method New(s: Scheme, seat: Seat, init: Term, budget: FailureBudget) returns (r: Option<AuthNode>)
      ensures r.Some? <==> seat.idx < |seat.roster.members| && seat.roster.members[seat.idx] == s.publicKey(seat.seed)
      ensures r.Some? ==> fresh(r.value) && r.value.Valid() && r.value.Abs() == Initial(seat, init, budget)
      ensures r.Some? ==> r.value.s == s && r.value.seat == seat
    {
      if seat.idx >= |seat.roster.members| || seat.roster.members[seat.idx] != s.publicKey(seat.seed) {
        return None;
      }
      var node := new AuthNode(s, seat, init, budget);
      return Some(node);
    }

    method Submit(cmd: WireCommand, cap: Capability) returns (outs: seq<Out>)
      requires Valid()
      modifies this
      ensures Valid() && (Abs(), outs) == Submitted(s, seat, old(Abs()), cmd, cap)
    {
      if !seat.IsLeader() || proposing.Some? { return []; }
      var slot := |view.log| % TWO32;
      if !VerifyCapability(s, cap, cmd) { return []; }
      ballot := EmptyBallot(seat.roster);
      proposing := Some((cmd, []));
      outs := [Out(Peers, MPropose(Propose(s, seat.seed, slot, cmd, cap)))];
      var more := RecordVote(slot, CastVote(s, seat.seed, slot, cmd));
      outs := outs + more;
    }

    method Handle(msg: Msg) returns (outs: seq<Out>)
      requires Valid()
      modifies this
      ensures Valid() && (Abs(), outs) == Handled(s, seat, old(Abs()), msg)
    {
      match msg {
        case MPropose(p) =>
          if p.slot != |view.log| % TWO32 || !VerifyProposal(s, p, seat.roster) { return []; }
          return [Out(To(seat.leader), MVote(CastVote(s, seat.seed, p.slot, p.cmd)))];
        case MVote(v) =>
          if !seat.IsLeader() { return []; }
          outs := RecordVote(|view.log| % TWO32, v);
        case MCommit(c) =>
          if c.slot != |view.log| % TWO32 { return []; }
          var ok := VerifyCommit(s, c, seat.roster);
          if !ok { return []; }
          ApplyCommit(c.cmd);
          return [];
      }
    }

    method RecordVote(slot: U32, v: Vote) returns (outs: seq<Out>)
      requires Valid()
      modifies this
      ensures Valid() && (Abs(), outs) == Recorded(s, seat, old(Abs()), slot, v)
    {
      if proposing.None? { return []; }
      var cmd := proposing.value.0;
      if slot != |view.log| % TWO32 || !VerifyVote(s, v, slot, cmd, seat.roster) { return []; }
      var i := IndexOf(seat.roster.members, v.voter).value;
      if ballot[i].None? {
        ballot := ballot[i := Some(cmd)];
        proposing := Some((cmd, proposing.value.1 + [v]));
      }
      var decided;
      if seat.roster.quorum.Crash? {
        decided := Decided(ballot, cmd);
      } else {
        decided := ByzDecided(ballot, cmd);
      }
      if !decided { return []; }
      var votes := proposing.value.1;
      proposing := None;
      ballot := EmptyBallot(seat.roster);
      ApplyCommit(cmd);
      return [Out(Peers, MCommit(Commitment(slot, cmd, votes)))];
    }

    /** Append, then drain with world steps until the replica has applied the whole log. On the
        machine's 32-bit counter the loop ends exactly while that log is shorter than 2^32:
        see `CommitDrains`. */
    method ApplyCommit(cmd: Command)
      requires CaughtUp(view)
      modifies this`view
      ensures CaughtUp(view) && view == CommitView(old(view), cmd)
    {
      view := Commit(view, cmd);
      while view.replicas[0].applied < |view.log|
        invariant |view.replicas| == 1
        invariant view == Commit(old(view), cmd) || view == CommitView(old(view), cmd)
        invariant view.replicas[0].applied <= |view.log|
        decreases |view.log| - view.replicas[0].applied
      {
        view := WorldStep(view);
      }
    }
  }
}
