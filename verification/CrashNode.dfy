/** The node of the crash-fault protocol, which signs nothing: `Submitted` and `Handled` say
    what one call does, and class `Node` is the node itself. */
module CrashNode {
  import opened Syntax
  import opened Rsm
  import opened Consensus

  datatype Msg =
    | MPropose(slot: U32, cmd: Command)
    | MVote(slot: U32, from: U32, cmd: Command)
    | MCommit(slot: U32, cmd: Command)

  datatype Dest = Peers | To(id: U32)

  datatype Out = Out(dest: Dest, msg: Msg)

  datatype Peer = Peer(id: U32, cluster: U32, leader: U32) {
    predicate IsLeader() { id == leader }
  }

  datatype State = State(view: GlobalConfig, ballot: Ballot, proposing: Option<Command>) {
    function NextSlot(): U32 { |view.log| % TWO32 }
  }

  function EmptyBallot(p: Peer): Ballot { seq(p.cluster, _ => None) }

  function Initial(p: Peer, init: Term, budget: FailureBudget): State {
    State(GlobalConfig([Replica(p.id, init, 0)], [], budget), EmptyBallot(p), None)
  }

  predicate Shaped(p: Peer, st: State) { CaughtUp(st.view) && |st.ballot| == p.cluster }

  /** Decide `cmd` for `slot` if its votes are a quorum. */
  ghost function Tallied(p: Peer, st: State, slot: U32, cmd: Command): (r: (State, seq<Out>))
    requires Shaped(p, st)
    ensures Shaped(p, r.0)
  {
    if !IsQuorum(|Voters(st.ballot, cmd)| % TWO32, |st.ballot| % TWO32) then (st, [])
    else (State(CommitView(st.view, cmd), EmptyBallot(p), None), [Out(Peers, MCommit(slot, cmd))])
  }

  ghost function Submitted(p: Peer, st: State, cmd: Command): (r: (State, seq<Out>))
    requires Shaped(p, st) && p.id < p.cluster
    ensures Shaped(p, r.0)
  {
    if !p.IsLeader() || st.proposing.Some? then (st, []) else
    var slot := st.NextSlot();
    var (next, outs) := Tallied(p, State(st.view, EmptyBallot(p)[p.id := Some(cmd)], Some(cmd)), slot, cmd);
    (next, [Out(Peers, MPropose(slot, cmd))] + outs)
  }

  ghost function Handled(p: Peer, st: State, msg: Msg): (r: (State, seq<Out>))
    requires Shaped(p, st)
    ensures Shaped(p, r.0)
  {
    match msg
    case MPropose(slot, cmd) =>
      if slot != st.NextSlot() then (st, []) else (st, [Out(To(p.leader), MVote(slot, p.id, cmd))])
    case MVote(slot, from, cmd) =>
      if !p.IsLeader() || slot != st.NextSlot() then (st, [])
      else Tallied(p, if from < |st.ballot| then st.(ballot := st.ballot[from := Some(cmd)]) else st, slot, cmd)
    case MCommit(slot, cmd) =>
      if slot != st.NextSlot() then (st, []) else (st.(view := CommitView(st.view, cmd)), [])
  }

  class Node {
    const p: Peer
    var view: GlobalConfig
    var ballot: Ballot
    var proposing: Option<Command>

    ghost predicate Valid()
      reads this
    {
      Shaped(p, Abs())
    }

    ghost function Abs(): State
      reads this
    {
      State(view, ballot, proposing)
    }

    constructor (p: Peer, init: Term, budget: FailureBudget)
      ensures Valid() && this.p == p && Abs() == Initial(p, init, budget)
    {
      this.p := p;
      view := GlobalConfig([Replica(p.id, init, 0)], [], budget);
      ballot := EmptyBallot(p);
      proposing := None;
    }

    /** The leader indexes its ballot by its own id, which must be one of the cluster's. */
    method Submit(cmd: Command) returns (outs: seq<Out>)
      requires Valid() && p.id < p.cluster
      modifies this
      ensures Valid() && (Abs(), outs) == Submitted(p, old(Abs()), cmd)
    {
      if !p.IsLeader() || proposing.Some? { return []; }
      var slot := |view.log| % TWO32;
      ballot := EmptyBallot(p);
      ballot := ballot[p.id := Some(cmd)];
      proposing := Some(cmd);
      outs := [Out(Peers, MPropose(slot, cmd))];
      var more := DecideIfQuorum(slot, cmd);
      outs := outs + more;
    }

    method Handle(msg: Msg) returns (outs: seq<Out>)
      requires Valid()
      modifies this
      ensures Valid() && (Abs(), outs) == Handled(p, old(Abs()), msg)
    {
      match msg {
        case MPropose(slot, cmd) =>
          if slot != |view.log| % TWO32 { return []; }
          return [Out(To(p.leader), MVote(slot, p.id, cmd))];
        case MVote(slot, from, cmd) =>
          if !p.IsLeader() || slot != |view.log| % TWO32 { return []; }
          if from < |ballot| { ballot := ballot[from := Some(cmd)]; }
          outs := DecideIfQuorum(slot, cmd);
        case MCommit(slot, cmd) =>
          if slot != |view.log| % TWO32 { return []; }
          ApplyCommit(cmd);
          return [];
      }
    }

    method DecideIfQuorum(slot: U32, cmd: Command) returns (outs: seq<Out>)
      requires Valid()
      modifies this
      ensures Valid() && (Abs(), outs) == Tallied(p, old(Abs()), slot, cmd)
    {
      var decided := Decided(ballot, cmd);
      if !decided { return []; }
      proposing := None;
      ballot := EmptyBallot(p);
      ApplyCommit(cmd);
      return [Out(Peers, MCommit(slot, cmd))];
    }

    /** Append, then drain: the loop ends with the whole log applied, on the machine's 32-bit
        counter exactly while that log is shorter than 2^32 (`CommitDrains`). */
    method ApplyCommit(cmd: Command)
      requires CaughtUp(view)
      modifies this`view
      ensures CaughtUp(view) && view == CommitView(old(view), cmd)
    {
      view := Commit(view, cmd);
      while view.replicas[0].applied < |view.log|
        invariant |view.replicas| == 1
        invariant view == Commit(old(view), cmd) || view == CommitView(old(view), cmd)
        invariant view.replicas[0].applied <= |view.log|
        decreases |view.log| - view.replicas[0].applied
      {
        view := WorldStep(view);
      }
    }
  }
}
