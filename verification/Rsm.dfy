/** The replicated state machine: deterministic command application, delivery, the world
    step and the append-only commit, and what every run of them keeps. */
module Rsm {
  import opened Syntax
  import opened Reduction

  const APPLY_FUEL: nat := 1024

  datatype Command = Cmd(payload: Term, cap: Option<Prop>)

  /** `applied` counts the log slots this replica has consumed. */
  datatype Replica = Replica(id: U32, store: Term, applied: nat)

  datatype FailureBudget = FailureBudget(maxFaults: U32, fairDelivery: bool, consumed: U32)

  datatype GlobalConfig = GlobalConfig(replicas: seq<Replica>, log: seq<Command>, budget: FailureBudget)

  function ApplyCommand(c: Command, store: Term): Term {
    Reduce(App(c.payload, store), APPLY_FUEL).0
  }

  /** The store after a committed prefix: the meaning of a log. */
  function Applied(init: Term, log: seq<Command>): Term {
    if log == [] then init
    else ApplyCommand(log[|log| - 1], Applied(init, log[..|log| - 1]))
  }

  method ApplyPrefix(init: Term, cmds: seq<Command>) returns (acc: Term)
    ensures acc == Applied(init, cmds)
  {
    hide ApplyCommand;
    acc := init;
    for i := 0 to |cmds|
      invariant acc == Applied(init, cmds[..i])
    {
      acc := ApplyCommand(cmds[i], acc);
      assert cmds[..i + 1][..i] == cmds[..i];
    }
    assert cmds[..|cmds|] == cmds;
  }

  function Deliver(log: seq<Command>, r: Replica): Replica {
    if r.applied < |log| then Replica(r.id, ApplyCommand(log[r.applied], r.store), r.applied + 1) else r
  }

  /** The configuration in which every replica has taken its next delivery. */
  function Stepped(g: GlobalConfig): GlobalConfig {
    g.(replicas := seq(|g.replicas|, i requires 0 <= i < |g.replicas| => Deliver(g.log, g.replicas[i])))
  }

  method WorldStep(g: GlobalConfig) returns (r: GlobalConfig)
    ensures r == Stepped(g)
  {
    hide Deliver;
    var stepped: seq<Replica> := [];
    for i := 0 to |g.replicas|
      invariant stepped == Stepped(g).replicas[..i]
    {
      stepped := stepped + [Deliver(g.log, g.replicas[i])];
    }
    r := GlobalConfig(stepped, g.log, g.budget);
  }

  function Commit(g: GlobalConfig, c: Command): GlobalConfig { g.(log := g.log + [c]) }

  /** A one-replica view that is caught up with its log. */
  predicate CaughtUp(view: GlobalConfig) { |view.replicas| == 1 && view.replicas[0].applied == |view.log| }

  /** Append and deliver: on a caught-up view one world step drains the log again. */
  function CommitView(view: GlobalConfig, cmd: Command): GlobalConfig { Stepped(Commit(view, cmd)) }

  // ---------------------------------------------------------------------------
  // Runs
  // ---------------------------------------------------------------------------

  datatype Action = Append(c: Command) | World

  /** The configuration reached from `g` by a sequence of commits and world steps. */
  function RunOf(g: GlobalConfig, acts: seq<Action>): GlobalConfig {
    if acts == [] then g
    else
      var h := RunOf(g, acts[..|acts| - 1]);
      match acts[|acts| - 1]
      case Append(c) => Commit(h, c)
      case World => Stepped(h)
  }

  /** Every replica holds the meaning of the prefix it has applied. */
  ghost predicate Consistent(g: GlobalConfig, init: Term) {
    forall i :: 0 <= i < |g.replicas| ==>
      g.replicas[i].applied <= |g.log| && g.replicas[i].store == Applied(init, g.log[..g.replicas[i].applied])
  }

  lemma StepConsistent(g: GlobalConfig, init: Term)
    requires Consistent(g, init)
    ensures Consistent(Stepped(g), init)
  {
    hide ApplyCommand;
    forall i | 0 <= i < |g.replicas|
      ensures var r := Stepped(g).replicas[i];
        r.applied <= |g.log| && r.store == Applied(init, g.log[..r.applied])
    {
      var k := g.replicas[i].applied;
      if k < |g.log| { assert g.log[..k + 1][..k] == g.log[..k]; }
    }
  }

  lemma CommitConsistent(g: GlobalConfig, init: Term, c: Command)
    requires Consistent(g, init)
    ensures Consistent(Commit(g, c), init)
  {
    hide Applied;
    forall i | 0 <= i < |g.replicas|
      ensures Commit(g, c).log[..g.replicas[i].applied] == g.log[..g.replicas[i].applied]
    {
    }
  }

  /** A caught-up view whose log starts `log` and whose store is the meaning of its own. */
  ghost predicate OnLog(view: GlobalConfig, init: Term, log: seq<Command>) {
    CaughtUp(view) && view.log <= log && Consistent(view, init)
  }

  lemma CommitOnLog(view: GlobalConfig, init: Term, log: seq<Command>, cmd: Command)
    requires OnLog(view, init, view.log) && view.log + [cmd] <= log
    ensures CommitView(view, cmd).log == view.log + [cmd] && OnLog(CommitView(view, cmd), init, log)
  {
    hide Consistent, ApplyCommand;
    CommitConsistent(view, init, cmd);
    StepConsistent(Commit(view, cmd), init);
  }

  lemma OnLogMore(view: GlobalConfig, init: Term, log: seq<Command>, more: seq<Command>)
    requires OnLog(view, init, log) && log <= more
    ensures OnLog(view, init, more) && OnLog(view, init, view.log)
  {
    hide Consistent;
  }

  lemma CommitGrows(view: GlobalConfig, cmd: Command)
    ensures CommitView(view, cmd).log == view.log + [cmd]
  {
  }

  lemma StoreOf(view: GlobalConfig, init: Term)
    requires CaughtUp(view) && Consistent(view, init)
    ensures view.replicas[0].store == Applied(init, view.log)
  {
    assert view.log[..|view.log|] == view.log;
  }

  /** Every run keeps consistency, keeps the replicas' identities, and only appends. */
  lemma {:induction false} RunConsistent(g: GlobalConfig, init: Term, acts: seq<Action>)
    requires Consistent(g, init)
    ensures Consistent(RunOf(g, acts), init)
    ensures |RunOf(g, acts).replicas| == |g.replicas| && g.log <= RunOf(g, acts).log
    ensures forall i :: 0 <= i < |g.replicas| ==>
      RunOf(g, acts).replicas[i].id == g.replicas[i].id && RunOf(g, acts).replicas[i].applied >= g.replicas[i].applied
  {
    hide ApplyCommand, Consistent;
    if acts != [] {
      var k := |acts| - 1;
      RunConsistent(g, init, acts[..k]);
      var h := RunOf(g, acts[..k]);
      match acts[k] {
        case Append(c) => CommitConsistent(h, init, c);
        case World => StepConsistent(h, init);
      }
    }
  }

  /** Replica convergence: at every point of every run, two replicas that have applied the
      same number of slots hold the same store; and a replica that is ahead extends the
      other's prefix. */
  lemma {:induction false} Convergence(g: GlobalConfig, init: Term, acts: seq<Action>, i: nat, j: nat)
    requires Consistent(g, init) && i < |g.replicas| && j < |g.replicas|
    ensures var h := RunOf(g, acts);
      && |h.replicas| == |g.replicas|
      && h.replicas[i].applied <= |h.log| && h.replicas[j].applied <= |h.log|
      && (h.replicas[i].applied <= h.replicas[j].applied ==>
            h.replicas[j].store == Applied(h.replicas[i].store, h.log[h.replicas[i].applied..h.replicas[j].applied]))
      && (h.replicas[i].applied == h.replicas[j].applied ==> h.replicas[i].store == h.replicas[j].store)
  {
    hide ApplyCommand, RunOf;
    RunConsistent(g, init, acts);
    var h := RunOf(g, acts);
    var a, b := h.replicas[i].applied, h.replicas[j].applied;
    if a <= b {
      AppliedSplit(init, h.log[..a], h.log[a..b]);
      assert h.log[..a] + h.log[a..b] == h.log[..b];
    }
  }

  /** The meaning of a log is compositional. */
  lemma {:induction false} AppliedSplit(init: Term, a: seq<Command>, b: seq<Command>)
    ensures Applied(init, a + b) == Applied(Applied(init, a), b)
  {
    hide ApplyCommand;
    if b == [] {
      assert a + b == a;
    } else {
      AppliedSplit(init, a, b[..|b| - 1]);
      assert (a + b)[..|a + b| - 1] == a + b[..|b| - 1];
    }
  }

  /** Closed payloads and a closed initial store give a closed store. */
  lemma {:induction false} AppliedScoped(init: Term, log: seq<Command>, k: nat)
    requires Scoped(init, k) && forall i :: 0 <= i < |log| ==> Scoped(log[i].payload, k)
    ensures Scoped(Applied(init, log), k)
  {
    hide Scoped, Reduce;
    if log != [] {
      var n := |log| - 1;
      AppliedScoped(init, log[..n], k);
      var t := App(log[n].payload, Applied(init, log[..n]));
      AppScoped(log[n].payload, Applied(init, log[..n]), k);
      RunScoped(t, k, APPLY_FUEL);
    }
  }

  lemma AppScoped(m: Term, n: Term, k: nat)
    requires Scoped(m, k) && Scoped(n, k)
    ensures Scoped(App(m, n), k)
  {
    ScopedChildren(App(m, n), k);
  }

  // ---------------------------------------------------------------------------
  // Assembling per-node views
  // ---------------------------------------------------------------------------

  /** All replicas of all views, in order. */
  function AllReplicas(views: seq<GlobalConfig>): seq<Replica> {
    if views == [] then [] else AllReplicas(views[..|views| - 1]) + views[|views| - 1].replicas
  }

  function Assembled(views: seq<GlobalConfig>): GlobalConfig
    requires views != []
  {
    GlobalConfig(AllReplicas(views), views[0].log, views[0].budget)
  }

  method Assemble(views: seq<GlobalConfig>) returns (g: GlobalConfig)
    requires views != []
    ensures g == Assembled(views)
  {
    var replicas: seq<Replica> := [];
    for i := 0 to |views|
      invariant replicas == AllReplicas(views[..i])
    {
      var rs := views[i].replicas;
      assert views[..i + 1][..i] == views[..i];
      for j := 0 to |rs|
        invariant replicas == AllReplicas(views[..i]) + rs[..j]
      {
        replicas := replicas + [rs[j]];
      }
      assert rs[..|rs|] == rs;
    }
    assert views[..|views|] == views;
    g := GlobalConfig(replicas, views[0].log, views[0].budget);
  }

  /** Every view contributes its replicas, in the order of the views. */
  lemma {:induction false} AllReplicasConcat(a: seq<GlobalConfig>, b: seq<GlobalConfig>)
    ensures AllReplicas(a + b) == AllReplicas(a) + AllReplicas(b)
  {
    hide *;
    AllReplicasLast(a + b);
    AllReplicasLast(b);
    if b == [] {
      assert a + b == a && AllReplicas(a) + [] == AllReplicas(a);
    } else {
      AllReplicasConcat(a, b[..|b| - 1]);
      assert (a + b)[..|a + b| - 1] == a + b[..|b| - 1];
    }
  }

  lemma AllReplicasLast(views: seq<GlobalConfig>)
    ensures AllReplicas(views) == if views == [] then [] else
      AllReplicas(views[..|views| - 1]) + views[|views| - 1].replicas
  {
  }

  /** So assembling one view per node gives each node's replica at its place. */
  lemma {:induction false} AssembledNodes(views: seq<GlobalConfig>)
    requires views != [] && forall i :: 0 <= i < |views| ==> |views[i].replicas| == 1
    ensures |Assembled(views).replicas| == |views|
    ensures Assembled(views).log == views[0].log && Assembled(views).budget == views[0].budget
    ensures forall i :: 0 <= i < |views| ==> Assembled(views).replicas[i] == views[i].replicas[0]
  {
    Singletons(views);
  }

  lemma {:induction false} Singletons(views: seq<GlobalConfig>)
    requires forall i :: 0 <= i < |views| ==> |views[i].replicas| == 1
    ensures |AllReplicas(views)| == |views|
    ensures forall i :: 0 <= i < |views| ==> AllReplicas(views)[i] == views[i].replicas[0]
  {
    if views != [] { Singletons(views[..|views| - 1]); }
  }

  ghost predicate ShareLog(views: seq<GlobalConfig>) {
    forall i :: 0 <= i < |views| ==> views[i].log == views[0].log
  }

  function EachStepped(views: seq<GlobalConfig>): seq<GlobalConfig> {
    seq(|views|, i requires 0 <= i < |views| => Stepped(views[i]))
  }

  /** Stepping nodes independently is the world step of their assembly, when they share
      their log. */
  lemma {:induction false} AssembleCommutes(views: seq<GlobalConfig>)
    requires views != [] && ShareLog(views)
    ensures Assembled(EachStepped(views)) == Stepped(Assembled(views))
  {
    hide Deliver;
    ReplicasCommute(views, views[0].log);
  }

  lemma {:induction false} ReplicasCommute(views: seq<GlobalConfig>, log: seq<Command>)
    requires forall i :: 0 <= i < |views| ==> views[i].log == log
    ensures var rs, qs := AllReplicas(EachStepped(views)), AllReplicas(views);
      |rs| == |qs| && forall i :: 0 <= i < |rs| ==> rs[i] == Deliver(log, qs[i])
  {
    hide Deliver;
    if views != [] {
      var k := |views| - 1;
      ReplicasCommute(views[..k], log);
      assert EachStepped(views)[..k] == EachStepped(views[..k]);
    }
  }
}
