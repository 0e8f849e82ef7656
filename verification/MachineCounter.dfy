/** The replicated state machine on the machine's own `applied` counter, which has 32 bits.
    Below the wrap-around it is the machine of `Rsm`; at the wrap-around the drain of a commit
    never ends. */
module MachineCounter {
  import opened Syntax
  import opened Rsm

  /** Delivery, with the counter wrapping. */
  function Deliver32(log: seq<Command>, r: Replica): Replica {
    if r.applied < |log| then Replica(r.id, ApplyCommand(log[r.applied], r.store), (r.applied + 1) % TWO32) else r
  }

  function Stepped32(g: GlobalConfig): GlobalConfig {
    g.(replicas := seq(|g.replicas|, i requires 0 <= i < |g.replicas| => Deliver32(g.log, g.replicas[i])))
  }

  function RunOf32(g: GlobalConfig, acts: seq<Action>): GlobalConfig {
    if acts == [] then g
    else
      var h := RunOf32(g, acts[..|acts| - 1]);
      match acts[|acts| - 1]
      case Append(c) => Commit(h, c)
      case World => Stepped32(h)
  }

  /** Every counter is a 32-bit number. */
  ghost predicate CountersFit(g: GlobalConfig) {
    forall i :: 0 <= i < |g.replicas| ==> g.replicas[i].applied < TWO32
  }

  /** One delivery is the unbounded one exactly when it does not take the counter to 2^32. */
  lemma DeliverExactly(log: seq<Command>, r: Replica)
    requires r.applied < TWO32
    ensures Deliver32(log, r) == Deliver(log, r) <==> Deliver(log, r).applied < TWO32
    ensures Deliver32(log, r).applied < TWO32
  {
    hide ApplyCommand;
  }

  lemma SteppedExactly(g: GlobalConfig)
    requires CountersFit(g)
    ensures Stepped32(g) == Stepped(g) <==> CountersFit(Stepped(g))
    ensures CountersFit(Stepped32(g))
  {
    hide Deliver, Deliver32;
    forall i | 0 <= i < |g.replicas|
      ensures Deliver32(g.log, g.replicas[i]) == Deliver(g.log, g.replicas[i]) <==>
        Deliver(g.log, g.replicas[i]).applied < TWO32
      ensures Deliver32(g.log, g.replicas[i]).applied < TWO32
    {
      DeliverExactly(g.log, g.replicas[i]);
    }
    if Stepped32(g) == Stepped(g) {
      forall i | 0 <= i < |g.replicas|
        ensures Stepped(g).replicas[i].applied < TWO32
      {
        assert Stepped32(g).replicas[i] == Stepped(g).replicas[i];
      }
    } else {
      var i :| 0 <= i < |g.replicas| && Stepped32(g).replicas[i] != Stepped(g).replicas[i];
    }
  }

  /** A run on machine counters is the run of `Rsm` exactly when no counter of the latter has
      reached 2^32; in particular while the log has fewer than 2^32 entries. */
  lemma {:induction false} RunExactly(g: GlobalConfig, init: Term, acts: seq<Action>)
    requires Consistent(g, init) && CountersFit(g)
    ensures RunOf32(g, acts) == RunOf(g, acts) <==> CountersFit(RunOf(g, acts))
    ensures |RunOf(g, acts).log| < TWO32 ==> RunOf32(g, acts) == RunOf(g, acts)
    ensures CountersFit(RunOf32(g, acts))
  {
    hide Stepped, Stepped32, Consistent, CountersFit;
    RunFits(g, acts);
    RunConsistent(g, init, acts);
    ShortLogFits(RunOf(g, acts), init);
    if acts != [] && CountersFit(RunOf(g, acts)) {
      var n := |acts| - 1;
      var h := RunOf(g, acts[..n]);
      RunExactly(g, init, acts[..n]);
      RunConsistent(g, init, acts[..n]);
      FitsBefore(h, acts[n]);
      if acts[n].World? { SteppedExactly(h); }
    }
  }

  /** Counters only grow, so if they fit after an action they did before. */
  lemma FitsBefore(h: GlobalConfig, act: Action)
    requires CountersFit(match act case Append(c) => Commit(h, c) case World => Stepped(h))
    ensures CountersFit(h)
  {
    hide ApplyCommand;
    if act.World? {
      forall i | 0 <= i < |h.replicas|
        ensures h.replicas[i].applied < TWO32
      {
        assert Stepped(h).replicas[i] == Deliver(h.log, h.replicas[i]);
      }
    }
  }

  lemma {:induction false} RunFits(g: GlobalConfig, acts: seq<Action>)
    requires CountersFit(g)
    ensures CountersFit(RunOf32(g, acts))
  {
    hide Stepped, Stepped32;
    if acts != [] {
      var n := |acts| - 1;
      RunFits(g, acts[..n]);
      SteppedExactly(RunOf32(g, acts[..n]));
    }
  }

  lemma ShortLogFits(g: GlobalConfig, init: Term)
    requires Consistent(g, init)
    ensures |g.log| < TWO32 ==> CountersFit(g)
  {
    hide Applied;
  }

  lemma {:induction false} RunLog(g: GlobalConfig, acts: seq<Action>)
    ensures RunOf32(g, acts).log == RunOf(g, acts).log
  {
    hide Deliver, Deliver32;
    if acts != [] { RunLog(g, acts[..|acts| - 1]); }
  }

  /** So runs of the machine keep what runs of `Rsm` keep while their log is shorter than 2^32:
      every replica holds the meaning of the prefix it counts as applied, and two that count the
      same hold the same store. */
  lemma {:induction false} Convergence32(g: GlobalConfig, init: Term, acts: seq<Action>, i: nat, j: nat)
    requires Consistent(g, init) && |RunOf32(g, acts).log| < TWO32 && i < |g.replicas| && j < |g.replicas|
    ensures var h := RunOf32(g, acts);
      && Consistent(h, init) && |h.replicas| == |g.replicas| && g.log <= h.log
      && h.replicas[i].applied >= g.replicas[i].applied
      && (h.replicas[i].applied == h.replicas[j].applied ==> h.replicas[i].store == h.replicas[j].store)
  {
    hide RunOf, RunOf32, CountersFit, Applied;
    RunLog(g, acts);
    RunConsistent(g, init, acts);
    ShortLogFits(g, init);
    RunExactly(g, init, acts);
    Convergence(g, init, acts, i, j);
  }

  // ---------------------------------------------------------------------------
  // The drain of a commit
  // ---------------------------------------------------------------------------

  /** `n` rounds of the loop that steps a node's view while it is behind its log. */
  function Drained(view: GlobalConfig, n: nat): (r: GlobalConfig)
    requires |view.replicas| == 1
    ensures |r.replicas| == 1 && r.log == view.log
  {
    if n == 0 then view else
    var w := Drained(view, n - 1);
    if w.replicas[0].applied < |w.log| then Stepped32(w) else w
  }

  /** The loop has ended after `n` rounds. */
  predicate Ended(view: GlobalConfig, n: nat)
    requires |view.replicas| == 1
  {
    Drained(view, n).replicas[0].applied >= |view.log|
  }

  lemma {:induction false} DrainedCounter(view: GlobalConfig, n: nat)
    requires |view.replicas| == 1 && view.replicas[0].applied < TWO32
    ensures Drained(view, n).replicas[0].applied < TWO32
    ensures |view.log| < TWO32 && view.replicas[0].applied + n <= |view.log| ==>
      Drained(view, n).replicas[0].applied == view.replicas[0].applied + n
  {
    hide ApplyCommand;
    if n > 0 { DrainedCounter(view, n - 1); }
  }

  /** From a counter that is not ahead of the log, the loop ends exactly when the log has fewer
      than 2^32 entries. */
  lemma {:induction false} DrainEndsExactly(view: GlobalConfig)
    requires |view.replicas| == 1 && view.replicas[0].applied < TWO32 && view.replicas[0].applied <= |view.log|
    ensures (exists n: nat :: Ended(view, n)) <==> |view.log| < TWO32
  {
    hide Drained;
    if |view.log| < TWO32 {
      var n: nat := |view.log| - view.replicas[0].applied;
      DrainedCounter(view, n);
      assert Ended(view, n);
    } else {
      forall n: nat
        ensures !Ended(view, n)
      {
        DrainedCounter(view, n);
      }
    }
  }

  /** The commit of a node that is caught up: the loop ends exactly when the appended log has
      fewer than 2^32 entries, and then after one round, in the view that `CommitView` gives. */
  lemma {:induction false} CommitDrains(view: GlobalConfig, cmd: Command)
    requires CaughtUp(view) && |view.log| < TWO32
    ensures (exists n: nat :: Ended(Commit(view, cmd), n)) <==> |view.log| + 1 < TWO32
    ensures |view.log| + 1 < TWO32 ==>
      forall n: nat :: n > 0 ==> Drained(Commit(view, cmd), n) == CommitView(view, cmd)
  {
    hide Drained, Ended, Stepped, Stepped32;
    DrainEndsExactly(Commit(view, cmd));
    if |view.log| + 1 < TWO32 {
      forall n: nat | n > 0
        ensures Drained(Commit(view, cmd), n) == CommitView(view, cmd)
      {
        DrainedOnce(view, cmd, n);
      }
    }
  }

  lemma {:induction false} DrainedOnce(view: GlobalConfig, cmd: Command, n: nat)
    requires CaughtUp(view) && |view.log| + 1 < TWO32 && n > 0
    ensures Drained(Commit(view, cmd), n) == CommitView(view, cmd)
  {
    hide ApplyCommand;
    var g := Commit(view, cmd);
    assert Drained(g, 0) == g;
    if n == 1 {
      SteppedExactly(g);
      assert CountersFit(Stepped(g));
    } else {
      DrainedOnce(view, cmd, n - 1);
    }
  }

  /** In the commit that would make the log 2^32 entries long the counter wraps: the replica
      holds the meaning of the whole log and counts none of it as applied. */
  lemma CounterWraps(view: GlobalConfig, init: Term, cmd: Command)
    requires CaughtUp(view) && Consistent(view, init) && |view.log| == TWO32 - 1
    ensures var r := Drained(Commit(view, cmd), 1).replicas[0];
      r.applied == 0 && r.store == Applied(init, view.log + [cmd])
  {
    hide ApplyCommand;
    var g := Commit(view, cmd);
    assert Drained(g, 0) == g;
    StoreOf(view, init);
    assert g.log[..|g.log| - 1] == view.log;
  }
}
