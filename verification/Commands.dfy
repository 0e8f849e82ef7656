/** What applying commands computes. */
module Commands {
  import opened Syntax
  import opened Substitution
  import opened Reduction
  import opened Typing
  import opened Safety
  import opened Normalization
  import opened Rsm

  /** A payload that is a function is applied to the store: its body with the store in place of
      the parameter, run on the fuel that is left of 1024. */
  lemma {:induction false} ApplyFunction(a: Prop, body: Term, cap: Option<Prop>, store: Term)
    ensures ApplyCommand(Cmd(Lam(a, body), cap), store) == Reduce(Subst(body, store), 1023).0
  {
    hide SubstAt;
    RunFirst(App(Lam(a, body), store), 1024);
    assert Step(App(Lam(a, body), store)) == Some(Subst(body, store));
  }

  /** What a typed payload and store need: the application is typed. */
  lemma ApplicationTyped(g: Ctx, m: Term, n: Term, a: Prop)
    requires Infer(g, m) == Some(Imp(a, a)) && Infer(g, n) == Some(a)
    ensures Infer(g, App(m, n)) == Some(a)
  {
    hide Infer;
    InferIs(g, App(m, n));
  }

  lemma ApplicationEvery(m: Term, n: Term, p: Term -> bool)
    requires Every(m, p) && Every(n, p) && p(App(HOLE, HOLE))
    ensures Every(App(m, n), p)
  {
    hide Every;
    EveryFromParts(App(m, n), p);
  }

  lemma EveryFromParts(t: Term, p: Term -> bool)
    requires p(Node(t)) && forall i :: 0 <= i < |Children(t)| ==> Every(Children(t)[i].term, p)
    ensures Every(t, p)
  {
  }

  /** A command that maps stores of a type to stores of that type. */
  ghost predicate Transforms(g: Ctx, c: Command, a: Prop) {
    Core(c.payload) && Infer(g, c.payload) == Some(Imp(a, a))
  }

  /** Every log of such commands keeps the type of the store. */
  lemma {:induction false} AppliedTyped(g: Ctx, init: Term, log: seq<Command>, a: Prop)
    requires |g.linear| != 1 && Core(init) && Infer(g, init) == Some(a)
    requires forall i :: 0 <= i < |log| ==> Transforms(g, log[i], a)
    ensures Core(Applied(init, log)) && Infer(g, Applied(init, log)) == Some(a)
  {
    hide Core, Infer, Reduce;
    if log != [] {
      var n := |log| - 1;
      AppliedTyped(g, init, log[..n], a);
      var m, store := log[n].payload, Applied(init, log[..n]);
      assert Transforms(g, log[n], a);
      ApplicationTyped(g, m, store, a);
      ApplicationCore(m, store);
      RunPreservation(g, App(m, store), 1024);
    }
  }

  lemma ApplicationCore(m: Term, n: Term)
    requires Core(m) && Core(n)
    ensures Core(App(m, n))
  {
    hide Every;
    ApplicationEvery(m, n, CoreNode);
  }

  /** Applying a command to a typed store reaches a normal form exactly when evaluation takes at
      most 1024 steps, and it is then the one that any more fuel reaches. */
  lemma {:induction false} ApplyExactly(g: Ctx, c: Command, store: Term, a: Prop) returns (n: nat, v: Term)
    requires |g.linear| != 1 && Transforms(g, c, a) && Core(store) && Infer(g, store) == Some(a)
    ensures Step(v) == None && forall fuel: nat :: n <= fuel ==> Reduce(App(c.payload, store), fuel) == (v, n)
    ensures Step(ApplyCommand(c, store)) == None <==> n <= 1024
    ensures n <= 1024 ==> ApplyCommand(c, store) == v
  {
    hide Core, Infer, Reduce, Step, TensorElimFree;
    var t := App(c.payload, store);
    ApplicationTyped(g, c.payload, store, a);
    ApplicationCore(c.payload, store);
    CoreStep(t);
    n, v := Normalization.Normalization(g, t);
    if n > 1024 { StillRunning(t, v, n, 1024); }
  }

  /** Before its last step a run is not normal. */
  lemma {:induction false} StillRunning(t: Term, v: Term, n: nat, k: nat)
    requires Reduce(t, n) == (v, n) && k < n
    ensures Step(Reduce(t, k).0).Some?
    decreases k
  {
    hide Step;
    if k > 0 { StillRunning(Step(t).value, v, n - 1, k - 1); }
  }

  /** So with no hypotheses and no forms that are never computed, it ends at the introduction
      form of the store's type. */
  lemma {:induction false} ApplyCanonical(g: Ctx, c: Command, store: Term, a: Prop)
    requires g.additive == [] && |g.linear| != 1
    requires Computational(c.payload) && Infer(g, c.payload) == Some(Imp(a, a))
    requires Computational(store) && Infer(g, store) == Some(a)
    ensures Infer(g, ApplyCommand(c, store)) == Some(a)
    ensures Step(ApplyCommand(c, store)) == None <==> Canonical(ApplyCommand(c, store), a)
  {
    hide Infer, Reduce, Step, Every, Canonical, Focus;
    var t := App(c.payload, store);
    ApplicationTyped(g, c.payload, store, a);
    ApplicationEvery(c.payload, store, ComputationalNode);
    EveryImplies(t, ComputationalNode, CoreNode);
    RunPreservation(g, t, 1024);
    RunEvery(t, ComputationalNode, 1024);
    var r := ApplyCommand(c, store);
    EveryImplies(r, ComputationalNode, ThawedNode);
    ClosedProgress(g, r);
    if IsIntro(r) { CanonicalForms(g, r); }
    CanonicalIntro(r, a);
  }

  lemma CanonicalIntro(v: Term, a: Prop)
    ensures Canonical(v, a) ==> IsIntro(v)
  {
  }
}
