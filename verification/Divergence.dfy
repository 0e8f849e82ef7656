/** Tensor eliminations break normalization: a closed term of type `Top` that runs forever. */
module Divergence {
  import opened Syntax
  import opened Substitution
  import opened Reduction
  import opened Typing

  /** A term typed `a` under one hypothesis of type `a`, whatever `x` is, that evaluates to
      `x`: the body's index 0 is typed as the hypothesis and bound to `x`. */
  function Cast(a: Prop, x: Term, d: Term): Term
  {
    App(Lam(a, CastBody(x)), d)
  }

  function CastBody(x: Term): Term { LetTensor(TensorIntro(x, HOLE), Var(0)) }

  const ARROW: Prop := Imp(Prop.Top, Prop.Top)
  const IDENTITY: Term := Lam(Prop.Top, Var(0))
  const SELF: Term := Lam(Prop.Top, App(Cast(ARROW, Var(1), IDENTITY), Var(0)))
  const SELF_TOP: Term := Cast(Prop.Top, SELF, HOLE)
  const LOOP: Term := App(SELF, SELF_TOP)

  lemma CastTyped(c: Ctx, a: Prop, x: Term, d: Term)
    requires |c.linear| != 1
    requires Infer(c.ConsA(a), x).Some? && Infer(c, d) == Some(a)
    ensures Infer(c, Cast(a, x, d)) == Some(a)
  {
    var g, b := c.ConsA(a), Infer(c.ConsA(a), x).value;
    assert Infer(c.ConsA(a), HOLE) == Some(Prop.Top);
    InferIs(g, TensorIntro(x, HOLE));
    assert Infer(g.ConsL(b).ConsL(Prop.Top), Var(0)) == Some(a);
    assert Infer(g, CastBody(x)) == Some(a);
    assert Infer(c, Lam(a, CastBody(x))) == Some(Imp(a, a));
  }

  lemma CastSteps(a: Prop, x: Term, d: Term)
    requires Scoped(x, 0)
    ensures Step(Cast(a, x, d)) == Some(CastBody(x)) && Step(CastBody(x)) == Some(x)
  {
    hide Step, SubstAt, Shift;
    var b := CastBody(x);
    StepCases(Cast(a, x, d));
    StepCases(b);
    SubstLetTensor(TensorIntro(x, HOLE), Var(0), d, 0);
    SubstTensorIntro(x, HOLE, d, 0);
    SubstNode(Var(0), d, 2);
    SubstClosed(x, d, 0);
    ShiftClosed(x, 1, 0);
    SubstNode(Var(0), x, 0);
    SubstClosed(x, HOLE, 0);
    ShiftZero(x, 0);
    SubstClosed(HOLE, d, 0);
  }

  lemma StepInFunction(f: Term, x: Term)
    requires Step(f).Some?
    ensures Step(App(f, x)) == Some(App(Step(f).value, x))
  {
    hide Step;
    StepsIsElim(f);
    StepCases(App(f, x));
  }

  lemma SelfStep(x: Term)
    requires Scoped(x, 0)
    ensures Step(App(SELF, x)) == Some(App(Cast(ARROW, x, IDENTITY), x))
  {
    hide Step, SubstAt, Shift;
    StepCases(App(SELF, x));
    SubstApp(Cast(ARROW, Var(1), IDENTITY), Var(0), x, 0);
    SubstApp(Lam(ARROW, CastBody(Var(1))), IDENTITY, x, 0);
    SubstLam(ARROW, CastBody(Var(1)), x, 0);
    SubstLetTensor(TensorIntro(Var(1), HOLE), Var(0), x, 1);
    SubstTensorIntro(Var(1), HOLE, x, 1);
    SubstNode(Var(1), x, 1);
    SubstNode(Var(0), x, 0);
    SubstNode(Var(0), x, 3);
    ShiftClosed(x, 1, 0);
    ShiftZero(x, 0);
    SubstClosed(HOLE, x, 1);
    SubstClosed(IDENTITY, x, 0);
  }

  lemma CastScoped(a: Prop, x: Term, d: Term, k: nat)
    requires Scoped(x, k + 1) && Scoped(d, k)
    ensures Scoped(Cast(a, x, d), k)
  {
    hide Scoped;
    var y, b, l := TensorIntro(x, HOLE), CastBody(x), Lam(a, CastBody(x));
    NowScoped(HOLE, k + 1);
    VarScoped(0, k + 3);
    assert Children(y) == [Child(x, 0), Child(HOLE, 0)] && Children(b) == [Child(y, 0), Child(Var(0), 2)];
    assert Children(l) == [Child(b, 1)] && Children(Cast(a, x, d)) == [Child(l, 0), Child(d, 0)];
    ScopedChildren(y, k + 1);
    ScopedChildren(b, k + 1);
    ScopedChildren(l, k);
    ScopedChildren(Cast(a, x, d), k);
  }

  lemma NowScoped(t: Term, k: nat)
    requires t.Now?
    ensures Scoped(t, k)
  {
  }

  lemma VarScoped(i: nat, k: nat)
    ensures Scoped(Var(i), k) == (i < k)
  {
  }

  lemma LoopScoped()
    ensures Scoped(SELF, 0) && Scoped(SELF_TOP, 0) && Scoped(IDENTITY, 0)
  {
    hide Scoped, Cast;
    VarScoped(0, 1);
    VarScoped(0, 2);
    VarScoped(1, 2);
    NowScoped(HOLE, 0);
    ScopedChildren(IDENTITY, 0);
    ScopedChildren(IDENTITY, 1);
    var c := Cast(ARROW, Var(1), IDENTITY);
    CastScoped(ARROW, Var(1), IDENTITY, 1);
    assert Children(App(c, Var(0))) == [Child(c, 0), Child(Var(0), 0)] && Children(SELF) == [Child(App(c, Var(0)), 1)];
    ScopedChildren(App(c, Var(0)), 1);
    ScopedChildren(SELF, 0);
    ScopedMore(SELF, 0, 1);
    CastScoped(Prop.Top, SELF, HOLE, 0);
  }

  /** Five steps bring the loop back to itself. */
  lemma {:induction false} LoopCycles()
    ensures Reduce(LOOP, 5) == (LOOP, 5)
  {
    hide Step, Reduce, Scoped, Cast, CastBody;
    LoopScoped();
    var x := SELF_TOP;
    SelfStep(x);
    CastSteps(ARROW, x, IDENTITY);
    CastSteps(Prop.Top, SELF, HOLE);
    StepInFunction(Cast(ARROW, x, IDENTITY), x);
    StepInFunction(CastBody(x), x);
    StepInFunction(x, x);
    StepInFunction(CastBody(SELF), x);
    RunFirst(LOOP, 5);
    RunFirst(App(Cast(ARROW, x, IDENTITY), x), 4);
    RunFirst(App(CastBody(x), x), 3);
    RunFirst(App(x, x), 2);
    RunFirst(App(CastBody(SELF), x), 1);
    RunFirst(LOOP, 0);
  }

  /** So the loop is a closed term of type `Top` that no amount of fuel normalizes. */
  lemma {:induction false} LoopDiverges(fuel: nat)
    ensures Infer(Ctx([], []), LOOP) == Some(Prop.Top)
    ensures Reduce(LOOP, fuel).1 == fuel
  {
    hide Infer, Reduce;
    LoopTyped();
    LoopRuns(fuel);
  }

  lemma {:induction false} LoopRuns(fuel: nat)
    ensures Reduce(LOOP, fuel).1 == fuel
  {
    hide Reduce;
    LoopCycles();
    if fuel >= 5 {
      LoopRuns(fuel - 5);
      ReduceMore(LOOP, 5, fuel - 5);
    } else {
      ReduceLess(LOOP, fuel, 5);
    }
  }

  lemma {:induction false} ReduceLess(t: Term, n: nat, k: nat)
    requires n <= k && Reduce(t, k).1 == k
    ensures Reduce(t, n).1 == n
    decreases n
  {
    hide Step;
    if n > 0 { ReduceLess(Step(t).value, n - 1, k - 1); }
  }

  lemma SelfTyped(c: Ctx)
    requires |c.linear| != 1
    ensures Infer(c, SELF) == Some(ARROW)
  {
    hide Cast;
    var g, f := c.ConsA(Prop.Top), Cast(ARROW, Var(1), IDENTITY);
    assert Infer(g.ConsA(Prop.Top), Var(0)) == Some(Prop.Top);
    assert Infer(g, IDENTITY) == Some(ARROW);
    assert Infer(g.ConsA(ARROW), Var(1)) == Some(Prop.Top);
    CastTyped(g, ARROW, Var(1), IDENTITY);
    assert Infer(g, Var(0)) == Some(Prop.Top);
    assert Infer(g, App(f, Var(0))) == Some(Prop.Top);
  }

  lemma LoopTyped()
    ensures Infer(Ctx([], []), LOOP) == Some(Prop.Top)
  {
    hide Cast, Infer;
    var c := Ctx([], []);
    SelfTyped(c);
    SelfTyped(c.ConsA(Prop.Top));
    HoleTyped(c);
    CastTyped(c, Prop.Top, SELF, HOLE);
    AppTyped(c, SELF, SELF_TOP);
  }

  lemma AppTyped(c: Ctx, f: Term, x: Term)
    requires Infer(c, f).Some? && Infer(c, f).value.Imp? && Infer(c, x) == Some(Infer(c, f).value.left)
    ensures Infer(c, App(f, x)) == Some(Infer(c, f).value.right)
  {
  }
}
