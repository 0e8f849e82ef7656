/** A hypothesis classified at a label cannot influence a run whose type is not classified:
    no reducing elimination inspects a term of type `a @ l`. */
module NonInterference {
  import opened Syntax
  import opened Substitution
  import opened Reduction
  import opened Typing
  import opened Safety

  /** Substituting for index 0 keeps the kind of every node but index 0 itself. */
  lemma SubstKind(t: Term, u: Term)
    requires t != Var(0)
    ensures var r := Subst(t, u);
      IsElim(r) == IsElim(t) && IsIntro(r) == IsIntro(t) && r.Sign? == t.Sign?
  {
    hide SubstAt, Children;
    SubstNode(t, u, 0);
  }

  lemma SubstScrutinee(t: Term, u: Term)
    requires IsElim(t) && t.m != Var(0)
    ensures IsElim(Subst(t, u)) && Scrutinee(Subst(t, u)) == Subst(Scrutinee(t), u)
  {
    hide SubstAt;
    var r := Subst(t, u);
    SubstNode(t, u, 0);
    SubstKind(t.m, u);
    assert Children(r)[0].term == Subst(Children(t)[0].term, u);
    assert t.Delegate? ==> Children(r)[1].term == Subst(Children(t)[1].term, u);
  }

  /** A stuck typed term other than the hypothesis itself stays stuck whatever replaces it. */
  lemma {:induction false} StuckSubst(c: Ctx, a: Prop, l: Label, t: Term, u: Term)
    requires Infer(c.ConsA(At(a, l)), t).Some? && Step(t) == None && t != Var(0)
    ensures Step(Subst(t, u)) == None
    decreases t
  {
    hide Infer, Step, SubstAt, Contract;
    var g := c.ConsA(At(a, l));
    StepCases(t);
    StepCases(Subst(t, u));
    SubstKind(t, u);
    if IsElim(t) {
      ElimTyping(g, t);
      HypothesisTyping(c, a, l);
      var s := Scrutinee(t);
      SubstScrutinee(t, u);
      if IsIntro(s) {
        ContractProgress(g, t);
      } else {
        SubstKind(s, u);
        StuckSubst(c, a, l, s, u);
      }
    }
  }

  lemma HypothesisTyping(c: Ctx, a: Prop, l: Label)
    ensures Infer(c.ConsA(At(a, l)), Var(0)) == Some(At(a, l)) && c.ConsA(At(a, l)).linear == c.linear
  {
  }

  /** Non-interference: a core term whose type is not classified runs in lockstep with its
      own open form, whatever term replaces the classified hypothesis. */
  lemma {:induction false} Lockstep(c: Ctx, a: Prop, l: Label, t: Term, u: Term, fuel: nat)
    requires |c.linear| != 1 && Core(t)
    requires Infer(c.ConsA(At(a, l)), t).Some? && !Infer(c.ConsA(At(a, l)), t).value.At?
    ensures var (r, steps) := Reduce(t, fuel);
      r != Var(0) && Reduce(Subst(t, u), fuel) == (Subst(r, u), steps)
    decreases fuel
  {
    hide *;
    var g := c.ConsA(At(a, l));
    HypothesisTyping(c, a, l);
    RunFirst(t, fuel);
    RunFirst(Subst(t, u), fuel);
    if fuel > 0 {
      if Step(t).Some? {
        StepSubst(t, u, 0);
        CommutesStep(t, u);
        CoreStep(t);
        CorePreserves(g, t);
        Lockstep(c, a, l, Step(t).value, u, fuel - 1);
      } else {
        StuckSubst(c, a, l, t, u);
      }
    }
  }

  lemma CorePreserves(c: Ctx, t: Term)
    requires |c.linear| != 1 && Core(t) && Infer(c, t).Some? && Step(t).Some?
    ensures Infer(c, Step(t).value) == Infer(c, t)
  {
    hide Infer, Step, Core;
    CoreStep(t);
    Preservation(c, t);
  }

  lemma CommutesStep(t: Term, u: Term)
    requires Commutes(t, u, 0) && Step(t).Some?
    ensures Step(Subst(t, u)) == Some(Subst(Step(t).value, u))
  {
    hide Step, SubstAt;
  }

  /** Two runs of one core term on any two classified inputs take the same number of steps
      and end at the same node. */
  lemma {:induction false} TwoRuns(c: Ctx, a: Prop, l: Label, t: Term, u: Term, v: Term, fuel: nat)
    requires |c.linear| != 1 && Core(t)
    requires Infer(c.ConsA(At(a, l)), t).Some? && !Infer(c.ConsA(At(a, l)), t).value.At?
    ensures var (r, m), (s, n) := Reduce(Subst(t, u), fuel), Reduce(Subst(t, v), fuel);
      m == n && Node(r) == Node(s)
  {
    hide Infer, Reduce, SubstAt, Core, Children, Node;
    Lockstep(c, a, l, t, u, fuel);
    Lockstep(c, a, l, t, v, fuel);
    var r := Reduce(t, fuel).0;
    SubstNode(r, u, 0);
    SubstNode(r, v, 0);
  }

  /** A bind escapes this: here is one whose type is not classified and whose run, after
      one step, is the run of the classified input itself. */
  lemma BindExposesInput(c: Ctx, p: Principal, a: Prop, l: Label, g: Signature, u: Term, fuel: nat)
    ensures var t := SaysBind(p, Sign(p, Var(0), g), Var(0));
      && Infer(c.ConsA(At(a, l)), t) == Some(Says(p, At(a, l)))
      && Reduce(Subst(t, u), fuel + 1) == (Reduce(u, fuel).0, Reduce(u, fuel).1 + 1)
  {
    BindTyping(c, p, a, l, g);
    hide Infer, SubstAt, Shift;
    var s, t := Sign(p, Var(0), g), SaysBind(p, Sign(p, Var(0), g), Var(0));
    SubstSaysBind(p, s, Var(0), u, 0);
    SubstSign(p, Var(0), g, u, 0);
    SubstNode(Var(0), u, 0);
    SubstNode(Var(0), u, 1);
    SubstNode(Var(0), u, 0);
    ShiftZero(u, 0);
    assert Subst(t, u) == SaysBind(p, Sign(p, u, g), Var(0));
    assert Step(Subst(t, u)) == Some(u);
  }

  lemma BindTyping(c: Ctx, p: Principal, a: Prop, l: Label, g: Signature)
    ensures Infer(c.ConsA(At(a, l)), SaysBind(p, Sign(p, Var(0), g), Var(0))) == Some(Says(p, At(a, l)))
  {
    var h := c.ConsA(At(a, l));
    assert Infer(h, Var(0)) == Some(At(a, l)) && Infer(h.ConsA(At(a, l)), Var(0)) == Some(At(a, l));
    assert Infer(h, Sign(p, Var(0), g)) == Some(Says(p, At(a, l)));
  }

  /** So does a tensor elimination: its body's index 1 is typed as the hypothesis `Top`, and
      bound to the classified input. */
  lemma TensorExposesInput(a: Prop, l: Label, u: Term)
    ensures var g, t := Ctx([At(a, l), Prop.Top], []), LetTensor(TensorIntro(HOLE, Var(0)), Var(1));
      && Infer(g, t) == Some(Prop.Top)
      && Step(Subst(t, u)) == Some(u)
  {
    TensorTyped(a, l);
    hide Infer, SubstAt, Shift, Step;
    var t, pair := LetTensor(TensorIntro(HOLE, Var(0)), Var(1)), TensorIntro(HOLE, u);
    SubstLetTensor(TensorIntro(HOLE, Var(0)), Var(1), u, 0);
    SubstTensorIntro(HOLE, Var(0), u, 0);
    SubstNode(HOLE, u, 0);
    SubstNode(Var(0), u, 0);
    SubstNode(Var(1), u, 2);
    ShiftZero(u, 0);
    ShiftNode(HOLE, 1, 0);
    assert Subst(t, u) == LetTensor(pair, Var(1));
    StepCases(LetTensor(pair, Var(1)));
    SubstNode(Var(1), HOLE, 0);
    SubstNode(Var(0), u, 0);
  }

  lemma TensorTyped(a: Prop, l: Label)
    ensures var g, t := Ctx([At(a, l), Prop.Top], []), LetTensor(TensorIntro(HOLE, Var(0)), Var(1));
      Infer(g, t) == Some(Prop.Top)
  {
    hide Infer;
    var g, t := Ctx([At(a, l), Prop.Top], []), LetTensor(TensorIntro(HOLE, Var(0)), Var(1));
    var h := g.ConsL(Prop.Top).ConsL(At(a, l));
    HoleTyped(g);
    InferIs(g, Var(0));
    InferIs(g, TensorIntro(HOLE, Var(0)));
    InferIs(h, Var(1));
    InferIs(g, t);
  }
}
