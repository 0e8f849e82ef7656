/** Type safety of reduction: which steps preserve types, when a typed term is stuck, and
    what that says about whole runs. */
module Safety {
  import opened Syntax
  import opened Substitution
  import opened Reduction
  import opened Typing

  // ---------------------------------------------------------------------------
  // Preservation
  // ---------------------------------------------------------------------------

  lemma ScrutineeTyped(g: Ctx, t: Term)
    requires IsElim(t) && Infer(g, t).Some?
    ensures Infer(g, t.m).Some? && Infer(g, Scrutinee(t)).Some?
  {
  }

  /** An elimination's type depends on its scrutinee only through the scrutinee's type. */
  lemma RefocusTyping(g: Ctx, t: Term, s: Term)
    requires IsElim(t) && !t.LetTensor? && Infer(g, s) == Infer(g, Scrutinee(t))
    ensures Infer(g, Refocus(t, s)) == Infer(g, t)
  {
    hide Infer;
    var u := Refocus(t, s);
    assert Node(u) == Node(t) && |Children(u)| == |Children(t)|;
    forall i | 0 <= i < |Children(u)|
      ensures TypedAlike(g, Children(u)[i], g, Children(t)[i])
    {
      assert Children(u)[i] == Children(t)[i]
        || (Children(u)[i] == Child(s, 0) && Children(t)[i] == Child(Scrutinee(t), 0));
    }
    InferAlike(g, u, g, t);
  }

  /** Subject reduction, for every redex but a modality-preserving bind. */
  lemma {:induction false} Preservation(g: Ctx, t: Term)
    requires |g.linear| != 1 && TensorElimFree(t)
    requires Infer(g, t).Some? && Step(t).Some? && !Focus(t).SaysBind?
    ensures Infer(g, Step(t).value) == Infer(g, t)
  {
    hide Infer, Step, Contract, TensorElimFree, Refocus;
    StepCases(t);
    TensorElimFreeParts(t);
    TensorElimFreeScrutinee(t);
    ScrutineeTyped(g, t);
    if IsIntro(Scrutinee(t)) {
      ContractTyping(g, t);
    } else {
      Preservation(g, Scrutinee(t));
      RefocusTyping(g, t, Step(Scrutinee(t)).value);
    }
  }

  lemma TensorElimFreeScrutinee(t: Term)
    requires IsElim(t) && TensorElimFree(t)
    ensures TensorElimFree(t.m) && TensorElimFree(Scrutinee(t))
  {
    hide TensorElimFree;
    TensorElimFreeFields(t);
  }

  /** The head rules keep types, except that a bind drops its modality. */
  lemma ContractTyping(g: Ctx, t: Term)
    requires |g.linear| != 1 && TensorElimFree(t) && IsElim(t)
    requires Infer(g, t).Some? && Contract(t).Some? && !t.SaysBind?
    ensures Infer(g, Contract(t).value) == Infer(g, t)
  {
    hide Infer, Contract, TensorElimFree;
    TensorElimFreeParts(t);
    match t
    case App(_, _) => TypingApp(g, t);
    case Case(_, _, _) => TypingCase(g, t);
    case LetSays(_, _, _) => TypingLetSays(g, t);
    case _ => TypingPlain(g, t);
  }

  lemma TypingApp(g: Ctx, t: Term)
    requires |g.linear| != 1 && TensorElimFree(t) && t.App?
    requires Infer(g, t).Some? && Contract(t).Some?
    ensures Infer(g, Contract(t).value) == Infer(g, t)
  {
    hide Infer, SubstAt, Shift, TensorElimFree;
    InferIs(g, t);
    InferIs(g, t.m);
    TensorElimFreeFields(t);
    TensorElimFreeFields(t.m);
    SubstitutingTop(g, t.m.dom, t.m.body, t.n);
  }

  lemma TypingCase(g: Ctx, t: Term)
    requires |g.linear| != 1 && TensorElimFree(t) && t.Case?
    requires Infer(g, t).Some? && Contract(t).Some?
    ensures Infer(g, Contract(t).value) == Infer(g, t)
  {
    hide Infer, SubstAt, Shift, TensorElimFree;
    InferIs(g, t);
    InferIs(g, t.m);
    TensorElimFreeFields(t);
    TensorElimFreeFields(t.m);
    var a := Infer(g, t.m.m).value;
    if t.m.Inl? { SubstitutingTop(g, a, t.left, t.m.m); } else { SubstitutingTop(g, a, t.right, t.m.m); }
  }

  lemma TypingLetSays(g: Ctx, t: Term)
    requires |g.linear| != 1 && TensorElimFree(t) && t.LetSays?
    requires Infer(g, t).Some? && Contract(t).Some?
    ensures Infer(g, Contract(t).value) == Infer(g, t)
  {
    hide Infer, SubstAt, Shift, TensorElimFree;
    InferIs(g, t);
    InferIs(g, t.m);
    TensorElimFreeFields(t);
    TensorElimFreeFields(t.m);
    SubstitutingTop(g, Infer(g, t.m.m).value, t.body, t.m.m);
  }

  /** The head rules that substitute nothing. */
  lemma TypingPlain(g: Ctx, t: Term)
    requires t.Fst? || t.Snd? || t.SfExtract? || t.Delegate? || t.Discharge? || t.RunCmd?
    requires Infer(g, t).Some? && Contract(t).Some?
    ensures Infer(g, Contract(t).value) == Infer(g, t)
  {
    hide Infer, SubstAt, Shift;
    var r := Contract(t).value;
    InferIs(g, t);
    InferIs(g, t.m);
    InferIs(g, r);
    if t.Delegate? { InferIs(g, t.n); }
    if t.RunCmd? { InferIs(g, r.m); }
  }

  /** A contracted bind loses exactly its modality. */
  lemma TypingSaysBind(g: Ctx, t: Term)
    requires |g.linear| != 1 && TensorElimFree(t) && t.SaysBind?
    requires Infer(g, t).Some? && Contract(t).Some?
    ensures exists b :: Infer(g, t) == Some(Says(t.p, b)) && Infer(g, Contract(t).value) == Some(b)
  {
    hide Infer, SubstAt, Shift, TensorElimFree;
    InferIs(g, t);
    InferIs(g, t.m);
    TensorElimFreeFields(t);
    TensorElimFreeFields(t.m);
    SubstitutingTop(g, Infer(g, t.m.m).value, t.body, t.m.m);
    assert Infer(g, t) == Some(Says(t.p, Infer(g.ConsA(Infer(g, t.m.m).value), t.body).value));
  }

  /** The redex a step fires is typed, and its type is kept exactly when it is not a bind. */
  lemma {:induction false} RedexPreservation(g: Ctx, t: Term)
    requires |g.linear| != 1 && TensorElimFree(t) && Infer(g, t).Some? && Step(t).Some?
    ensures Infer(g, Focus(t)).Some? && Step(Focus(t)).Some?
    ensures Infer(g, Step(Focus(t)).value) == Infer(g, Focus(t)) <==> !Focus(t).SaysBind?
  {
    hide Infer, Step, Contract, TensorElimFree, Refocus;
    StepCases(t);
    TensorElimFreeScrutinee(t);
    ScrutineeTyped(g, t);
    if IsIntro(Scrutinee(t)) {
      if t.SaysBind? {
        TypingSaysBind(g, t);
        var b :| Infer(g, t) == Some(Says(t.p, b)) && Infer(g, Contract(t).value) == Some(b);
        var says := Says(t.p, b);
        assert says.inner < says;
      } else {
        ContractTyping(g, t);
      }
    } else {
      RedexPreservation(g, Scrutinee(t));
    }
  }

  /** A tensor elimination is typed by its body with the outer hypotheses in scope, but it
      reduces to its body with the two components bound to indices 0 and 1: its type is kept
      exactly when those two readings of the body agree. */
  lemma {:induction false} TensorRedex(g: Ctx, a: Term, b: Term, body: Term)
    requires |g.linear| != 1 && TensorElimFree(a) && TensorElimFree(b) && TensorElimFree(body)
    requires Infer(g, a).Some? && Infer(g, b).Some?
    ensures var t, x, y := LetTensor(TensorIntro(a, b), body), Infer(g, a).value, Infer(g, b).value;
      && Step(t).Some?
      && Infer(g, t) == Infer(g.ConsL(x).ConsL(y), body)
      && Infer(g, Step(t).value) == Infer(g.ConsA(y).ConsA(x), body)
  {
    hide SubstAt, Shift, Infer, TensorElimFree, Every;
    var x, y, h := Infer(g, a).value, Infer(g, b).value, g.ConsA(Infer(g, b).value);
    TensorTyping(g, a, b, body);
    Weakening([], [y], g.additive, g.linear, a);
    assert [] + [y] + g.additive == [y] + g.additive && [] + g.additive == g.additive;
    assert Ctx(g.additive, g.linear) == g && Ctx([y] + g.additive, g.linear) == h;
    TensorElimFreeShift(a);
    SubstitutingTop(h, x, body, Shift(a, 1, 0));
    TensorElimFreeSubst(body, Shift(a, 1, 0));
    SubstitutingTop(g, y, Subst(body, Shift(a, 1, 0)), b);
  }

  lemma TensorTyping(g: Ctx, a: Term, b: Term, body: Term)
    requires Infer(g, a).Some? && Infer(g, b).Some?
    ensures Infer(g, LetTensor(TensorIntro(a, b), body))
      == Infer(g.ConsL(Infer(g, a).value).ConsL(Infer(g, b).value), body)
  {
    hide Infer;
    InferIs(g, LetTensor(TensorIntro(a, b), body));
    InferIs(g, TensorIntro(a, b));
  }

  lemma TensorElimFreeShift(t: Term)
    requires TensorElimFree(t)
    ensures TensorElimFree(Shift(t, 1, 0))
  {
    hide Shift, Every;
    ShiftEvery(t, NotTensorElim, 1, 0);
  }

  lemma TensorElimFreeSubst(t: Term, v: Term)
    requires TensorElimFree(t) && TensorElimFree(v)
    ensures TensorElimFree(Subst(t, v))
  {
    hide SubstAt, Every;
    SubstEvery(t, NotTensorElim, v, 0);
  }

  /** For instance: under a hypothesis of type `Atom(0)`, a tensor elimination of that type
      reduces to a proof of `Top`. */
  lemma TensorRedexChangesType()
    ensures var g, t := Ctx([Prop.Atom(0)], []), LetTensor(TensorIntro(HOLE, HOLE), Var(0));
      Infer(g, t) == Some(Prop.Atom(0)) && Step(t).Some? && Infer(g, Step(t).value) == Some(Prop.Top)
  {
    var g := Ctx([Prop.Atom(0)], []);
    assert Infer(g, TensorIntro(HOLE, HOLE)) == Some(Prop.Tensor(Prop.Top, Prop.Top));
    assert Subst(Var(0), Shift(HOLE, 1, 0)) == HOLE;
  }

  // ---------------------------------------------------------------------------
  // Progress
  // ---------------------------------------------------------------------------

  /** Which introduction form proves which proposition; the others have none. */
  predicate Canonical(v: Term, a: Prop)
  {
    match a
    case Top => v.Now?
    case Imp(_, _) => v.Lam?
    case And(_, _) => v.Pair?
    case Or(_, _) => v.Inl? || v.Inr?
    case Says(_, _) => v.Sign?
    case At(_, _) => v.LiftLabel?
    case Boxed(_, _) => v.Boxed?
    case Within(_, _) => v.WithinIntro?
    case Tensor(_, _) => v.TensorIntro?
    case Replicated(_, _) => v.Command?
    case _ => false
  }

  lemma CanonicalForms(g: Ctx, v: Term)
    requires IsIntro(v) && Infer(g, v).Some?
    ensures Canonical(v, Infer(g, v).value)
  {
  }

  /** A typed elimination of an introduction form always contracts. */
  lemma ContractProgress(g: Ctx, t: Term)
    requires IsElim(t) && Infer(g, t).Some? && IsIntro(Scrutinee(t))
    ensures Contract(t).Some?
  {
    hide Infer, SubstAt, Shift;
    ScrutineeTyped(g, t);
    ElimTyping(g, t);
    CanonicalForms(g, Scrutinee(t));
    if Scrutinee(t).Sign? { SignTyping(g, Scrutinee(t)); }
  }

  lemma SignTyping(g: Ctx, t: Term)
    requires t.Sign? && Infer(g, t).Some?
    ensures Infer(g, t).value.Says? && Infer(g, t).value.p == t.p
  {
  }

  /** The proposition each elimination needs of its scrutinee. */
  lemma ElimTyping(g: Ctx, t: Term)
    requires IsElim(t) && Infer(g, t).Some?
    ensures Infer(g, t.m).Some? && Infer(g, Scrutinee(t)).Some?
    ensures var a := Infer(g, t.m).value;
      match t
      case App(_, _) => a.Imp?
      case Fst(_) => a.And?
      case Snd(_) => a.And?
      case Case(_, _, _) => a.Or?
      case LetTensor(_, _) => a.Tensor?
      case SaysBind(p, _, _) => a.Says? && a.p == p
      case LetSays(p, _, _) => a.Says? && a.p == p
      case SfExtract(_) => a.Says?
      case Delegate(_, _) => a.Says? && Infer(g, t.n).Some? && Infer(g, t.n).value.Says?
      case Discharge(_, _) => a.Boxed?
      case RunCmd(_, _) => a.Replicated?
  {
  }

  /** Exactly when a typed term is normal, in any context: it is an introduction form, or
      its evaluation is waiting on a variable or on a form that is never computed. */
  lemma {:induction false} Progress(g: Ctx, t: Term)
    requires Infer(g, t).Some?
    ensures Step(t) == None <==> IsIntro(t) || Focus(t).Var? || IsFrozen(Focus(t))
    ensures Infer(g, Focus(t)).Some?
  {
    hide Infer, Step, Contract;
    StepCases(t);
    if IsElim(t) {
      ScrutineeTyped(g, t);
      if IsIntro(Scrutinee(t)) {
        ContractProgress(g, t);
      } else {
        Progress(g, Scrutinee(t));
      }
    }
  }

  // ---------------------------------------------------------------------------
  // Whole runs
  // ---------------------------------------------------------------------------

  /** Terms of the computational core: no tensor elimination and no bind. */
  predicate CoreNode(n: Term) { !n.LetTensor? && !n.SaysBind? }

  ghost predicate Core(t: Term)
  {
    Every(t, CoreNode)
  }

  /** ... and no form that is never computed. */
  predicate ComputationalNode(n: Term) { CoreNode(n) && !IsFrozen(n) }

  ghost predicate Computational(t: Term)
  {
    Every(t, ComputationalNode)
  }

  lemma {:induction false} EveryImplies(t: Term, p: Term -> bool, q: Term -> bool)
    requires Every(t, p) && forall n :: p(n) ==> q(n)
    ensures Every(t, q)
  {
    forall i | 0 <= i < |Children(t)|
      ensures Every(Children(t)[i].term, q)
    {
      EveryImplies(Children(t)[i].term, p, q);
    }
  }

  lemma {:induction false} EveryFocus(t: Term, p: Term -> bool)
    requires Every(t, p)
    ensures p(Node(Focus(t)))
  {
    if IsElim(t) {
      assert Children(t)[0].term == t.m;
      assert t.Delegate? ==> Children(t)[1].term == t.n;
      if !IsIntro(Scrutinee(t)) { EveryFocus(Scrutinee(t), p); }
    }
  }

  lemma CoreStep(t: Term)
    requires Core(t)
    ensures TensorElimFree(t) && !Focus(t).SaysBind?
    ensures Step(t).Some? ==> Core(Step(t).value)
  {
    hide Step, Every, Focus, Children;
    EveryImplies(t, CoreNode, NotTensorElim);
    EveryFocus(t, CoreNode);
    if Step(t).Some? { StepEvery(t, CoreNode); }
  }

  /** Core runs keep types. */
  lemma {:induction false} RunPreservation(g: Ctx, t: Term, fuel: nat)
    requires |g.linear| != 1 && Core(t) && Infer(g, t).Some?
    ensures Core(Reduce(t, fuel).0)
    ensures Infer(g, Reduce(t, fuel).0) == Infer(g, t)
    decreases fuel
  {
    hide Step, Infer, Core;
    CoreStep(t);
    if fuel > 0 && Step(t).Some? {
      Preservation(g, t);
      RunPreservation(g, Step(t).value, fuel - 1);
    }
  }

  /** No closed computational run gets stuck: one that stops before its fuel has reached the
      introduction form its type calls for. */
  lemma {:induction false} TypeSafety(g: Ctx, t: Term, fuel: nat)
    requires g.additive == [] && |g.linear| != 1 && Computational(t) && Infer(g, t).Some?
    ensures var (r, steps) := Reduce(t, fuel);
      Infer(g, r) == Infer(g, t) && (steps < fuel ==> Canonical(r, Infer(g, t).value))
  {
    hide Step, Infer, Every, Canonical, Focus, Reduce;
    EveryImplies(t, ComputationalNode, CoreNode);
    RunPreservation(g, t, fuel);
    RunEvery(t, ComputationalNode, fuel);
    var (r, steps) := Reduce(t, fuel);
    if steps < fuel {
      Progress(g, r);
      EveryFocus(r, ComputationalNode);
      FrozenNode(Focus(r));
      if Focus(r).Var? { InferVar(g, Focus(r)); }
      CanonicalForms(g, r);
    }
  }

  lemma FrozenNode(t: Term)
    ensures IsFrozen(Node(t)) == IsFrozen(t)
  {
  }

  predicate ThawedNode(n: Term) { !IsFrozen(n) }

  /** Progress: a typed term without hypotheses and without forms that are never computed,
      binds and tensor eliminations included, is normal only as an introduction form. */
  lemma {:induction false} ClosedProgress(g: Ctx, t: Term)
    requires g.additive == [] && |g.linear| != 1 && Every(t, ThawedNode) && Infer(g, t).Some?
    ensures Step(t) == None <==> IsIntro(t)
  {
    hide Step, Infer, Every, Focus;
    Progress(g, t);
    EveryFocus(t, ThawedNode);
    FrozenNode(Focus(t));
    if Focus(t).Var? { InferVar(g, Focus(t)); }
  }

  /** But a run that fires a bind can get stuck: the bind loses the modality its context
      eliminates. */
  lemma BindGetsStuck(g: Ctx, p: Principal, s: Signature)
    ensures var t := LetSays(p, SaysBind(p, Sign(p, HOLE, s), HOLE), HOLE);
      && Infer(g, t) == Some(Prop.Top)
      && Step(t) == Some(LetSays(p, HOLE, HOLE)) && Step(LetSays(p, HOLE, HOLE)) == None
      && !IsIntro(LetSays(p, HOLE, HOLE))
  {
    BindTyped(g, p, s);
    var b := SaysBind(p, Sign(p, HOLE, s), HOLE);
    assert Step(b) == Some(HOLE);
  }

  lemma BindTyped(g: Ctx, p: Principal, s: Signature)
    ensures Infer(g, LetSays(p, SaysBind(p, Sign(p, HOLE, s), HOLE), HOLE)) == Some(Prop.Top)
  {
    hide Infer;
    var b := SaysBind(p, Sign(p, HOLE, s), HOLE);
    HoleTyped(g);
    HoleTyped(g.ConsA(Prop.Top));
    InferIs(g, Sign(p, HOLE, s));
    InferIs(g, b);
    InferIs(g, LetSays(p, b, HOLE));
  }

  /** And a step that fires a bind may happen to keep the type of the whole term. */
  lemma BindKeepsOuterType(g: Ctx, p: Principal, s: Signature)
    ensures var sign := Sign(p, HOLE, s);
      var t := LetSays(p, SaysBind(p, sign, sign), HOLE);
      && Focus(t) == SaysBind(p, sign, sign) && Step(t) == Some(LetSays(p, sign, HOLE))
      && Infer(g, t) == Some(Prop.Top) == Infer(g, LetSays(p, sign, HOLE))
  {
    OuterTyped(g, p, s);
    SubstSign(p, HOLE, s, HOLE, 0);
    SubstNode(HOLE, HOLE, 0);
    assert Step(SaysBind(p, Sign(p, HOLE, s), Sign(p, HOLE, s))) == Some(Sign(p, HOLE, s));
  }

  lemma OuterTyped(g: Ctx, p: Principal, s: Signature)
    ensures var sign := Sign(p, HOLE, s);
      Infer(g, LetSays(p, SaysBind(p, sign, sign), HOLE)) == Some(Prop.Top) == Infer(g, LetSays(p, sign, HOLE))
  {
    hide Infer;
    var sign, h := Sign(p, HOLE, s), g.ConsA(Prop.Top);
    var b, k := SaysBind(p, sign, sign), g.ConsA(Says(p, Prop.Top));
    HoleTyped(g);
    HoleTyped(h);
    HoleTyped(k);
    InferIs(g, sign);
    InferIs(h, sign);
    InferIs(g, b);
    InferIs(g, LetSays(p, b, HOLE));
    InferIs(g, LetSays(p, sign, HOLE));
  }
}
