/** Small-step call-by-name reduction, the fuelled reducer, and what every run keeps. */
module Reduction {
  import opened Syntax
  import opened Substitution

  /** One deterministic step, or `None` for introduction forms, frozen forms and stuck terms. */
  function Step(t: Term): Option<Term>
  {
    match t
    case App(f, x) => (
      match f
      case Lam(_, body) => Some(Subst(body, x))
      case _ => match Step(f) case Some(g) => Some(App(g, x)) case None => None
    )
    case Fst(m) => (
      match m
      case Pair(a, _) => Some(a)
      case _ => match Step(m) case Some(s) => Some(Fst(s)) case None => None
    )
    case Snd(m) => (
      match m
      case Pair(_, b) => Some(b)
      case _ => match Step(m) case Some(s) => Some(Snd(s)) case None => None
    )
    case Case(m, l, r) => (
      match m
      case Inl(_, a) => Some(Subst(l, a))
      case Inr(_, a) => Some(Subst(r, a))
      case _ => match Step(m) case Some(s) => Some(Case(s, l, r)) case None => None
    )
    case LetTensor(m, body) => (
      match m
      case TensorIntro(a, b) => Some(Subst(Subst(body, Shift(a, 1, 0)), b))
      case _ => match Step(m) case Some(s) => Some(LetTensor(s, body)) case None => None
    )
    case SaysBind(p, m, body) => (
      match m
      case Sign(q, a, _) => if p == q then Some(Subst(body, a)) else None
      case _ => match Step(m) case Some(s) => Some(SaysBind(p, s, body)) case None => None
    )
    case LetSays(p, m, body) => (
      match m
      case Sign(q, a, _) => if p == q then Some(Subst(body, a)) else None
      case _ => match Step(m) case Some(s) => Some(LetSays(p, s, body)) case None => None
    )
    case SfExtract(m) => (
      match m
      case Sign(_, a, _) => Some(a)
      case _ => match Step(m) case Some(s) => Some(SfExtract(s)) case None => None
    )
    case Delegate(m, n) => (
      match m
      case Sign(p, _, _) => (
        match n
        case Sign(q, b, g) => Some(Sign(Principal.Acting(p, q), b, g))
        case _ => match Step(n) case Some(s) => Some(Delegate(m, s)) case None => None
      )
      case _ => match Step(m) case Some(s) => Some(Delegate(s, n)) case None => None
    )
    case Discharge(m, n) => (
      match m
      case Boxed(_, a, _) => Some(a)
      case _ => match Step(m) case Some(s) => Some(Discharge(s, n)) case None => None
    )
    case RunCmd(m, n) => (
      match m
      case Command(a, _, l) => Some(LiftLabel(l, App(a, n)))
      case _ => match Step(m) case Some(s) => Some(RunCmd(s, n)) case None => None
    )
    case _ => None
  }

  // ---------------------------------------------------------------------------
  // Evaluation positions
  // ---------------------------------------------------------------------------

  predicate IsElim(t: Term) {
    t.App? || t.Fst? || t.Snd? || t.Case? || t.LetTensor? || t.SaysBind? || t.LetSays?
    || t.SfExtract? || t.Delegate? || t.Discharge? || t.RunCmd?
  }

  predicate IsIntro(t: Term) {
    t.Lam? || t.Sign? || t.Boxed? || t.LiftLabel? || t.Now? || t.WithinIntro? || t.Pair?
    || t.Inl? || t.Inr? || t.TensorIntro? || t.Command?
  }

  /** The eliminations that are checked elsewhere and never computed. */
  predicate IsFrozen(t: Term) {
    t.Verify? || t.Attenuate? || t.Declassify?
  }

  /** The subterm an elimination form evaluates: its first one, except that a delegation
      moves on to its second once the first is signed. */
  function Scrutinee(t: Term): (s: Term)
    requires IsElim(t)
    ensures s < t
  {
    if t.Delegate? && t.m.Sign? then t.n else t.m
  }

  function Refocus(t: Term, s: Term): (u: Term)
    requires IsElim(t)
    ensures IsElim(u)
  {
    match t
    case App(_, x) => App(s, x)
    case Fst(_) => Fst(s)
    case Snd(_) => Snd(s)
    case Case(_, l, r) => Case(s, l, r)
    case LetTensor(_, body) => LetTensor(s, body)
    case SaysBind(p, _, body) => SaysBind(p, s, body)
    case LetSays(p, _, body) => LetSays(p, s, body)
    case SfExtract(_) => SfExtract(s)
    case Delegate(m, n) => if m.Sign? then Delegate(m, s) else Delegate(s, n)
    case Discharge(_, n) => Discharge(s, n)
    case RunCmd(_, n) => RunCmd(s, n)
  }

  /** The head rules: an elimination meeting an introduction. */
  function Contract(t: Term): Option<Term>
    requires IsElim(t)
  {
    match t
    case App(Lam(_, body), x) => Some(Subst(body, x))
    case Fst(Pair(a, _)) => Some(a)
    case Snd(Pair(_, b)) => Some(b)
    case Case(Inl(_, a), l, _) => Some(Subst(l, a))
    case Case(Inr(_, a), _, r) => Some(Subst(r, a))
    case LetTensor(TensorIntro(a, b), body) => Some(Subst(Subst(body, Shift(a, 1, 0)), b))
    case SaysBind(p, Sign(q, a, _), body) => if p == q then Some(Subst(body, a)) else None
    case LetSays(p, Sign(q, a, _), body) => if p == q then Some(Subst(body, a)) else None
    case SfExtract(Sign(_, a, _)) => Some(a)
    case Delegate(Sign(p, _, _), Sign(q, b, g)) => Some(Sign(Principal.Acting(p, q), b, g))
    case Discharge(Boxed(_, a, _), _) => Some(a)
    case RunCmd(Command(a, _, l), n) => Some(LiftLabel(l, App(a, n)))
    case _ => None
  }

  /** Contract when the scrutinee is an introduction form, else step in it. */
  function StepByFocus(t: Term): Option<Term>
  {
    if !IsElim(t) then None
    else if IsIntro(Scrutinee(t)) then Contract(t)
    else match Step(Scrutinee(t)) case Some(s) => Some(Refocus(t, s)) case None => None
  }

  /** This is exactly what reduction does. */
  lemma StepCases(t: Term)
    ensures Step(t) == StepByFocus(t)
  {
    hide Step, StepByFocus;
    if t.App? || t.Case? || t.LetTensor? || t.SaysBind? || t.LetSays? {
      StepBinding(t);
    } else if t.Fst? || t.Snd? || t.SfExtract? {
      StepUnary(t);
    } else if IsElim(t) {
      StepPlain(t);
    } else {
      StepRest(t);
    }
  }

  lemma StepBinding(t: Term)
    requires t.App? || t.Case? || t.LetTensor? || t.SaysBind? || t.LetSays?
    ensures Step(t) == StepByFocus(t)
  {
    hide Subst, Shift;
  }

  lemma StepUnary(t: Term)
    requires t.Fst? || t.Snd? || t.SfExtract?
    ensures Step(t) == StepByFocus(t)
  {
    hide Subst, Shift;
  }

  lemma StepPlain(t: Term)
    requires t.Delegate? || t.Discharge? || t.RunCmd?
    ensures Step(t) == StepByFocus(t)
  {
    hide Subst, Shift;
  }

  lemma StepsIsElim(t: Term)
    requires Step(t).Some?
    ensures IsElim(t)
  {
  }

  lemma StepRest(t: Term)
    requires !IsElim(t)
    ensures Step(t) == None == StepByFocus(t)
  {
  }

  /** The head rules that bind: the argument, the component or the signed body takes the place
      of the bound variable. */
  lemma BindingRules(a: Prop, b: Term, m: Term, n: Term, l: Term, r: Term)
    ensures Step(App(Lam(a, b), n)) == Some(Subst(b, n))
    ensures Step(Case(Inl(a, m), l, r)) == Some(Subst(l, m)) && Step(Case(Inr(a, m), l, r)) == Some(Subst(r, m))
    ensures Step(LetTensor(TensorIntro(m, n), b)) == Some(Subst(Subst(b, Shift(m, 1, 0)), n))
  {
    hide Step, Subst, Shift;
    StepCases(App(Lam(a, b), n));
    StepCases(Case(Inl(a, m), l, r));
    StepCases(Case(Inr(a, m), l, r));
    StepCases(LetTensor(TensorIntro(m, n), b));
  }

  lemma ModalRules(b: Term, m: Term, p: Principal, q: Principal, g: Signature)
    ensures Step(SaysBind(p, Sign(q, m, g), b)) == if p == q then Some(Subst(b, m)) else None
    ensures Step(LetSays(p, Sign(q, m, g), b)) == if p == q then Some(Subst(b, m)) else None
  {
    hide Step, Subst, Shift;
    StepCases(SaysBind(p, Sign(q, m, g), b));
    StepCases(LetSays(p, Sign(q, m, g), b));
  }

  /** The others. A delegation re-attributes the second signature to the two principals acting
      together, and drops the first. */
  lemma SignedRules(m: Term, n: Term, p: Principal, q: Principal, g: Signature, h: Signature)
    ensures Step(SfExtract(Sign(p, m, g))) == Some(m)
    ensures Step(Delegate(Sign(p, m, g), Sign(q, n, h))) == Some(Sign(Principal.Acting(p, q), n, h))
  {
    hide Step, Subst, Shift;
    StepCases(SfExtract(Sign(p, m, g)));
    StepCases(Delegate(Sign(p, m, g), Sign(q, n, h)));
  }

  lemma PlainRules(m: Term, n: Term, l: Term, r: Term, o: Obligation, k: Label)
    ensures Step(Fst(Pair(m, n))) == Some(m) && Step(Snd(Pair(m, n))) == Some(n)
    ensures Step(Discharge(Term.Boxed(o, m, l), r)) == Some(m)
    ensures Step(RunCmd(Command(m, n, k), r)) == Some(LiftLabel(k, App(m, r)))
  {
    hide Step, Subst, Shift;
    StepCases(Fst(Pair(m, n)));
    StepCases(Snd(Pair(m, n)));
    StepCases(Discharge(Term.Boxed(o, m, l), r));
    StepCases(RunCmd(Command(m, n, k), r));
  }

  /** The subterm that decides what happens next, found along the evaluation positions. */
  function Focus(t: Term): Term
  {
    if IsElim(t) && !IsIntro(Scrutinee(t)) then Focus(Scrutinee(t)) else t
  }

  // ---------------------------------------------------------------------------
  // The fuelled reducer
  // ---------------------------------------------------------------------------

  /** The result of at most `fuel` steps, and how many were taken. */
  function Reduce(t: Term, fuel: nat): (r: (Term, nat))
    ensures r.1 <= fuel
    ensures r.1 < fuel ==> Step(r.0) == None
    decreases fuel
  {
    if fuel == 0 then (t, 0)
    else match Step(t)
      case None => (t, 0)
      case Some(u) => var (v, k) := Reduce(u, fuel - 1); (v, k + 1)
  }

  lemma RunFirst(t: Term, fuel: nat)
    ensures Reduce(t, fuel) ==
      if fuel == 0 || Step(t).None? then (t, 0)
      else (Reduce(Step(t).value, fuel - 1).0, Reduce(Step(t).value, fuel - 1).1 + 1)
  {
    hide Step;
  }

  method ReduceWithFuel(t: Term, fuel: nat) returns (r: Term, steps: nat)
    ensures (r, steps) == Reduce(t, fuel)
    ensures steps <= fuel && (steps < fuel ==> Step(r) == None)
  {
    hide Step;
    r := t;
    for n := 0 to fuel
      invariant Reduce(t, fuel) == (Reduce(r, fuel - n).0, n + Reduce(r, fuel - n).1)
    {
      match Step(r) {
        case Some(next) => r := next;
        case None => return r, n;
      }
    }
    return r, fuel;
  }

  /** Two runs in sequence are one run. */
  lemma {:induction false} ReduceMore(t: Term, n: nat, k: nat)
    requires Reduce(t, n).1 == n
    ensures Reduce(t, n + k) == (Reduce(Reduce(t, n).0, k).0, n + Reduce(Reduce(t, n).0, k).1)
    decreases n
  {
    hide Step;
    if n > 0 {
      ReduceMore(Step(t).value, n - 1, k);
    }
  }

  // ---------------------------------------------------------------------------
  // What every run keeps
  // ---------------------------------------------------------------------------

  /** A node predicate reduction cannot break: the nodes it creates (variables, the
      application and label lift of a command run, and a signature re-attributed to a
      composite principal) satisfy it. */
  ghost predicate Admissible(p: Term -> bool)
  {
    && (forall i: nat :: p(Var(i)))
    && p(App(HOLE, HOLE))
    && (forall l: Label :: p(LiftLabel(l, HOLE)))
    && (forall q: Principal, q': Principal, g: Signature {:trigger p(Sign(q, HOLE, g)), p(Sign(q', HOLE, g))} ::
          p(Sign(q, HOLE, g)) ==> p(Sign(q', HOLE, g)))
  }

  lemma {:induction false} ShiftEvery(t: Term, p: Term -> bool, d: nat, c: nat)
    requires Admissible(p) && Every(t, p)
    ensures Every(Shift(t, d, c), p)
  {
    hide Shift, Children, Node;
    var cs, u := Children(t), Shift(t, d, c);
    ShiftNode(t, d, c);
    VarLeaf(t);
    VarLeaf(u);
    if !t.Var? {
      forall i | 0 <= i < |cs|
        ensures Every(Children(u)[i].term, p)
      {
        ShiftEvery(cs[i].term, p, d, c + cs[i].binders);
      }
    }
  }

  lemma VarLeaf(t: Term)
    ensures t.Var? ==> Node(t) == t && Children(t) == []
  {
  }

  lemma {:induction false} SubstEvery(t: Term, p: Term -> bool, v: Term, k: nat)
    requires Admissible(p) && Every(t, p) && Every(v, p)
    ensures Every(SubstAt(t, v, k), p)
  {
    hide Shift, SubstAt, Children, Node;
    var cs, u := Children(t), SubstAt(t, v, k);
    SubstNode(t, v, k);
    VarLeaf(t);
    VarLeaf(u);
    if t.Var? {
      ShiftEvery(v, p, k, 0);
    } else {
      forall i | 0 <= i < |cs|
        ensures Every(Children(u)[i].term, p)
      {
        SubstEvery(cs[i].term, p, v, k + cs[i].binders);
      }
    }
  }

  lemma {:induction false} StepEvery(t: Term, p: Term -> bool)
    requires Admissible(p) && Every(t, p) && Step(t).Some?
    ensures Every(Step(t).value, p)
  {
    hide Step, Contract, Shift, SubstAt;
    StepCases(t);
    var s := Scrutinee(t);
    assert Children(t)[0].term == t.m;
    assert t.Delegate? ==> Children(t)[1].term == t.n;
    if IsIntro(s) {
      ContractEvery(t, p);
    } else {
      StepEvery(s, p);
      RefocusEvery(t, p, Step(s).value);
    }
  }

  lemma RefocusEvery(t: Term, p: Term -> bool, s: Term)
    requires IsElim(t) && Every(t, p) && Every(s, p)
    ensures Every(Refocus(t, s), p)
  {
    var u := Refocus(t, s);
    assert Node(u) == Node(t) && |Children(u)| == |Children(t)|;
    forall i | 0 <= i < |Children(u)|
      ensures Every(Children(u)[i].term, p)
    {
      assert Children(u)[i].term == s || Children(u)[i] == Children(t)[i];
    }
  }

  lemma ContractEvery(t: Term, p: Term -> bool)
    requires Admissible(p) && Every(t, p) && IsElim(t) && Contract(t).Some?
    ensures Every(Contract(t).value, p)
  {
    hide Shift, SubstAt;
    var cs := Children(t);
    var m := t.m;
    assert cs[0].term == m && Every(m, p);
    if |cs| > 1 { assert Every(cs[1].term, p); }
    if |cs| > 2 { assert Every(cs[2].term, p); }
    if |Children(m)| > 0 { assert Every(Children(m)[0].term, p); }
    if |Children(m)| > 1 { assert Every(Children(m)[1].term, p); }
    match t
    case App(Lam(_, body), x) => SubstEvery(body, p, x, 0);
    case Case(Inl(_, a), l, _) => SubstEvery(l, p, a, 0);
    case Case(Inr(_, a), _, r) => SubstEvery(r, p, a, 0);
    case LetTensor(TensorIntro(a, b), body) =>
      ShiftEvery(a, p, 1, 0);
      SubstEvery(body, p, Shift(a, 1, 0), 0);
      SubstEvery(Subst(body, Shift(a, 1, 0)), p, b, 0);
    case SaysBind(_, Sign(_, a, _), body) => SubstEvery(body, p, a, 0);
    case LetSays(_, Sign(_, a, _), body) => SubstEvery(body, p, a, 0);
    case Delegate(Sign(_, _, _), Sign(q, b, g)) =>
      assert Every(Children(t.n)[0].term, p) && p(Sign(q, HOLE, g));
    case RunCmd(Command(a, _, l), n) =>
      assert Children(App(a, n)) == [Child(a, 0), Child(n, 0)];
    case _ =>
  }

  lemma {:induction false} RunEvery(t: Term, p: Term -> bool, fuel: nat)
    requires Admissible(p) && Every(t, p)
    ensures Every(Reduce(t, fuel).0, p)
    decreases fuel
  {
    hide Step, Every;
    if fuel > 0 && Step(t).Some? {
      StepEvery(t, p);
      RunEvery(Step(t).value, p, fuel - 1);
    }
  }

  /** The obligations carried by the boxes of a term, and the signatures it carries. */
  ghost function Obligations(t: Term): set<Obligation> {
    (if t.Boxed? then {t.o} else {}) +
    set i, o | 0 <= i < |Children(t)| && o in Obligations(Children(t)[i].term) :: o
  }

  ghost function Signatures(t: Term): set<Signature> {
    (if t.Sign? || t.Verify? then {t.sig} else {}) +
    set i, g | 0 <= i < |Children(t)| && g in Signatures(Children(t)[i].term) :: g
  }

  lemma {:induction false} ObligationsEvery(t: Term, os: set<Obligation>)
    ensures Every(t, (n: Term) => n.Boxed? ==> n.o in os) <==> Obligations(t) <= os
  {
    hide Children;
    var p := (n: Term) => n.Boxed? ==> n.o in os;
    forall i | 0 <= i < |Children(t)|
      ensures Every(Children(t)[i].term, p) <==> Obligations(Children(t)[i].term) <= os
    {
      ObligationsEvery(Children(t)[i].term, os);
    }
  }

  lemma {:induction false} SignaturesEvery(t: Term, gs: set<Signature>)
    ensures Every(t, (n: Term) => n.Sign? || n.Verify? ==> n.sig in gs) <==> Signatures(t) <= gs
  {
    hide Children;
    var p := (n: Term) => n.Sign? || n.Verify? ==> n.sig in gs;
    forall i | 0 <= i < |Children(t)|
      ensures Every(Children(t)[i].term, p) <==> Signatures(Children(t)[i].term) <= gs
    {
      SignaturesEvery(Children(t)[i].term, gs);
    }
  }

  /** Reduction invents neither obligations nor signatures, over any number of steps. */
  lemma {:induction false} RunInventsNothing(t: Term, fuel: nat)
    ensures Obligations(Reduce(t, fuel).0) <= Obligations(t)
    ensures Signatures(Reduce(t, fuel).0) <= Signatures(t)
  {
    hide *;
    var r, os, gs := Reduce(t, fuel).0, Obligations(t), Signatures(t);
    ObligationsEvery(t, os);
    ObligationsEvery(r, os);
    SignaturesEvery(t, gs);
    SignaturesEvery(r, gs);
    ObligationPredicateAdmissible(os);
    SignaturePredicateAdmissible(gs);
    RunEvery(t, (n: Term) => n.Boxed? ==> n.o in os, fuel);
    RunEvery(t, (n: Term) => n.Sign? || n.Verify? ==> n.sig in gs, fuel);
  }

  lemma ObligationPredicateAdmissible(os: set<Obligation>)
    ensures Admissible((n: Term) => n.Boxed? ==> n.o in os)
  {
  }

  lemma SignaturePredicateAdmissible(gs: set<Signature>)
    ensures Admissible((n: Term) => n.Sign? || n.Verify? ==> n.sig in gs)
  {
  }

  /** A step leaks no scope. */
  lemma {:induction false} StepScoped(t: Term, k: nat)
    requires Scoped(t, k) && Step(t).Some?
    ensures Scoped(Step(t).value, k)
  {
    hide Step, Contract, Shift, SubstAt;
    StepCases(t);
    var s := Scrutinee(t);
    assert Children(t)[0] == Child(t.m, 0);
    assert t.Delegate? ==> Children(t)[1] == Child(t.n, 0);
    if IsIntro(s) {
      ContractScoped(t, k);
    } else {
      StepScoped(s, k);
      RefocusScoped(t, Step(s).value, k);
    }
  }

  lemma ScopedChildren(t: Term, k: nat)
    requires !t.Var?
    ensures Scoped(t, k) <==>
      forall i :: 0 <= i < |Children(t)| ==> Scoped(Children(t)[i].term, k + Children(t)[i].binders)
  {
    hide Children;
    if Scoped(t, k) {
      forall i | 0 <= i < |Children(t)|
        ensures Scoped(Children(t)[i].term, k + Children(t)[i].binders)
      {
      }
    }
  }

  lemma RefocusScoped(t: Term, s: Term, k: nat)
    requires IsElim(t) && Scoped(t, k) && Scoped(s, k)
    ensures Scoped(Refocus(t, s), k)
  {
    hide Scoped;
    var u := Refocus(t, s);
    ScopedChildren(t, k);
    ScopedChildren(u, k);
    assert |Children(u)| == |Children(t)|;
    forall i | 0 <= i < |Children(u)|
      ensures Scoped(Children(u)[i].term, k + Children(u)[i].binders)
    {
      assert Children(u)[i] == Child(s, 0) || Children(u)[i] == Children(t)[i];
    }
  }

  lemma ContractScoped(t: Term, k: nat)
    requires Scoped(t, k) && IsElim(t) && Contract(t).Some?
    ensures Scoped(Contract(t).value, k)
  {
    hide Scoped, Shift, SubstAt;
    ScopedChildren(t, k);
    assert Children(t)[0] == Child(t.m, 0);
    ScopedChildren(t.m, k);
    match t
    case App(Lam(_, body), x) =>
      assert Children(t)[1] == Child(x, 0) && Children(t.m)[0] == Child(body, 1);
      SubstScoped(body, x, 0, k);
    case Fst(Pair(a, _)) => assert Children(t.m)[0] == Child(a, 0);
    case Snd(Pair(_, b)) => assert Children(t.m)[1] == Child(b, 0);
    case Case(Inl(_, a), l, _) =>
      assert Children(t)[1] == Child(l, 1) && Children(t.m)[0] == Child(a, 0);
      SubstScoped(l, a, 0, k);
    case Case(Inr(_, a), _, r) =>
      assert Children(t)[2] == Child(r, 1) && Children(t.m)[0] == Child(a, 0);
      SubstScoped(r, a, 0, k);
    case LetTensor(TensorIntro(a, b), body) =>
      assert Children(t)[1] == Child(body, 2);
      assert Children(t.m)[0] == Child(a, 0) && Children(t.m)[1] == Child(b, 0);
      ShiftScoped(a, 1, 0, k);
      SubstScoped(body, Shift(a, 1, 0), 0, k + 1);
      SubstScoped(Subst(body, Shift(a, 1, 0)), b, 0, k);
    case SaysBind(_, Sign(_, a, _), body) =>
      assert Children(t)[1] == Child(body, 1) && Children(t.m)[0] == Child(a, 0);
      SubstScoped(body, a, 0, k);
    case LetSays(_, Sign(_, a, _), body) =>
      assert Children(t)[1] == Child(body, 1) && Children(t.m)[0] == Child(a, 0);
      SubstScoped(body, a, 0, k);
    case SfExtract(Sign(_, a, _)) => assert Children(t.m)[0] == Child(a, 0);
    case Delegate(Sign(_, _, _), Sign(_, b, _)) =>
      assert Children(t)[1] == Child(t.n, 0) && Children(t.n)[0] == Child(b, 0);
      ScopedChildren(t.n, k);
      ScopedChildren(Contract(t).value, k);
    case Discharge(Boxed(_, a, _), _) => assert Children(t.m)[0] == Child(a, 0);
    case RunCmd(Command(a, _, l), n) =>
      assert Children(t)[1] == Child(n, 0) && Children(t.m)[0] == Child(a, 0);
      ScopedChildren(App(a, n), k);
      ScopedChildren(LiftLabel(l, App(a, n)), k);
    case _ =>
  }

  lemma {:induction false} RunScoped(t: Term, k: nat, fuel: nat)
    requires Scoped(t, k)
    ensures Scoped(Reduce(t, fuel).0, k)
    decreases fuel
  {
    hide Step, Scoped;
    if fuel > 0 && Step(t).Some? {
      StepScoped(t, k);
      RunScoped(Step(t).value, k, fuel - 1);
    }
  }

  // ---------------------------------------------------------------------------
  // Reduction under substitution
  // ---------------------------------------------------------------------------

  /** Substituting for index `k` commutes with the step of `t`. */
  ghost predicate Commutes(t: Term, v: Term, k: nat)
  {
    Step(t).Some? ==> Step(SubstAt(t, v, k)) == Some(SubstAt(Step(t).value, v, k))
  }

  lemma {:induction false} StepSubst(t: Term, v: Term, k: nat)
    ensures Commutes(t, v, k)
  {
    hide Step, SubstAt, Commutes;
    match t
    case App(m, n) => StepSubst(m, v, k); StepSubstApp(m, n, v, k);
    case Fst(m) => StepSubst(m, v, k); StepSubstFst(m, v, k);
    case Snd(m) => StepSubst(m, v, k); StepSubstSnd(m, v, k);
    case Case(m, l, r) => StepSubst(m, v, k); StepSubstCase(m, l, r, v, k);
    case LetTensor(m, b) => StepSubst(m, v, k); StepSubstLetTensor(m, b, v, k);
    case SaysBind(p, m, b) => StepSubst(m, v, k); StepSubstSaysBind(p, m, b, v, k);
    case LetSays(p, m, b) => StepSubst(m, v, k); StepSubstLetSays(p, m, b, v, k);
    case SfExtract(m) => StepSubst(m, v, k); StepSubstSfExtract(m, v, k);
    case Delegate(m, n) => StepSubst(m, v, k); StepSubst(n, v, k); StepSubstDelegate(m, n, v, k);
    case Discharge(m, n) => StepSubst(m, v, k); StepSubstDischarge(m, n, v, k);
    case RunCmd(m, n) => StepSubst(m, v, k); StepSubstRunCmd(m, n, v, k);
    case _ => StepRest(t); CommutesIfStuck(t, v, k);
  }

  lemma CommutesIfStuck(t: Term, v: Term, k: nat)
    requires Step(t) == None
    ensures Commutes(t, v, k)
  {
    hide Step, SubstAt;
  }

  lemma StepSubstApp(m: Term, n: Term, v: Term, k: nat)
    requires Commutes(m, v, k)
    ensures Commutes(App(m, n), v, k)
  {
    hide SubstAt;
    SubstApp(m, n, v, k);
    if m.Lam? {
      SubstLam(m.dom, m.body, v, k);
      SubstCompose(m.body, n, 0, v, k);
    }
    else if Step(m).Some? { SubstApp(Step(m).value, n, v, k); }
  }

  lemma StepSubstFst(m: Term, v: Term, k: nat)
    requires Commutes(m, v, k)
    ensures Commutes(Fst(m), v, k)
  {
  }

  lemma StepSubstSnd(m: Term, v: Term, k: nat)
    requires Commutes(m, v, k)
    ensures Commutes(Snd(m), v, k)
  {
  }

  lemma StepSubstCase(m: Term, l: Term, r: Term, v: Term, k: nat)
    requires Commutes(m, v, k)
    ensures Commutes(Case(m, l, r), v, k)
  {
    hide SubstAt, Shift, Step;
    SubstCase(m, l, r, v, k);
    StepBinding(Case(m, l, r));
    StepBinding(Case(SubstAt(m, v, k), SubstAt(l, v, k + 1), SubstAt(r, v, k + 1)));
    if m.Inl? {
      SubstInl(m.other, m.m, v, k);
      SubstCompose(l, m.m, 0, v, k);
    } else if m.Inr? {
      SubstInr(m.other, m.m, v, k);
      SubstCompose(r, m.m, 0, v, k);
    } else if Step(m).Some? {
      SubstCase(Step(m).value, l, r, v, k);
      StepsIsElim(m);
      StepsIsElim(SubstAt(m, v, k));
    }
  }

  lemma StepSubstLetTensor(m: Term, b: Term, v: Term, k: nat)
    requires Commutes(m, v, k)
    ensures Commutes(LetTensor(m, b), v, k)
  {
    hide SubstAt;
    SubstLetTensor(m, b, v, k);
    if m.TensorIntro? {
      SubstTensorIntro(m.m, m.n, v, k);
      SubstCompose(Subst(b, Shift(m.m, 1, 0)), m.n, 0, v, k);
      SubstCompose(b, Shift(m.m, 1, 0), 0, v, k + 1);
      ShiftSubstBelow(m.m, v, k, 1, 0);
    }
    else if Step(m).Some? { SubstLetTensor(Step(m).value, b, v, k); }
  }

  lemma StepSubstSaysBind(p: Principal, m: Term, b: Term, v: Term, k: nat)
    requires Commutes(m, v, k)
    ensures Commutes(SaysBind(p, m, b), v, k)
  {
    hide SubstAt;
    SubstSaysBind(p, m, b, v, k);
    if m.Sign? {
      SubstSign(m.p, m.m, m.sig, v, k);
      SubstCompose(b, m.m, 0, v, k);
    }
    else if Step(m).Some? { SubstSaysBind(p, Step(m).value, b, v, k); }
  }

  lemma StepSubstLetSays(p: Principal, m: Term, b: Term, v: Term, k: nat)
    requires Commutes(m, v, k)
    ensures Commutes(LetSays(p, m, b), v, k)
  {
    hide SubstAt;
    SubstLetSays(p, m, b, v, k);
    if m.Sign? {
      SubstSign(m.p, m.m, m.sig, v, k);
      SubstCompose(b, m.m, 0, v, k);
    }
    else if Step(m).Some? { SubstLetSays(p, Step(m).value, b, v, k); }
  }

  lemma StepSubstSfExtract(m: Term, v: Term, k: nat)
    requires Commutes(m, v, k)
    ensures Commutes(SfExtract(m), v, k)
  {
    hide SubstAt;
    SubstSfExtract(m, v, k);
    if m.Sign? {
      SubstSign(m.p, m.m, m.sig, v, k);
    } else if Step(m).Some? {
      SubstSfExtract(Step(m).value, v, k);
    }
  }

  lemma StepSubstDelegate(m: Term, n: Term, v: Term, k: nat)
    requires Commutes(m, v, k) && Commutes(n, v, k)
    ensures Commutes(Delegate(m, n), v, k)
  {
  }

  lemma StepSubstDischarge(m: Term, n: Term, v: Term, k: nat)
    requires Commutes(m, v, k)
    ensures Commutes(Discharge(m, n), v, k)
  {
  }

  lemma StepSubstRunCmd(m: Term, n: Term, v: Term, k: nat)
    requires Commutes(m, v, k)
    ensures Commutes(RunCmd(m, n), v, k)
  {
  }
}
