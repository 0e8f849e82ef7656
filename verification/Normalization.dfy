/** Every typed term free of tensor eliminations evaluates to a normal form.

    The proof is a logical relation by recursion on propositions. It identifies `p says a`
    with `a`: a bind is typed `p says b` and reduces to a term of type `b`, so the relation
    must not see the difference. What it asks instead is that every layer of a term, found
    by evaluating it and removing a signature, behaves as the underlying proposition says. */
module Normalization {
  import opened Syntax
  import opened Substitution
  import opened Reduction
  import opened Typing
  import opened Safety

  // ---------------------------------------------------------------------------
  // Halting and normal forms
  // ---------------------------------------------------------------------------

  ghost predicate HaltsIn(t: Term, n: nat)
    decreases n
  {
    if n == 0 then Step(t) == None else Step(t).Some? && HaltsIn(Step(t).value, n - 1)
  }

  ghost predicate Halts(t: Term) { exists n: nat :: HaltsIn(t, n) }

  ghost function Nf(t: Term): Term
    requires Halts(t)
  {
    var n: nat :| HaltsIn(t, n);
    Reduce(t, n).0
  }

  lemma {:induction false} HaltsOnce(t: Term, n: nat, k: nat)
    requires HaltsIn(t, n) && HaltsIn(t, k)
    ensures n == k
    decreases n
  {
    hide Step;
    if n > 0 && k > 0 { HaltsOnce(Step(t).value, n - 1, k - 1); }
  }

  lemma NfIs(t: Term, n: nat)
    requires HaltsIn(t, n)
    ensures Halts(t) && Nf(t) == Reduce(t, n).0
  {
    hide Step, HaltsIn, Reduce;
    var k: nat :| HaltsIn(t, k) && Nf(t) == Reduce(t, k).0;
    HaltsOnce(t, n, k);
  }

  lemma {:induction false} HaltsInNormal(t: Term, n: nat)
    requires HaltsIn(t, n)
    ensures Step(Reduce(t, n).0) == None
    decreases n
  {
    hide Step;
    if n > 0 { HaltsInNormal(Step(t).value, n - 1); }
  }

  lemma NfNormal(t: Term)
    requires Halts(t)
    ensures Step(Nf(t)) == None
  {
    hide Step, HaltsIn, Reduce;
    var n: nat :| HaltsIn(t, n);
    NfIs(t, n);
    HaltsInNormal(t, n);
  }

  lemma NfOfNormal(t: Term)
    requires Step(t) == None
    ensures Halts(t) && Nf(t) == t
  {
    hide Step;
    assert HaltsIn(t, 0);
    NfIs(t, 0);
  }

  lemma NfOfStep(t: Term)
    requires Step(t).Some? && Halts(Step(t).value)
    ensures Halts(t) && Nf(t) == Nf(Step(t).value)
  {
    hide Step;
    var u := Step(t).value;
    var n: nat :| HaltsIn(u, n);
    assert HaltsIn(t, n + 1);
    NfIs(u, n);
    NfIs(t, n + 1);
  }

  // ---------------------------------------------------------------------------
  // The relation
  // ---------------------------------------------------------------------------

  /** What is left of `t` after evaluating it and removing a signature, `k` times. */
  ghost function Layer(t: Term, k: nat): Option<Term>
    decreases k
  {
    if k == 0 then Some(t)
    else if Halts(t) && Nf(t).Sign? then Layer(Nf(t).m, k - 1)
    else None
  }

  ghost predicate Rel(a: Prop, t: Term)
    decreases a, 1
  {
    if a.Says? then Rel(a.inner, t)
    else forall k: nat :: Layer(t, k).Some? ==> Halts(Layer(t, k).value) && Base(a, Layer(t, k).value)
  }

  ghost predicate Base(a: Prop, t: Term)
    decreases a, 0
  {
    match a
    case Imp(b, c) => forall x :: Rel(b, x) ==> Rel(c, App(t, x))
    case And(b, c) => Rel(b, Fst(t)) && Rel(c, Snd(t))
    case Or(b, c) => Halts(t) ==> (Nf(t).Inl? ==> Rel(b, Nf(t).m)) && (Nf(t).Inr? ==> Rel(c, Nf(t).m))
    case Boxed(_, b) => Halts(t) && Nf(t).Boxed? ==> Rel(b, Nf(t).m)
    case _ => true
  }

  lemma {:induction false} RelBase(a: Prop, t: Term)
    requires Rel(a, t)
    ensures Halts(t) && (!a.Says? ==> Base(a, t))
  {
    hide Halts, Base;
    if a.Says? { RelBase(a.inner, t); } else { assert Layer(t, 0) == Some(t); }
  }

  /** A term that can no longer step and is no introduction form. */
  ghost predicate Neutral(t: Term) { Step(t) == None && !IsIntro(t) }

  /** An elimination whose scrutinee is normal and does not meet a head rule. */
  lemma StuckNeutral(t: Term)
    requires IsElim(t) && Step(Scrutinee(t)) == None
    requires IsIntro(Scrutinee(t)) ==> Contract(t) == None
    ensures Neutral(t)
  {
    hide Step, Contract;
    StepCases(t);
  }

  lemma IntroNormal(t: Term)
    requires IsIntro(t)
    ensures Step(t) == None
  {
    hide Step;
    StepRest(t);
  }

  /** Neutral terms are related at every proposition. */
  lemma {:induction false} RelNeutral(a: Prop, t: Term)
    requires Neutral(t)
    ensures Rel(a, t)
    decreases a
  {
    hide Halts, Nf, Step, Contract;
    if a.Says? {
      RelNeutral(a.inner, t);
    } else {
      NfOfNormal(t);
      BaseStuck(a, t);
      forall k: nat | Layer(t, k).Some?
        ensures Halts(Layer(t, k).value) && Base(a, Layer(t, k).value)
      {
        assert k == 0;
      }
    }
  }

  /** So are signatures and neutral terms at every proposition's own demands. */
  lemma {:induction false} BaseStuck(a: Prop, t: Term)
    requires Step(t) == None && (IsIntro(t) ==> t.Sign?)
    ensures Base(a, t)
    decreases a, 0
  {
    hide Halts, Nf, Step;
    NfOfNormal(t);
    match a
    case Imp(b, c) =>
      forall x | Rel(b, x)
        ensures Rel(c, App(t, x))
      {
        StuckNeutral(App(t, x));
        RelNeutral(c, App(t, x));
      }
    case And(b, c) =>
      StuckNeutral(Fst(t));
      StuckNeutral(Snd(t));
      RelNeutral(b, Fst(t));
      RelNeutral(c, Snd(t));
    case _ =>
  }

  /** The relation is closed under expansion. */
  lemma {:induction false} RelExpand(a: Prop, t: Term)
    requires Step(t).Some? && Rel(a, Step(t).value)
    ensures Rel(a, t)
    decreases a, 1
  {
    hide Halts, Nf, Step;
    var u := Step(t).value;
    if a.Says? {
      RelExpand(a.inner, t);
    } else {
      RelBase(a, u);
      NfOfStep(t);
      BaseExpand(a, t);
      forall k: nat | Layer(t, k).Some?
        ensures Halts(Layer(t, k).value) && Base(a, Layer(t, k).value)
      {
        assert k > 0 ==> Layer(t, k) == Layer(u, k);
      }
    }
  }

  lemma {:induction false} BaseExpand(a: Prop, t: Term)
    requires Step(t).Some? && Halts(Step(t).value) && Base(a, Step(t).value)
    ensures Base(a, t)
    decreases a, 0
  {
    hide Halts, Nf, Step;
    var u := Step(t).value;
    NfOfStep(t);
    StepsIsElim(t);
    if a.Imp? {
      forall x | Rel(a.left, x)
        ensures Rel(a.right, App(t, x))
      {
        StepInScrutinee(App(t, x));
        RelExpand(a.right, App(t, x));
      }
    } else if a.And? {
      StepInScrutinee(Fst(t));
      StepInScrutinee(Snd(t));
      RelExpand(a.left, Fst(t));
      RelExpand(a.right, Snd(t));
    }
  }

  /** An elimination steps with what it evaluates. */
  lemma StepInScrutinee(t: Term)
    requires IsElim(t) && Step(Scrutinee(t)).Some?
    ensures Step(t) == Some(Refocus(t, Step(Scrutinee(t)).value))
  {
    hide Step, Contract;
    StepsIsElim(Scrutinee(t));
    StepCases(t);
  }

  /** Signing keeps related terms related, and so does removing a signature. */
  lemma {:induction false} RelSign(a: Prop, p: Principal, m: Term, g: Signature)
    requires Rel(a, m)
    ensures Rel(a, Sign(p, m, g))
  {
    hide Halts, Nf, Step;
    var t := Sign(p, m, g);
    if a.Says? {
      RelSign(a.inner, p, m, g);
    } else {
      IntroNormal(t);
      NfOfNormal(t);
      BaseStuck(a, t);
      forall k: nat | Layer(t, k).Some?
        ensures Halts(Layer(t, k).value) && Base(a, Layer(t, k).value)
      {
        assert k > 0 ==> Layer(t, k) == Layer(m, k - 1);
      }
    }
  }

  lemma {:induction false} RelUnsign(a: Prop, t: Term)
    requires Rel(a, t) && Halts(t) && Nf(t).Sign?
    ensures Rel(a, Nf(t).m)
  {
    hide Halts, Nf, Base;
    if a.Says? {
      RelUnsign(a.inner, t);
    } else {
      forall k: nat | Layer(Nf(t).m, k).Some?
        ensures Halts(Layer(Nf(t).m, k).value) && Base(a, Layer(Nf(t).m, k).value)
      {
        assert Layer(t, k + 1) == Layer(Nf(t).m, k);
      }
    }
  }

  /** An unsigned introduction form only owes its own proposition's demands. */
  lemma RelIntro(a: Prop, t: Term)
    requires IsIntro(t) && !t.Sign? && !a.Says? && Base(a, t)
    ensures Rel(a, t)
  {
    hide Halts, Nf, Base, Step;
    IntroNormal(t);
    NfOfNormal(t);
    forall k: nat | Layer(t, k).Some?
      ensures Halts(Layer(t, k).value) && Base(a, Layer(t, k).value)
    {
      assert k == 0;
    }
  }

  /** To relate an elimination, evaluate its scrutinee first. */
  lemma {:induction false} RelFocus(a: Prop, t: Term)
    requires IsElim(t) && Halts(Scrutinee(t)) && Rel(a, Refocus(t, Nf(Scrutinee(t))))
    ensures Rel(a, t)
  {
    hide Step, Rel, HaltsIn, Reduce, Nf;
    var n: nat :| HaltsIn(Scrutinee(t), n);
    NfIs(Scrutinee(t), n);
    RelFocusIn(a, t, n);
  }

  lemma {:induction false} RelFocusIn(a: Prop, t: Term, n: nat)
    requires IsElim(t) && HaltsIn(Scrutinee(t), n) && Rel(a, Refocus(t, Reduce(Scrutinee(t), n).0))
    ensures Rel(a, t)
    decreases n
  {
    hide Step, Rel;
    var s := Scrutinee(t);
    if n > 0 {
      var u := Refocus(t, Step(s).value);
      StepsIsElim(s);
      StepCases(t);
      if n > 1 {
        StepsIsElim(Step(s).value);
        assert Scrutinee(u) == Step(s).value;
        RelFocusIn(a, u, n - 1);
      }
      RelExpand(a, t);
    }
  }

  // ---------------------------------------------------------------------------
  // The constructors respect the relation
  // ---------------------------------------------------------------------------

  lemma RelLam(a: Prop, b: Prop, body: Term)
    requires forall x :: Rel(a, x) ==> Rel(b, Subst(body, x))
    ensures Rel(Imp(a, b), Lam(a, body))
  {
    hide Step, SubstAt, Halts, Rel;
    forall x | Rel(a, x)
      ensures Rel(b, App(Lam(a, body), x))
    {
      StepCases(App(Lam(a, body), x));
      RelExpand(b, App(Lam(a, body), x));
    }
    RelIntro(Imp(a, b), Lam(a, body));
  }

  lemma RelPair(a: Prop, b: Prop, m: Term, n: Term)
    requires Rel(a, m) && Rel(b, n)
    ensures Rel(Prop.And(a, b), Pair(m, n))
  {
    hide Step, Halts, Rel;
    StepCases(Fst(Pair(m, n)));
    StepCases(Snd(Pair(m, n)));
    RelExpand(a, Fst(Pair(m, n)));
    RelExpand(b, Snd(Pair(m, n)));
    RelIntro(Prop.And(a, b), Pair(m, n));
  }

  /** An elimination is related as soon as its contraction is, whenever there is one. */
  lemma RelElim(c: Prop, t: Term)
    requires IsElim(t) && Halts(Scrutinee(t)) && (t.Delegate? ==> t.m.Sign?)
    requires var u := Refocus(t, Nf(Scrutinee(t)));
      IsIntro(Scrutinee(u)) && Contract(u).Some? ==> Rel(c, Contract(u).value)
    ensures Rel(c, t)
  {
    hide Step, Rel, Halts, Nf, Contract;
    var u := Refocus(t, Nf(Scrutinee(t)));
    NfNormal(Scrutinee(t));
    assert Scrutinee(u) == Nf(Scrutinee(t));
    if IsIntro(Scrutinee(u)) && Contract(u).Some? {
      StepCases(u);
      RelExpand(c, u);
    } else {
      StuckNeutral(u);
      RelNeutral(c, u);
    }
    RelFocus(c, t);
  }

  lemma RelCase(a: Prop, b: Prop, c: Prop, m: Term, l: Term, r: Term)
    requires Rel(Prop.Or(a, b), m)
    requires forall x :: Rel(a, x) ==> Rel(c, Subst(l, x))
    requires forall x :: Rel(b, x) ==> Rel(c, Subst(r, x))
    ensures Rel(c, Case(m, l, r))
  {
    hide Step, SubstAt, Halts, Nf, Rel, Contract, Refocus, Scrutinee;
    RelBase(Prop.Or(a, b), m);
    var v := Nf(m);
    CaseContracts(m, l, r, v);
    assert v.Inl? ==> Rel(c, Subst(l, v.m));
    assert v.Inr? ==> Rel(c, Subst(r, v.m));
    RelElim(c, Case(m, l, r));
  }

  lemma CaseContracts(m: Term, l: Term, r: Term, v: Term)
    ensures Refocus(Case(m, l, r), v) == Case(v, l, r)
    ensures Scrutinee(Case(m, l, r)) == m && Scrutinee(Case(v, l, r)) == v
    ensures Contract(Case(v, l, r)) ==
      if v.Inl? then Some(Subst(l, v.m)) else if v.Inr? then Some(Subst(r, v.m)) else None
  {
    hide SubstAt;
  }

  lemma RelLetSays(a: Prop, c: Prop, p: Principal, m: Term, body: Term)
    requires Rel(a, m)
    requires forall x :: Rel(a, x) ==> Rel(c, Subst(body, x))
    ensures Rel(c, LetSays(p, m, body)) && Rel(c, SaysBind(p, m, body))
  {
    hide Step, SubstAt, Halts, Nf, Rel;
    RelModal(a, c, LetSays(p, m, body));
    RelModal(a, c, SaysBind(p, m, body));
  }

  lemma RelModal(a: Prop, c: Prop, t: Term)
    requires (t.LetSays? || t.SaysBind?) && Rel(a, t.m)
    requires forall x :: Rel(a, x) ==> Rel(c, Subst(t.body, x))
    ensures Rel(c, t)
  {
    hide Step, SubstAt, Halts, Nf, Rel;
    RelBase(a, t.m);
    if Nf(t.m).Sign? { RelUnsign(a, t.m); }
    RelElim(c, t);
  }

  lemma RelSfExtract(a: Prop, m: Term)
    requires Rel(a, m)
    ensures Rel(a, SfExtract(m))
  {
    hide Step, Halts, Nf, Rel;
    RelBase(a, m);
    if Nf(m).Sign? { RelUnsign(a, m); }
    RelElim(a, SfExtract(m));
  }

  lemma RelDelegate(a: Prop, b: Prop, m: Term, n: Term)
    requires Rel(a, m) && Rel(b, n)
    ensures Rel(b, Delegate(m, n))
  {
    hide Step, Halts, Nf, Rel;
    RelBase(a, m);
    if m.Sign? {
      RelDelegateSigned(b, m, n);
    } else {
      var v := Nf(m);
      NfNormal(m);
      if v.Sign? {
        RelDelegateSigned(b, v, n);
      } else {
        StuckNeutral(Delegate(v, n));
        RelNeutral(b, Delegate(v, n));
      }
      RelFocus(b, Delegate(m, n));
    }
  }

  lemma RelDelegateSigned(b: Prop, m: Term, n: Term)
    requires m.Sign? && Rel(b, n)
    ensures Rel(b, Delegate(m, n))
  {
    hide Step, Halts, Nf, Rel;
    RelBase(b, n);
    var v := Nf(n);
    if v.Sign? {
      RelUnsign(b, n);
      RelSign(b, Principal.Acting(m.p, v.p), v.m, v.sig);
    }
    RelElim(b, Delegate(m, n));
  }

  lemma RelDischarge(o: Obligation, a: Prop, m: Term, n: Term)
    requires Rel(Prop.Boxed(o, a), m)
    ensures Rel(a, Discharge(m, n))
  {
    hide Step, Halts, Nf, Rel;
    RelBase(Prop.Boxed(o, a), m);
    RelElim(a, Discharge(m, n));
  }

  lemma RelRunCmd(a: Prop, l: Label, m: Term, n: Term)
    requires Halts(m)
    ensures Rel(At(a, l), RunCmd(m, n))
  {
    hide Step, Halts, Nf, Rel;
    if Nf(m).Command? { RelIntro(At(a, l), LiftLabel(Nf(m).l, App(Nf(m).m, n))); }
    RelElim(At(a, l), RunCmd(m, n));
  }

  lemma RelFrozen(a: Prop, t: Term)
    requires IsFrozen(t)
    ensures Rel(a, t)
  {
    hide Step, Rel;
    StepRest(t);
    RelNeutral(a, t);
  }

  lemma RelInjection(a: Prop, b: Prop, t: Term)
    requires (t.Inl? && Rel(a, t.m)) || (t.Inr? && Rel(b, t.m))
    ensures Rel(Prop.Or(a, b), t)
  {
    hide Step, Halts, Nf, Rel;
    IntroNormal(t);
    NfOfNormal(t);
    RelIntro(Prop.Or(a, b), t);
  }

  lemma RelBoxed(o: Obligation, a: Prop, t: Term)
    requires t.Boxed? && Rel(a, t.m)
    ensures Rel(Prop.Boxed(o, a), t)
  {
    hide Step, Halts, Nf, Rel;
    IntroNormal(t);
    NfOfNormal(t);
    RelIntro(Prop.Boxed(o, a), t);
  }

  // ---------------------------------------------------------------------------
  // The fundamental theorem
  // ---------------------------------------------------------------------------

  ghost predicate RelEnv(g: seq<Prop>, env: seq<Term>)
  {
    |g| <= |env| && forall i :: 0 <= i < |g| ==> Rel(g[i], env[i])
  }

  ghost predicate Good(c: Ctx, t: Term, env: seq<Term>)
  {
    Infer(c, t).Some? ==> Rel(Infer(c, t).value, Simultaneous(t, env, 0))
  }

  /** The same of a term under one more hypothesis. */
  ghost predicate GoodUnder(c: Ctx, t: Term, env: seq<Term>)
  {
    forall a, x {:trigger Infer(c.ConsA(a), t), Subst(Simultaneous(t, env, 1), x)} ::
      Rel(a, x) && Infer(c.ConsA(a), t).Some? ==> Rel(Infer(c.ConsA(a), t).value, Subst(Simultaneous(t, env, 1), x))
  }

  lemma {:induction false} Fundamental(c: Ctx, t: Term, env: seq<Term>)
    requires |c.linear| != 1 && TensorElimFree(t) && RelEnv(c.additive, env)
    ensures Good(c, t, env)
    decreases t, 0
  {
    hide Infer, Simultaneous, Rel, Good, GoodUnder, TensorElimFree, RelEnv;
    TensorElimFreeParts(t);
    TensorElimFreeFields(t);
    match t
    case Var(_) => GoodVar(c, t, env);
    case Lam(_, b) => FundamentalUnder(c, b, env); GoodLam(c, t, env);
    case App(m, n) => Fundamental(c, m, env); Fundamental(c, n, env); GoodApp(c, t, env);
    case Sign(_, m, _) => Fundamental(c, m, env); GoodSign(c, t, env);
    case Verify(_, _, _) => GoodFrozen(c, t, env);
    case Attenuate(_, _) => GoodFrozen(c, t, env);
    case Declassify(_, _, _) => GoodFrozen(c, t, env);
    case Delegate(m, n) => Fundamental(c, m, env); Fundamental(c, n, env); GoodDelegate(c, t, env);
    case SaysBind(_, m, b) => Fundamental(c, m, env); FundamentalUnder(c, b, env); GoodSaysBind(c, t, env);
    case LetSays(_, m, b) => Fundamental(c, m, env); FundamentalUnder(c, b, env); GoodLetSays(c, t, env);
    case Boxed(_, m, _) => Fundamental(c, m, env); GoodBoxed(c, t, env);
    case Discharge(m, _) => Fundamental(c, m, env); GoodDischarge(c, t, env);
    case LiftLabel(_, _) => GoodPlain(c, t, env);
    case Now(_) => GoodPlain(c, t, env);
    case WithinIntro(_, _) => GoodPlain(c, t, env);
    case TensorIntro(_, _) => GoodPlain(c, t, env);
    case Command(_, _, _) => GoodPlain(c, t, env);
    case Pair(m, n) => Fundamental(c, m, env); Fundamental(c, n, env); GoodPair(c, t, env);
    case Fst(m) => Fundamental(c, m, env); GoodProjection(c, t, env);
    case Snd(m) => Fundamental(c, m, env); GoodProjection(c, t, env);
    case Inl(_, m) => Fundamental(c, m, env); GoodInjection(c, t, env);
    case Inr(_, m) => Fundamental(c, m, env); GoodInjection(c, t, env);
    case Case(m, l, r) =>
      Fundamental(c, m, env);
      FundamentalUnder(c, l, env);
      FundamentalUnder(c, r, env);
      GoodCase(c, t, env);
    case SfExtract(m) => Fundamental(c, m, env); GoodSfExtract(c, t, env);
    case RunCmd(m, _) => Fundamental(c, m, env); GoodRunCmd(c, t, env);
  }

  lemma {:induction false} FundamentalUnder(c: Ctx, t: Term, env: seq<Term>)
    requires |c.linear| != 1 && TensorElimFree(t) && RelEnv(c.additive, env)
    ensures GoodUnder(c, t, env)
    decreases t, 1
  {
    hide Infer, Simultaneous, SubstAt, Rel, TensorElimFree;
    forall a, x | Rel(a, x) && Infer(c.ConsA(a), t).Some?
      ensures Rel(Infer(c.ConsA(a), t).value, Subst(Simultaneous(t, env, 1), x))
    {
      Fundamental(c.ConsA(a), t, [x] + env);
      SimultaneousCons(t, x, env, 0);
    }
  }

  lemma GoodVar(c: Ctx, t: Term, env: seq<Term>)
    requires t.Var? && |c.linear| != 1 && RelEnv(c.additive, env)
    ensures Good(c, t, env)
  {
    hide Infer, Rel, Shift;
    InferIs(c, t);
    if t.i < |env| { ShiftZero(env[t.i], 0); }
  }

  lemma GoodLam(c: Ctx, t: Term, env: seq<Term>)
    requires t.Lam? && GoodUnder(c, t.body, env)
    ensures Good(c, t, env)
  {
    hide Infer, Rel, SubstAt;
    InferIs(c, t);
    if Infer(c, t).Some? { RelLam(t.dom, Infer(c.ConsA(t.dom), t.body).value, Simultaneous(t.body, env, 1)); }
  }

  lemma GoodApp(c: Ctx, t: Term, env: seq<Term>)
    requires t.App? && Good(c, t.m, env) && Good(c, t.n, env)
    ensures Good(c, t, env)
  {
    hide Infer, Rel;
    InferIs(c, t);
    if Infer(c, t).Some? { RelBase(Infer(c, t.m).value, Simultaneous(t.m, env, 0)); }
  }

  lemma GoodSign(c: Ctx, t: Term, env: seq<Term>)
    requires t.Sign? && Good(c, t.m, env)
    ensures Good(c, t, env)
  {
    hide Infer;
    InferIs(c, t);
    if Infer(c, t).Some? { RelSign(Infer(c, t.m).value, t.p, Simultaneous(t.m, env, 0), t.sig); }
  }

  lemma GoodFrozen(c: Ctx, t: Term, env: seq<Term>)
    requires IsFrozen(t)
    ensures Good(c, t, env)
  {
    hide Rel, Infer, Simultaneous;
    SimultaneousNode(t, env, 0);
    if Infer(c, t).Some? { RelFrozen(Infer(c, t).value, Simultaneous(t, env, 0)); }
  }

  lemma GoodDelegate(c: Ctx, t: Term, env: seq<Term>)
    requires t.Delegate? && Good(c, t.m, env) && Good(c, t.n, env)
    ensures Good(c, t, env)
  {
    hide Infer;
    InferIs(c, t);
    if Infer(c, t).Some? {
      RelDelegate(Infer(c, t.m).value.inner, Infer(c, t.n).value.inner,
        Simultaneous(t.m, env, 0), Simultaneous(t.n, env, 0));
    }
  }

  lemma GoodSaysBind(c: Ctx, t: Term, env: seq<Term>)
    requires t.SaysBind? && Good(c, t.m, env) && GoodUnder(c, t.body, env)
    ensures Good(c, t, env)
  {
    hide Infer, SubstAt;
    InferIs(c, t);
    if Infer(c, t).Some? {
      var a := Infer(c, t.m).value.inner;
      RelLetSays(a, Infer(c.ConsA(a), t.body).value, t.p, Simultaneous(t.m, env, 0), Simultaneous(t.body, env, 1));
    }
  }

  lemma GoodLetSays(c: Ctx, t: Term, env: seq<Term>)
    requires t.LetSays? && Good(c, t.m, env) && GoodUnder(c, t.body, env)
    ensures Good(c, t, env)
  {
    hide Infer, SubstAt;
    InferIs(c, t);
    if Infer(c, t).Some? {
      var a := Infer(c, t.m).value.inner;
      RelLetSays(a, Infer(c.ConsA(a), t.body).value, t.p, Simultaneous(t.m, env, 0), Simultaneous(t.body, env, 1));
    }
  }

  lemma GoodBoxed(c: Ctx, t: Term, env: seq<Term>)
    requires t.Boxed? && Good(c, t.m, env)
    ensures Good(c, t, env)
  {
    hide Infer, Rel;
    InferIs(c, t);
    if Infer(c, t).Some? { RelBoxed(t.o, Infer(c, t.m).value, Simultaneous(t, env, 0)); }
  }

  lemma GoodDischarge(c: Ctx, t: Term, env: seq<Term>)
    requires t.Discharge? && Good(c, t.m, env)
    ensures Good(c, t, env)
  {
    hide Infer, Rel;
    InferIs(c, t);
    if Infer(c, t).Some? {
      var a := Infer(c, t.m).value;
      RelDischarge(a.o, a.inner, Simultaneous(t.m, env, 0), Simultaneous(t.n, env, 0));
    }
  }

  lemma GoodPlain(c: Ctx, t: Term, env: seq<Term>)
    requires t.LiftLabel? || t.Now? || t.WithinIntro? || t.TensorIntro? || t.Command?
    ensures Good(c, t, env)
  {
    hide Infer, Rel;
    InferIs(c, t);
    if Infer(c, t).Some? { RelIntro(Infer(c, t).value, Simultaneous(t, env, 0)); }
  }

  lemma GoodPair(c: Ctx, t: Term, env: seq<Term>)
    requires t.Pair? && Good(c, t.m, env) && Good(c, t.n, env)
    ensures Good(c, t, env)
  {
    hide Infer, Rel;
    InferIs(c, t);
    if Infer(c, t).Some? {
      RelPair(Infer(c, t.m).value, Infer(c, t.n).value, Simultaneous(t.m, env, 0), Simultaneous(t.n, env, 0));
    }
  }

  lemma GoodProjection(c: Ctx, t: Term, env: seq<Term>)
    requires (t.Fst? || t.Snd?) && Good(c, t.m, env)
    ensures Good(c, t, env)
  {
    hide Infer, Rel;
    InferIs(c, t);
    if Infer(c, t).Some? { RelBase(Infer(c, t.m).value, Simultaneous(t.m, env, 0)); }
  }

  lemma GoodInjection(c: Ctx, t: Term, env: seq<Term>)
    requires (t.Inl? || t.Inr?) && Good(c, t.m, env)
    ensures Good(c, t, env)
  {
    hide Infer, Rel;
    InferIs(c, t);
    if Infer(c, t).Some? {
      var a := Infer(c, t).value;
      RelInjection(a.left, a.right, Simultaneous(t, env, 0));
    }
  }

  lemma GoodCase(c: Ctx, t: Term, env: seq<Term>)
    requires t.Case? && Good(c, t.m, env) && GoodUnder(c, t.left, env) && GoodUnder(c, t.right, env)
    ensures Good(c, t, env)
  {
    hide Infer, Rel, SubstAt;
    InferIs(c, t);
    if Infer(c, t).Some? {
      var a, r := Infer(c, t.m).value, Infer(c, t).value;
      assert Infer(c.ConsA(a.left), t.left) == Infer(c.ConsA(a.right), t.right) == Some(r);
      RelCase(a.left, a.right, r, Simultaneous(t.m, env, 0),
        Simultaneous(t.left, env, 1), Simultaneous(t.right, env, 1));
    }
  }

  lemma GoodSfExtract(c: Ctx, t: Term, env: seq<Term>)
    requires t.SfExtract? && Good(c, t.m, env)
    ensures Good(c, t, env)
  {
    hide Infer;
    InferIs(c, t);
    if Infer(c, t).Some? { RelSfExtract(Infer(c, t).value, Simultaneous(t.m, env, 0)); }
  }

  lemma GoodRunCmd(c: Ctx, t: Term, env: seq<Term>)
    requires t.RunCmd? && Good(c, t.m, env)
    ensures Good(c, t, env)
  {
    hide Infer, Rel;
    InferIs(c, t);
    if Infer(c, t).Some? {
      var a := Infer(c, t).value;
      RelBase(Infer(c, t.m).value, Simultaneous(t.m, env, 0));
      RelRunCmd(a.inner, a.l, Simultaneous(t.m, env, 0), Simultaneous(t.n, env, 0));
    }
  }

  // ---------------------------------------------------------------------------
  // Normalization
  // ---------------------------------------------------------------------------

  lemma {:induction false} HaltsInReduce(t: Term, n: nat, fuel: nat)
    requires HaltsIn(t, n)
    ensures Reduce(t, fuel).1 == if fuel < n then fuel else n
    ensures n <= fuel ==> Reduce(t, fuel).0 == Reduce(t, n).0
    decreases n
  {
    hide Step;
    if n > 0 && fuel > 0 { HaltsInReduce(Step(t).value, n - 1, fuel - 1); }
  }

  /** Evaluation of a typed term halts, in any additive context and with binds allowed. */
  lemma {:induction false} TypedHalts(c: Ctx, t: Term)
    requires |c.linear| != 1 && TensorElimFree(t) && Infer(c, t).Some?
    ensures Halts(t)
  {
    hide Infer, Rel, Halts, Step, Simultaneous, TensorElimFree;
    var k := ScopeBound(t);
    var size: nat := k + |c.additive|;
    var env := seq(size, i requires 0 <= i => Var(i));
    forall i | 0 <= i < |c.additive|
      ensures Rel(c.additive[i], env[i])
    {
      StepRest(Var(i));
      RelNeutral(c.additive[i], Var(i));
    }
    Fundamental(c, t, env);
    ScopedMore(t, k, |env|);
    SimultaneousIdentity(t, env, 0);
    RelBase(Infer(c, t).value, t);
  }

  /** Normalization of the fuelled reducer: from some fuel on, the result and the number of
      steps no longer change, and the result is normal. */
  lemma {:induction false} Normalization(c: Ctx, t: Term) returns (n: nat, v: Term)
    requires |c.linear| != 1 && TensorElimFree(t) && Infer(c, t).Some?
    ensures Step(v) == None
    ensures forall fuel: nat :: n <= fuel ==> Reduce(t, fuel) == (v, n)
    ensures forall fuel: nat :: fuel < n ==> Reduce(t, fuel).1 == fuel
  {
    hide Infer, Step, Reduce, HaltsIn, TensorElimFree;
    TypedHalts(c, t);
    n :| HaltsIn(t, n);
    v := Reduce(t, n).0;
    HaltsInNormal(t, n);
    forall fuel: nat
      ensures n <= fuel ==> Reduce(t, fuel) == (v, n)
      ensures fuel < n ==> Reduce(t, fuel).1 == fuel
    {
      HaltsInReduce(t, n, fuel);
    }
  }

  /** Canonicity: a closed computational term evaluates to the introduction form of its
      type; so no such term has a type without introduction forms. */
  lemma {:induction false} Canonicity(c: Ctx, t: Term) returns (n: nat)
    requires c.additive == [] && |c.linear| != 1 && Computational(t) && Infer(c, t).Some?
    ensures Canonical(Reduce(t, n + 1).0, Infer(c, t).value)
    ensures Infer(c, Reduce(t, n + 1).0) == Infer(c, t)
  {
    hide Infer, Step, Reduce, Every, Canonical;
    EveryImplies(t, ComputationalNode, NotTensorElim);
    var v;
    n, v := Normalization(c, t);
    assert Reduce(t, n + 1) == (v, n);
    TypeSafety(c, t, n + 1);
  }

  lemma {:induction false} Consistency(c: Ctx, t: Term)
    requires c.additive == [] && |c.linear| != 1 && Computational(t) && Infer(c, t).Some?
    ensures var a := Infer(c, t).value; !a.Bot? && !a.Atom? && !a.SpeaksFor? && !a.Lolli?
  {
    hide Infer, Computational;
    var _ := Canonicity(c, t);
  }
}
