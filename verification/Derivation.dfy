/** The typing rules, one per constructor, and the type checker against them. */
module Derivation {
  import opened Syntax
  import opened Typing

  /** `g` proves `t : a`. The rules name their premises' propositions; evidence, policies and
      the targets of attenuation have no premise, because the checker has none. */
  ghost predicate Derives(g: Ctx, t: Term, a: Prop)
    decreases t, 1
  {
    Rule(g, t, a)
  }

  ghost predicate Rule(g: Ctx, t: Term, a: Prop)
    decreases t, 0
  {
    match t
    // Hypotheses
    case Var(i) => Hypothesis(g, i, a)
    // Implication
    case Lam(b, body) => exists c :: a == Imp(b, c) && Derives(g.ConsA(b), body, c)
    case App(m, n) => exists b :: Derives(g, m, Imp(b, a)) && Derives(g, n, b)
    // Attribution: `p says b` is introduced by p's signature and eliminated under p's name
    case Sign(p, m, _) => exists b :: a == Says(p, b) && Derives(g, m, b)
    case Verify(p, m, _) => Derives(g, m, Says(p, a))
    case LetSays(p, m, body) => exists b :: Derives(g, m, Says(p, b)) && Derives(g.ConsA(b), body, a)
    case SaysBind(p, m, body) =>
      exists b, c :: a == Says(p, c) && Derives(g, m, Says(p, b)) && Derives(g.ConsA(b), body, c)
    case Attenuate(m, b) => exists p, c :: a == Says(p, b) && Derives(g, m, Says(p, c))
    // Delegation: p says that q speaks for p itself, and q, no one else, says b
    case Delegate(m, n) =>
      exists p, q, b :: a == Says(Principal.Acting(p, q), b)
        && Derives(g, m, Says(p, SpeaksFor(q, p))) && Derives(g, n, Says(q, b))
    case SfExtract(m) => exists q, p :: a == SpeaksFor(q, p) && Derives(g, m, Says(p, SpeaksFor(q, p)))
    // Obligations, labels and time
    case Boxed(o, m, _) => exists b :: a == Prop.Boxed(o, b) && Derives(g, m, b)
    case Discharge(m, _) => exists o :: Derives(g, m, Prop.Boxed(o, a))
    case LiftLabel(l, m) => exists b :: a == At(b, l) && Derives(g, m, b)
    case Declassify(l, m, _) => exists b, k :: a == At(b, l) && Derives(g, m, At(b, k))
    case Now(_) => a == Prop.Top
    case WithinIntro(tau, m) => exists b :: a == Prop.Within(tau, b) && Derives(g, m, b)
    // Products and sums
    case Pair(m, n) => exists b, c :: a == Prop.And(b, c) && Derives(g, m, b) && Derives(g, n, c)
    case Fst(m) => exists c :: Derives(g, m, Prop.And(a, c))
    case Snd(m) => exists b :: Derives(g, m, Prop.And(b, a))
    case Inl(c, m) => exists b :: a == Prop.Or(b, c) && Derives(g, m, b)
    case Inr(b, m) => exists c :: a == Prop.Or(b, c) && Derives(g, m, c)
    case Case(m, l, r) =>
      exists b, c :: Derives(g, m, Prop.Or(b, c)) && Derives(g.ConsA(b), l, a) && Derives(g.ConsA(c), r, a)
    case TensorIntro(m, n) => exists b, c :: a == Prop.Tensor(b, c) && Derives(g, m, b) && Derives(g, n, c)
    case LetTensor(m, body) =>
      exists b, c :: Derives(g, m, Prop.Tensor(b, c)) && Derives(Ctx(g.additive, [c, b] + g.linear), body, a)
    // Replication: a transformer with someone's word for it, run on a store of its type
    case Command(m, n, l) =>
      exists b, p, c :: a == Replicated(Imp(b, b), l) && Derives(g, m, Imp(b, b)) && Derives(g, n, Says(p, c))
    case RunCmd(m, n) => exists b, l :: a == At(b, l) && Derives(g, m, Replicated(Imp(b, b), l)) && Derives(g, n, b)
  }

  /** An additive hypothesis, or the only linear one when no additive one has its index. */
  predicate Hypothesis(g: Ctx, i: nat, a: Prop) {
    if i < |g.additive| then g.additive[i] == a else i == 0 && g.linear == [a]
  }

  /** Chains are not spliced: where p's credential lets q speak for it, what r signed is
      delegated to p acting with r exactly when r is q. */
  lemma SplicedExactly(g: Ctx, p: Principal, q: Principal, r: Principal, m: Term, k: Signature, h: Signature)
    requires |g.additive| > 0 && g.additive[0] == SpeaksFor(q, p)
    ensures Infer(g, Delegate(Sign(p, Var(0), k), Sign(r, m, h))) ==
      if r == q && Infer(g, m).Some? then Some(Says(Principal.Acting(p, r), Infer(g, m).value)) else None
  {
    hide Infer;
    InferIs(g, Var(0));
    InferIs(g, Sign(p, Var(0), k));
    InferIs(g, Sign(r, m, h));
    InferIs(g, Delegate(Sign(p, Var(0), k), Sign(r, m, h)));
  }

  lemma DerivesIs(g: Ctx, t: Term, a: Prop)
    ensures Derives(g, t, a) <==> Rule(g, t, a)
  {
    hide Rule;
  }

  /** In every context, the checker decides derivability of a child exactly. */
  ghost predicate Decided(t: Term) {
    && (forall g: Ctx :: Infer(g, t).Some? ==> Derives(g, t, Infer(g, t).value))
    && (forall g: Ctx, a :: Derives(g, t, a) ==> Infer(g, t) == Some(a))
  }

  /** The type checker returns exactly what the rules derive, so that a term has at most one
      type. */
  lemma {:induction false} InferExactly(g: Ctx, t: Term, a: Prop)
    ensures Infer(g, t) == Some(a) <==> Derives(g, t, a)
    decreases t
  {
    hide Infer, Derives, Rule, Children;
    forall i, h: Ctx, b | 0 <= i < |Children(t)|
      ensures Infer(h, Children(t)[i].term) == Some(b) <==> Derives(h, Children(t)[i].term, b)
    {
      InferExactly(h, Children(t)[i].term, b);
    }
    InferIs(g, t);
    DerivesIs(g, t, a);
    NodeExactly(g, t, a);
  }

  ghost predicate PartsDecided(t: Term) {
    var c := Children(t);
    && (|c| > 0 ==> Decided(c[0].term)) && (|c| > 1 ==> Decided(c[1].term)) && (|c| > 2 ==> Decided(c[2].term))
  }

  lemma NodeExactly(g: Ctx, t: Term, a: Prop)
    requires PartsDecided(t)
    ensures InferNode(g, t) == Some(a) <==> Rule(g, t, a)
  {
    hide Infer, InferNode, Derives, Rule, PartsDecided;
    if t.Var? || t.Lam? || t.App? { ImplicationExactly(g, t, a); }
    if t.Sign? || t.Verify? || t.Attenuate? { AttributionExactly(g, t, a); }
    if t.LetSays? || t.SaysBind? { SaysExactly(g, t, a); }
    if t.Case? { CaseExactly(g, t, a); }
    if t.Delegate? || t.SfExtract? { DelegationExactly(g, t, a); }
    if t.Boxed? || t.Discharge? { ObligationExactly(g, t, a); }
    if t.LiftLabel? || t.Declassify? || t.Now? || t.WithinIntro? { LabelExactly(g, t, a); }
    if t.Pair? || t.Fst? || t.Snd? { ProductExactly(g, t, a); }
    if t.Inl? || t.Inr? { SumExactly(g, t, a); }
    if t.TensorIntro? || t.LetTensor? { TensorExactly(g, t, a); }
    if t.Command? { CommandExactly(g, t, a); }
    if t.RunCmd? { RunCmdExactly(g, t, a); }
  }

  lemma ImplicationExactly(g: Ctx, t: Term, a: Prop)
    requires PartsDecided(t) && (t.Var? || t.Lam? || t.App?)
    ensures InferNode(g, t) == Some(a) <==> Rule(g, t, a)
  {
    hide Infer, Derives;
  }

  lemma AttributionExactly(g: Ctx, t: Term, a: Prop)
    requires PartsDecided(t) && (t.Sign? || t.Verify? || t.Attenuate?)
    ensures InferNode(g, t) == Some(a) <==> Rule(g, t, a)
  {
    hide Infer, Derives;
  }

  lemma SaysExactly(g: Ctx, t: Term, a: Prop)
    requires PartsDecided(t) && (t.LetSays? || t.SaysBind?)
    ensures InferNode(g, t) == Some(a) <==> Rule(g, t, a)
  {
    hide Infer, Derives;
  }

  lemma CaseExactly(g: Ctx, t: Term, a: Prop)
    requires PartsDecided(t) && t.Case?
    ensures InferNode(g, t) == Some(a) <==> Rule(g, t, a)
  {
    hide Infer, Derives;
  }

  lemma DelegationExactly(g: Ctx, t: Term, a: Prop)
    requires PartsDecided(t) && (t.Delegate? || t.SfExtract?)
    ensures InferNode(g, t) == Some(a) <==> Rule(g, t, a)
  {
    hide Infer, Derives;
  }

  lemma ObligationExactly(g: Ctx, t: Term, a: Prop)
    requires PartsDecided(t) && (t.Boxed? || t.Discharge?)
    ensures InferNode(g, t) == Some(a) <==> Rule(g, t, a)
  {
    hide Infer, Derives;
  }

  lemma LabelExactly(g: Ctx, t: Term, a: Prop)
    requires PartsDecided(t) && (t.LiftLabel? || t.Declassify? || t.Now? || t.WithinIntro?)
    ensures InferNode(g, t) == Some(a) <==> Rule(g, t, a)
  {
    hide Infer, Derives;
  }

  lemma ProductExactly(g: Ctx, t: Term, a: Prop)
    requires PartsDecided(t) && (t.Pair? || t.Fst? || t.Snd?)
    ensures InferNode(g, t) == Some(a) <==> Rule(g, t, a)
  {
    hide Infer, Derives;
  }

  lemma SumExactly(g: Ctx, t: Term, a: Prop)
    requires PartsDecided(t) && (t.Inl? || t.Inr?)
    ensures InferNode(g, t) == Some(a) <==> Rule(g, t, a)
  {
    hide Infer, Derives;
  }

  lemma TensorExactly(g: Ctx, t: Term, a: Prop)
    requires PartsDecided(t) && (t.TensorIntro? || t.LetTensor?)
    ensures InferNode(g, t) == Some(a) <==> Rule(g, t, a)
  {
    hide Infer, Derives;
    forall b, c ensures Ctx(g.additive, [c, b] + g.linear) == g.ConsL(b).ConsL(c) { TwoLinear(g, b, c); }
  }

  lemma CommandExactly(g: Ctx, t: Term, a: Prop)
    requires PartsDecided(t) && t.Command?
    ensures InferNode(g, t) == Some(a) <==> Rule(g, t, a)
  {
    hide Infer, Derives;
  }

  lemma RunCmdExactly(g: Ctx, t: Term, a: Prop)
    requires PartsDecided(t) && t.RunCmd?
    ensures InferNode(g, t) == Some(a) <==> Rule(g, t, a)
  {
    hide Infer, Derives;
  }

  lemma TwoLinear(g: Ctx, b: Prop, c: Prop)
    ensures Ctx(g.additive, [c, b] + g.linear) == g.ConsL(b).ConsL(c)
  {
    assert [c, b] + g.linear == [c] + ([b] + g.linear);
  }

  /** The decision procedure: whether a term proves a proposition. */
  predicate DecidePure(g: Ctx, t: Term, a: Prop): (r: bool)
    ensures r <==> Derives(g, t, a)
  {
    InferExactly(g, t, a);
    match Infer(g, t)
    case Some(inferred) => inferred == a
    case None => false
  }
}
