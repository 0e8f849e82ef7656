/** What the type checker proves is true, as long as no authority is attenuated by fiat. */
module Soundness {
  import opened Syntax
  import opened Typing

  /** Truth in the Boolean model that reads every modality as transparent, for a valuation
      of the atoms and of the speaks-for relation. */
  ghost predicate True(a: Prop, atoms: U32 -> bool, speaks: (Principal, Principal) -> bool)
  {
    match a
    case Top => true
    case Bot => false
    case Atom(n) => atoms(n)
    case Imp(b, c) => True(b, atoms, speaks) ==> True(c, atoms, speaks)
    case And(b, c) => True(b, atoms, speaks) && True(c, atoms, speaks)
    case Or(b, c) => True(b, atoms, speaks) || True(c, atoms, speaks)
    case Says(_, b) => True(b, atoms, speaks)
    case SpeaksFor(q, p) => speaks(q, p)
    case At(b, _) => True(b, atoms, speaks)
    case Boxed(_, b) => True(b, atoms, speaks)
    case Within(_, b) => True(b, atoms, speaks)
    case Tensor(b, c) => True(b, atoms, speaks) && True(c, atoms, speaks)
    case Lolli(b, c) => True(b, atoms, speaks) ==> True(c, atoms, speaks)
    case Replicated(b, _) => True(b, atoms, speaks)
  }

  ghost predicate AllTrue(c: Ctx, atoms: U32 -> bool, speaks: (Principal, Principal) -> bool)
  {
    && (forall i :: 0 <= i < |c.additive| ==> True(c.additive[i], atoms, speaks))
    && (forall i :: 0 <= i < |c.linear| ==> True(c.linear[i], atoms, speaks))
  }

  predicate NotAttenuate(n: Term) { !n.Attenuate? }

  /** The proposition inferred for `t`, if any, is true. */
  ghost predicate Proved(c: Ctx, t: Term, atoms: U32 -> bool, speaks: (Principal, Principal) -> bool)
  {
    Infer(c, t).Some? ==> True(Infer(c, t).value, atoms, speaks)
  }

  ghost predicate ChildProved(c: Ctx, x: Child, atoms: U32 -> bool, speaks: (Principal, Principal) -> bool)
  {
    && (x.binders == 0 ==> Proved(c, x.term, atoms, speaks))
    && (x.binders == 1 ==> forall a :: True(a, atoms, speaks) ==> Proved(c.ConsA(a), x.term, atoms, speaks))
    && (x.binders == 2 ==> forall a, b :: True(a, atoms, speaks) && True(b, atoms, speaks) ==>
          Proved(c.ConsL(a).ConsL(b), x.term, atoms, speaks))
  }

  /** Attenuation-free inference is sound for every valuation and every context, linear
      hypotheses and tensor eliminations included. */
  lemma {:induction false} Soundness(c: Ctx, t: Term, atoms: U32 -> bool, speaks: (Principal, Principal) -> bool)
    requires Every(t, NotAttenuate) && AllTrue(c, atoms, speaks)
    ensures Proved(c, t, atoms, speaks)
    decreases t
  {
    hide Infer, Proved, True, AllTrue, Children, Node, Every;
    EveryParts(t, NotAttenuate);
    forall i | 0 <= i < |Children(t)|
      ensures ChildProved(c, Children(t)[i], atoms, speaks)
    {
      var x := Children(t)[i];
      if x.binders == 0 { Soundness(c, x.term, atoms, speaks); }
      forall a | True(a, atoms, speaks)
        ensures Proved(c.ConsA(a), x.term, atoms, speaks)
      {
        AllTrueMore(c, a, atoms, speaks);
        Soundness(c.ConsA(a), x.term, atoms, speaks);
      }
      forall a, b | True(a, atoms, speaks) && True(b, atoms, speaks)
        ensures Proved(c.ConsL(a).ConsL(b), x.term, atoms, speaks)
      {
        AllTrueMore(c, a, atoms, speaks);
        AllTrueMore(c.ConsL(a), b, atoms, speaks);
        Soundness(c.ConsL(a).ConsL(b), x.term, atoms, speaks);
      }
    }
    NodeSound(c, t, atoms, speaks);
  }

  lemma AllTrueMore(c: Ctx, a: Prop, atoms: U32 -> bool, speaks: (Principal, Principal) -> bool)
    requires AllTrue(c, atoms, speaks) && True(a, atoms, speaks)
    ensures AllTrue(c.ConsA(a), atoms, speaks) && AllTrue(c.ConsL(a), atoms, speaks)
  {
    hide True;
  }

  lemma EveryParts(t: Term, p: Term -> bool)
    requires Every(t, p)
    ensures p(Node(t)) && forall i :: 0 <= i < |Children(t)| ==> Every(Children(t)[i].term, p)
    ensures t.Attenuate? ==> Node(t).Attenuate?
  {
  }

  /** A node proves something true as soon as its children do. */
  lemma NodeSound(c: Ctx, t: Term, atoms: U32 -> bool, speaks: (Principal, Principal) -> bool)
    requires !t.Attenuate? && AllTrue(c, atoms, speaks)
    requires forall i :: 0 <= i < |Children(t)| ==> ChildProved(c, Children(t)[i], atoms, speaks)
    ensures Proved(c, t, atoms, speaks)
  {
    InferIs(c, t);
    hide Infer;
    var n := |Children(t)|;
    if n > 0 { assert ChildProved(c, Children(t)[0], atoms, speaks); }
    if n > 1 { assert ChildProved(c, Children(t)[1], atoms, speaks); }
    if n > 2 { assert ChildProved(c, Children(t)[2], atoms, speaks); }
    if t.LetTensor? && Infer(c, t).Some? {
      var a := Infer(c, t.m).value;
      assert Proved(c, t.m, atoms, speaks) && True(a, atoms, speaks);
      assert True(a.left, atoms, speaks) && True(a.right, atoms, speaks);
      assert Proved(c.ConsL(a.left).ConsL(a.right), t.body, atoms, speaks);
    }
  }

  /** So no closed attenuation-free term proves an atom, a speaks-for or falsity, nor any
      proposition some valuation falsifies. */
  lemma {:induction false} Unprovable(c: Ctx, t: Term, atoms: U32 -> bool, speaks: (Principal, Principal) -> bool)
    requires c == Ctx([], []) && Every(t, NotAttenuate) && Infer(c, t).Some?
    ensures True(Infer(c, t).value, atoms, speaks)
    ensures var a := Infer(c, t).value; !a.Bot? && !a.Atom? && !a.SpeaksFor?
  {
    hide Infer, Every;
    Soundness(c, t, atoms, speaks);
    Soundness(c, t, _ => false, (_, _) => false);
  }

  /** The side condition of an attenuation is not checked: with one, every proposition has
      a closed proof, so the restriction above cannot be dropped. */
  lemma AttenuationProvesAnything(c: Ctx, p: Principal, a: Prop, g: Signature)
    ensures Infer(c, Verify(p, Attenuate(Sign(p, HOLE, g), a), g)) == Some(a)
  {
    HoleTyped(c);
    assert Infer(c, Sign(p, HOLE, g)) == Some(Says(p, Prop.Top));
    assert Infer(c, Attenuate(Sign(p, HOLE, g), a)) == Some(Says(p, a));
  }
}
