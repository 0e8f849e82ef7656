/** The bottom-up type checker and its structural properties. */
module Typing {
  import opened Syntax
  import opened Substitution

  /** Index 0 is the most recent hypothesis. */
  datatype Ctx = Ctx(additive: seq<Prop>, linear: seq<Prop>) {
    function ConsA(a: Prop): Ctx { Ctx([a] + additive, linear) }
    function ConsL(a: Prop): Ctx { Ctx(additive, [a] + linear) }
  }

  function Infer(g: Ctx, t: Term): Option<Prop>
    decreases t, 1
  {
    InferNode(g, t)
  }

  /** Split off so that a proof can unfold one level at a time. */
  function InferNode(g: Ctx, t: Term): Option<Prop>
    decreases t, 0
  {
    match t
    case Var(i) =>
      if i < |g.additive| then Some(g.additive[i])
      else if |g.linear| == 1 && i == 0 then Some(g.linear[0])
      else None
    case Lam(a, b) =>
      var r :- Infer(g.ConsA(a), b);
      Some(Imp(a, r))
    case App(f, x) =>
      var ft :- Infer(g, f);
      var xt :- Infer(g, x);
      if ft.Imp? && ft.left == xt then Some(ft.right) else None
    case Sign(p, m, _) =>
      var a :- Infer(g, m);
      Some(Says(p, a))
    case Verify(p, m, _) =>
      var mt :- Infer(g, m);
      if mt.Says? && mt.p == p then Some(mt.inner) else None
    case Delegate(m, n) =>
      var mt :- Infer(g, m);
      var nt :- Infer(g, n);
      if mt.Says? && mt.inner.SpeaksFor? && mt.inner.p == mt.p && nt.Says? && mt.inner.q == nt.p
      then Some(Says(Principal.Acting(mt.p, nt.p), nt.inner))
      else None
    case Attenuate(m, a) =>
      var mt :- Infer(g, m);
      if mt.Says? then Some(Says(mt.p, a)) else None
    case Boxed(o, m, _) =>
      var a :- Infer(g, m);
      Some(Prop.Boxed(o, a))
    case Discharge(m, _) =>
      var mt :- Infer(g, m);
      if mt.Boxed? then Some(mt.inner) else None
    case LiftLabel(l, m) =>
      var a :- Infer(g, m);
      Some(At(a, l))
    case Declassify(l, m, _) =>
      var mt :- Infer(g, m);
      if mt.At? then Some(At(mt.inner, l)) else None
    case Now(_) => Some(Prop.Top)
    case WithinIntro(tau, m) =>
      var a :- Infer(g, m);
      Some(Prop.Within(tau, a))
    case Pair(m, n) =>
      var a :- Infer(g, m);
      var b :- Infer(g, n);
      Some(Prop.And(a, b))
    case Fst(m) =>
      var mt :- Infer(g, m);
      if mt.And? then Some(mt.left) else None
    case Snd(m) =>
      var mt :- Infer(g, m);
      if mt.And? then Some(mt.right) else None
    case Inl(b, m) =>
      var a :- Infer(g, m);
      Some(Prop.Or(a, b))
    case Inr(a, m) =>
      var b :- Infer(g, m);
      Some(Prop.Or(a, b))
    case Case(m, l, r) =>
      var mt :- Infer(g, m);
      if !mt.Or? then None else
      var lt :- Infer(g.ConsA(mt.left), l);
      var rt :- Infer(g.ConsA(mt.right), r);
      if lt == rt then Some(lt) else None
    case TensorIntro(m, n) =>
      var a :- Infer(g, m);
      var b :- Infer(g, n);
      Some(Prop.Tensor(a, b))
    case LetTensor(m, body) =>
      var mt :- Infer(g, m);
      if mt.Tensor? then Infer(g.ConsL(mt.left).ConsL(mt.right), body) else None
    case SaysBind(p, m, body) =>
      var mt :- Infer(g, m);
      if !(mt.Says? && mt.p == p) then None else
      var b :- Infer(g.ConsA(mt.inner), body);
      Some(Says(p, b))
    case LetSays(p, m, body) =>
      var mt :- Infer(g, m);
      if mt.Says? && mt.p == p then Infer(g.ConsA(mt.inner), body) else None
    case SfExtract(m) =>
      var mt :- Infer(g, m);
      if mt.Says? && mt.inner.SpeaksFor? && mt.inner.p == mt.p then Some(mt.inner) else None
    case Command(m, c, l) =>
      var ct :- Infer(g, c);
      if !ct.Says? then None else
      var mt :- Infer(g, m);
      if mt.Imp? && mt.left == mt.right then Some(Replicated(Imp(mt.left, mt.left), l)) else None
    case RunCmd(v, s) =>
      var vt :- Infer(g, v);
      if !(vt.Replicated? && vt.inner.Imp? && vt.inner.left == vt.inner.right) then None else
      var st :- Infer(g, s);
      if st == vt.inner.left then Some(At(vt.inner.left, vt.l)) else None
  }

  /** Corresponding children are typed alike, under any hypothesis their node binds. */
  ghost predicate TypedAlike(g: Ctx, c: Child, h: Ctx, d: Child)
  {
    && c.binders == d.binders
    && (c.binders == 0 ==> Infer(g, c.term) == Infer(h, d.term))
    && (c.binders == 1 ==> forall a :: Infer(g.ConsA(a), c.term) == Infer(h.ConsA(a), d.term))
  }

  ghost predicate AlikeNodes(g: Ctx, t: Term, h: Ctx, u: Term)
  {
    && Node(t) == Node(u) && |Children(t)| == |Children(u)|
    && forall i :: 0 <= i < |Children(t)| ==> TypedAlike(g, Children(t)[i], h, Children(u)[i])
  }

  /** Except at a variable or a tensor elimination, a node's type is a function of its
      children's types. */
  lemma InferAlike(g: Ctx, t: Term, h: Ctx, u: Term)
    requires AlikeNodes(g, t, h, u) && !t.Var? && !t.LetTensor?
    ensures Infer(g, t) == Infer(h, u)
  {
    hide Infer, InferNode, Children, Node, TypedAlike;
    InferIs(g, t);
    InferIs(h, u);
    if t.Lam? || t.Case? || t.SaysBind? || t.LetSays? { BindingAlike(g, t, h, u); } else { PlainAlike(g, t, h, u); }
  }

  lemma BindingAlike(g: Ctx, t: Term, h: Ctx, u: Term)
    requires AlikeNodes(g, t, h, u) && (t.Lam? || t.Case? || t.SaysBind? || t.LetSays?)
    ensures InferNode(g, t) == InferNode(h, u)
  {
    hide Infer;
    AlikeFields(g, t, h, u);
  }

  lemma PlainAlike(g: Ctx, t: Term, h: Ctx, u: Term)
    requires AlikeNodes(g, t, h, u) && !t.Var? && !t.LetTensor? && !t.Lam? && !t.Case? && !t.SaysBind? && !t.LetSays?
    ensures InferNode(g, t) == InferNode(h, u)
  {
    hide Infer;
    AlikeFields(g, t, h, u);
  }

  lemma AlikeFields(g: Ctx, t: Term, h: Ctx, u: Term)
    requires AlikeNodes(g, t, h, u)
    ensures var c, d := Children(t), Children(u);
      && |c| == |d|
      && (|c| > 0 ==> TypedAlike(g, c[0], h, d[0])) && (|c| > 1 ==> TypedAlike(g, c[1], h, d[1]))
      && (|c| > 2 ==> TypedAlike(g, c[2], h, d[2]))
  {
    hide Infer, TypedAlike, Children, Node;
  }

  lemma InferIs(g: Ctx, t: Term)
    ensures Infer(g, t) == InferNode(g, t)
  {
    hide InferNode;
  }

  lemma HoleTyped(c: Ctx)
    ensures Infer(c, HOLE) == Some(Prop.Top)
  {
  }

  /** Nodes other than tensor eliminations: what `infer` scopes as substitution does. */
  predicate NotTensorElim(n: Term) { !n.LetTensor? }

  ghost predicate TensorElimFree(t: Term)
  {
    Every(t, NotTensorElim)
  }

  lemma TensorElimFreeParts(t: Term)
    requires TensorElimFree(t)
    ensures !t.LetTensor?
    ensures forall i :: 0 <= i < |Children(t)| ==>
      TensorElimFree(Children(t)[i].term) && Children(t)[i].binders <= 1
  {
  }

  /** The same, by field. */
  lemma TensorElimFreeFields(t: Term)
    requires TensorElimFree(t)
    ensures !t.Var? && !t.Lam? && !t.Now? ==> TensorElimFree(t.m)
    ensures t.App? || t.Delegate? || t.Boxed? || t.Discharge? || t.Declassify? ==> TensorElimFree(t.n)
    ensures t.Pair? || t.TensorIntro? || t.Command? || t.RunCmd? ==> TensorElimFree(t.n)
    ensures t.Lam? || t.SaysBind? || t.LetSays? ==> TensorElimFree(t.body)
    ensures t.Case? ==> TensorElimFree(t.left) && TensorElimFree(t.right)
  {
    hide TensorElimFree, Every, Node;
    TensorElimFreeParts(t);
    if |Children(t)| > 0 { assert TensorElimFree(Children(t)[0].term); }
    if |Children(t)| > 1 { assert TensorElimFree(Children(t)[1].term); }
    if |Children(t)| > 2 { assert TensorElimFree(Children(t)[2].term); }
  }

  /** Weakening in the middle of the additive context. The linear context is inert: a
      variable reads it only when it is a singleton. */
  lemma {:induction false} Weakening(g: seq<Prop>, d: seq<Prop>, h: seq<Prop>, lin: seq<Prop>, t: Term)
    requires |lin| != 1 && TensorElimFree(t)
    ensures Infer(Ctx(g + d + h, lin), Shift(t, |d|, |g|)) == Infer(Ctx(g + h, lin), t)
    decreases t
  {
    hide Infer, Shift, Children, Node, TensorElimFree, Every;
    var c, e, u := Ctx(g + h, lin), Ctx(g + d + h, lin), Shift(t, |d|, |g|);
    TensorElimFreeParts(t);
    ShiftNode(t, |d|, |g|);
    if t.Var? {
      InferVar(c, t);
      InferVar(e, u);
    } else {
      forall i | 0 <= i < |Children(t)|
        ensures TypedAlike(c, Children(t)[i], e, Children(u)[i])
      {
        var x := Children(t)[i];
        Weakening(g, d, h, lin, x.term);
        forall a
          ensures Infer(e.ConsA(a), Shift(x.term, |d|, |g| + 1)) == Infer(c.ConsA(a), x.term)
        {
          Weakening([a] + g, d, h, lin, x.term);
          assert [a] + g + d + h == [a] + (g + d + h) && [a] + g + h == [a] + (g + h);
        }
      }
      InferAlike(c, t, e, u);
    }
  }

  lemma InferVar(g: Ctx, t: Term)
    requires t.Var? && |g.linear| != 1
    ensures Infer(g, t) == if t.i < |g.additive| then Some(g.additive[t.i]) else None
  {
  }

  /** Substitution at any depth: replacing a hypothesis by a term of its type. */
  lemma {:induction false} Substituting(g: seq<Prop>, a: Prop, h: seq<Prop>, lin: seq<Prop>, t: Term, v: Term)
    requires |lin| != 1 && TensorElimFree(t) && TensorElimFree(v)
    requires Infer(Ctx(h, lin), v) == Some(a)
    ensures Infer(Ctx(g + h, lin), SubstAt(t, v, |g|)) == Infer(Ctx(g + [a] + h, lin), t)
    decreases t
  {
    hide Infer, Shift, SubstAt, Children, Node, TensorElimFree, Every;
    var c, e, u := Ctx(g + [a] + h, lin), Ctx(g + h, lin), SubstAt(t, v, |g|);
    TensorElimFreeParts(t);
    SubstNode(t, v, |g|);
    if t.Var? {
      InferVar(c, t);
      if t.i == |g| {
        Weakening([], g, h, lin, v);
        assert [] + g + h == g + h && [] + h == h;
      } else {
        InferVar(e, u);
      }
    } else {
      forall i | 0 <= i < |Children(t)|
        ensures TypedAlike(c, Children(t)[i], e, Children(u)[i])
      {
        var x := Children(t)[i];
        Substituting(g, a, h, lin, x.term, v);
        forall b
          ensures Infer(e.ConsA(b), SubstAt(x.term, v, |g| + 1)) == Infer(c.ConsA(b), x.term)
        {
          Substituting([b] + g, a, h, lin, x.term, v);
          assert [b] + g + [a] + h == [b] + (g + [a] + h) && [b] + g + h == [b] + (g + h);
        }
      }
      InferAlike(c, t, e, u);
    }
  }

  /** Substitution for the most recent hypothesis. */
  lemma {:induction false} SubstitutingTop(g: Ctx, a: Prop, t: Term, v: Term)
    requires |g.linear| != 1 && TensorElimFree(t) && TensorElimFree(v)
    requires Infer(g, v) == Some(a)
    ensures Infer(g, Subst(t, v)) == Infer(g.ConsA(a), t)
  {
    hide Infer, SubstAt, TensorElimFree;
    Substituting([], a, g.additive, g.linear, t, v);
    assert [] + g.additive == g.additive && [] + [a] + g.additive == [a] + g.additive;
    assert Ctx(g.additive, g.linear) == g;
  }
}
