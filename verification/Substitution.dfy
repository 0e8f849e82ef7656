/** Shifting and capture-avoiding substitution on de Bruijn terms, and their algebra. */
module Substitution {
  import opened Syntax

  function Shift(t: Term, d: nat, c: nat): Term
  {
    match t
    case Var(i) => if i < c then t else Var(i + d)
    case Lam(a, b) => Lam(a, Shift(b, d, c + 1))
    case App(m, n) => App(Shift(m, d, c), Shift(n, d, c))
    case Sign(p, m, s) => Sign(p, Shift(m, d, c), s)
    case Verify(p, m, s) => Verify(p, Shift(m, d, c), s)
    case Delegate(m, n) => Delegate(Shift(m, d, c), Shift(n, d, c))
    case Attenuate(m, a) => Attenuate(Shift(m, d, c), a)
    case SaysBind(p, m, b) => SaysBind(p, Shift(m, d, c), Shift(b, d, c + 1))
    case Boxed(o, m, n) => Term.Boxed(o, Shift(m, d, c), Shift(n, d, c))
    case Discharge(m, n) => Discharge(Shift(m, d, c), Shift(n, d, c))
    case LiftLabel(l, m) => LiftLabel(l, Shift(m, d, c))
    case Declassify(l, m, n) => Declassify(l, Shift(m, d, c), Shift(n, d, c))
    case Now(_) => t
    case WithinIntro(tau, m) => WithinIntro(tau, Shift(m, d, c))
    case Pair(m, n) => Pair(Shift(m, d, c), Shift(n, d, c))
    case Fst(m) => Fst(Shift(m, d, c))
    case Snd(m) => Snd(Shift(m, d, c))
    case Inl(a, m) => Inl(a, Shift(m, d, c))
    case Inr(a, m) => Inr(a, Shift(m, d, c))
    case Case(m, l, r) => Case(Shift(m, d, c), Shift(l, d, c + 1), Shift(r, d, c + 1))
    case TensorIntro(m, n) => TensorIntro(Shift(m, d, c), Shift(n, d, c))
    case LetTensor(m, b) => LetTensor(Shift(m, d, c), Shift(b, d, c + 2))
    case LetSays(p, m, b) => LetSays(p, Shift(m, d, c), Shift(b, d, c + 1))
    case SfExtract(m) => SfExtract(Shift(m, d, c))
    case Command(m, n, l) => Command(Shift(m, d, c), Shift(n, d, c), l)
    case RunCmd(m, n) => RunCmd(Shift(m, d, c), Shift(n, d, c))
  }

  function SubstAt(t: Term, v: Term, k: nat): Term
  {
    match t
    case Var(i) => if i == k then Shift(v, k, 0) else if i > k then Var(i - 1) else t
    case Lam(a, b) => Lam(a, SubstAt(b, v, k + 1))
    case App(m, n) => App(SubstAt(m, v, k), SubstAt(n, v, k))
    case Sign(p, m, s) => Sign(p, SubstAt(m, v, k), s)
    case Verify(p, m, s) => Verify(p, SubstAt(m, v, k), s)
    case Delegate(m, n) => Delegate(SubstAt(m, v, k), SubstAt(n, v, k))
    case Attenuate(m, a) => Attenuate(SubstAt(m, v, k), a)
    case SaysBind(p, m, b) => SaysBind(p, SubstAt(m, v, k), SubstAt(b, v, k + 1))
    case Boxed(o, m, n) => Term.Boxed(o, SubstAt(m, v, k), SubstAt(n, v, k))
    case Discharge(m, n) => Discharge(SubstAt(m, v, k), SubstAt(n, v, k))
    case LiftLabel(l, m) => LiftLabel(l, SubstAt(m, v, k))
    case Declassify(l, m, n) => Declassify(l, SubstAt(m, v, k), SubstAt(n, v, k))
    case Now(_) => t
    case WithinIntro(tau, m) => WithinIntro(tau, SubstAt(m, v, k))
    case Pair(m, n) => Pair(SubstAt(m, v, k), SubstAt(n, v, k))
    case Fst(m) => Fst(SubstAt(m, v, k))
    case Snd(m) => Snd(SubstAt(m, v, k))
    case Inl(a, m) => Inl(a, SubstAt(m, v, k))
    case Inr(a, m) => Inr(a, SubstAt(m, v, k))
    case Case(m, l, r) => Case(SubstAt(m, v, k), SubstAt(l, v, k + 1), SubstAt(r, v, k + 1))
    case TensorIntro(m, n) => TensorIntro(SubstAt(m, v, k), SubstAt(n, v, k))
    case LetTensor(m, b) => LetTensor(SubstAt(m, v, k), SubstAt(b, v, k + 2))
    case LetSays(p, m, b) => LetSays(p, SubstAt(m, v, k), SubstAt(b, v, k + 1))
    case SfExtract(m) => SfExtract(SubstAt(m, v, k))
    case Command(m, n, l) => Command(SubstAt(m, v, k), SubstAt(n, v, k), l)
    case RunCmd(m, n) => RunCmd(SubstAt(m, v, k), SubstAt(n, v, k))
  }

  function Subst(body: Term, v: Term): Term
  {
    SubstAt(body, v, 0)
  }

  /** How the operations act on a node: on a variable directly, otherwise child by child. */
  lemma ShiftNode(t: Term, d: nat, c: nat)
    ensures var u := Shift(t, d, c);
      if t.Var? then u == if t.i < c then t else Var(t.i + d)
      else
        && !u.Var? && Node(u) == Node(t) && |Children(u)| == |Children(t)|
        && forall i :: 0 <= i < |Children(t)| ==>
             Children(u)[i] == Child(Shift(Children(t)[i].term, d, c + Children(t)[i].binders), Children(t)[i].binders)
  {
  }

  lemma SubstNode(t: Term, v: Term, k: nat)
    ensures var u := SubstAt(t, v, k);
      if t.Var? then u == if t.i == k then Shift(v, k, 0) else if t.i > k then Var(t.i - 1) else t
      else
        && !u.Var? && Node(u) == Node(t) && |Children(u)| == |Children(t)|
        && forall i :: 0 <= i < |Children(t)| ==>
             Children(u)[i] == Child(SubstAt(Children(t)[i].term, v, k + Children(t)[i].binders),
                 Children(t)[i].binders)
  {
    hide Shift;
  }

  // One unfolding of substitution, for each elimination and for the introductions it meets.

  lemma SubstApp(m: Term, n: Term, v: Term, k: nat)
    ensures SubstAt(App(m, n), v, k) == App(SubstAt(m, v, k), SubstAt(n, v, k))
  {}

  lemma SubstCase(m: Term, l: Term, r: Term, v: Term, k: nat)
    ensures SubstAt(Case(m, l, r), v, k) == Case(SubstAt(m, v, k), SubstAt(l, v, k + 1), SubstAt(r, v, k + 1))
  {}

  lemma SubstLetTensor(m: Term, b: Term, v: Term, k: nat)
    ensures SubstAt(LetTensor(m, b), v, k) == LetTensor(SubstAt(m, v, k), SubstAt(b, v, k + 2))
  {}

  lemma SubstSaysBind(p: Principal, m: Term, b: Term, v: Term, k: nat)
    ensures SubstAt(SaysBind(p, m, b), v, k) == SaysBind(p, SubstAt(m, v, k), SubstAt(b, v, k + 1))
  {}

  lemma SubstLetSays(p: Principal, m: Term, b: Term, v: Term, k: nat)
    ensures SubstAt(LetSays(p, m, b), v, k) == LetSays(p, SubstAt(m, v, k), SubstAt(b, v, k + 1))
  {}

  lemma SubstSfExtract(m: Term, v: Term, k: nat)
    ensures SubstAt(SfExtract(m), v, k) == SfExtract(SubstAt(m, v, k))
  {}

  lemma SubstLam(a: Prop, b: Term, v: Term, k: nat)
    ensures SubstAt(Lam(a, b), v, k) == Lam(a, SubstAt(b, v, k + 1))
  {}

  lemma SubstSign(p: Principal, m: Term, g: Signature, v: Term, k: nat)
    ensures SubstAt(Sign(p, m, g), v, k) == Sign(p, SubstAt(m, v, k), g)
  {}

  lemma SubstInl(a: Prop, m: Term, v: Term, k: nat)
    ensures SubstAt(Inl(a, m), v, k) == Inl(a, SubstAt(m, v, k))
  {}

  lemma SubstInr(a: Prop, m: Term, v: Term, k: nat)
    ensures SubstAt(Inr(a, m), v, k) == Inr(a, SubstAt(m, v, k))
  {}

  lemma SubstTensorIntro(m: Term, n: Term, v: Term, k: nat)
    ensures SubstAt(TensorIntro(m, n), v, k) == TensorIntro(SubstAt(m, v, k), SubstAt(n, v, k))
  {}

  lemma {:induction false} ShiftZero(t: Term, c: nat)
    ensures Shift(t, 0, c) == t
  {
    hide *;
    var cs := Children(t);
    ShiftNode(t, 0, c);
    if !t.Var? {
      forall i | 0 <= i < |cs|
        ensures Shift(cs[i].term, 0, c + cs[i].binders) == cs[i].term
      {
        ShiftZero(cs[i].term, c + cs[i].binders);
      }
      Extensional(Shift(t, 0, c), t);
    }
  }

  /** Two shifts merge when the second one's cutoff falls in the gap the first one opened. */
  lemma {:induction false} ShiftMerge(t: Term, d: nat, c: nat, e: nat, b: nat)
    requires c <= b <= c + d
    ensures Shift(Shift(t, d, c), e, b) == Shift(t, d + e, c)
  {
    hide *;
    var cs, u := Children(t), Shift(t, d, c);
    ShiftNode(t, d, c);
    ShiftNode(u, e, b);
    ShiftNode(t, d + e, c);
    if !t.Var? {
      forall i | 0 <= i < |cs|
        ensures Shift(Shift(cs[i].term, d, c + cs[i].binders), e, b + cs[i].binders)
             == Shift(cs[i].term, d + e, c + cs[i].binders)
      {
        ShiftMerge(cs[i].term, d, c + cs[i].binders, e, b + cs[i].binders);
      }
      Extensional(Shift(u, e, b), Shift(t, d + e, c));
    }
  }

  /** Two shifts commute, the outer cutoff moving up past the inner gap. */
  lemma {:induction false} ShiftCommute(t: Term, d: nat, c: nat, e: nat, b: nat)
    requires c <= b
    ensures Shift(Shift(t, e, b), d, c) == Shift(Shift(t, d, c), e, b + d)
  {
    hide *;
    var cs := Children(t);
    ShiftNode(t, e, b);
    ShiftNode(t, d, c);
    ShiftNode(Shift(t, e, b), d, c);
    ShiftNode(Shift(t, d, c), e, b + d);
    if !t.Var? {
      forall i | 0 <= i < |cs|
        ensures Shift(Shift(cs[i].term, e, b + cs[i].binders), d, c + cs[i].binders)
             == Shift(Shift(cs[i].term, d, c + cs[i].binders), e, b + d + cs[i].binders)
      {
        ShiftCommute(cs[i].term, d, c + cs[i].binders, e, b + cs[i].binders);
      }
      Extensional(Shift(Shift(t, e, b), d, c), Shift(Shift(t, d, c), e, b + d));
    }
  }

  /** Shifting below the substituted index moves that index. */
  lemma {:induction false} ShiftSubstBelow(t: Term, v: Term, k: nat, d: nat, c: nat)
    requires c <= k
    ensures Shift(SubstAt(t, v, k), d, c) == SubstAt(Shift(t, d, c), v, k + d)
  {
    hide *;
    var cs := Children(t);
    SubstNode(t, v, k);
    ShiftNode(t, d, c);
    ShiftNode(SubstAt(t, v, k), d, c);
    SubstNode(Shift(t, d, c), v, k + d);
    if t.Var? {
      if t.i == k { ShiftMerge(v, k, 0, d, c); }
    } else {
      forall i | 0 <= i < |cs|
        ensures Shift(SubstAt(cs[i].term, v, k + cs[i].binders), d, c + cs[i].binders)
             == SubstAt(Shift(cs[i].term, d, c + cs[i].binders), v, k + d + cs[i].binders)
      {
        ShiftSubstBelow(cs[i].term, v, k + cs[i].binders, d, c + cs[i].binders);
      }
      Extensional(Shift(SubstAt(t, v, k), d, c), SubstAt(Shift(t, d, c), v, k + d));
    }
  }

  /** Shifting above the substituted index shifts the value too. */
  lemma {:induction false} ShiftSubstAbove(t: Term, v: Term, k: nat, d: nat, c: nat)
    requires k <= c
    ensures Shift(SubstAt(t, v, k), d, c) == SubstAt(Shift(t, d, c + 1), Shift(v, d, c - k), k)
  {
    hide *;
    var cs, w := Children(t), Shift(v, d, c - k);
    SubstNode(t, v, k);
    ShiftNode(t, d, c + 1);
    ShiftNode(SubstAt(t, v, k), d, c);
    SubstNode(Shift(t, d, c + 1), w, k);
    if t.Var? {
      if t.i == k { ShiftCommute(v, k, 0, d, c - k); }
    } else {
      forall i | 0 <= i < |cs|
        ensures Shift(SubstAt(cs[i].term, v, k + cs[i].binders), d, c + cs[i].binders)
             == SubstAt(Shift(cs[i].term, d, c + 1 + cs[i].binders), w, k + cs[i].binders)
      {
        ShiftSubstAbove(cs[i].term, v, k + cs[i].binders, d, c + cs[i].binders);
      }
      Extensional(Shift(SubstAt(t, v, k), d, c), SubstAt(Shift(t, d, c + 1), w, k));
    }
  }

  /** Substituting for an index in a gap opened by a shift only closes that index. */
  lemma {:induction false} SubstCancel(t: Term, v: Term, k: nat, d: nat, c: nat)
    requires c <= k <= c + d
    ensures SubstAt(Shift(t, d + 1, c), v, k) == Shift(t, d, c)
  {
    hide *;
    var cs := Children(t);
    ShiftNode(t, d + 1, c);
    ShiftNode(t, d, c);
    SubstNode(Shift(t, d + 1, c), v, k);
    if !t.Var? {
      forall i | 0 <= i < |cs|
        ensures SubstAt(Shift(cs[i].term, d + 1, c + cs[i].binders), v, k + cs[i].binders)
             == Shift(cs[i].term, d, c + cs[i].binders)
      {
        SubstCancel(cs[i].term, v, k + cs[i].binders, d, c + cs[i].binders);
      }
      Extensional(SubstAt(Shift(t, d + 1, c), v, k), Shift(t, d, c));
    }
  }

  /** The composition law of substitution. */
  lemma {:induction false} SubstCompose(t: Term, n: Term, j: nat, p: Term, k: nat)
    requires j <= k
    ensures SubstAt(SubstAt(t, n, j), p, k) == SubstAt(SubstAt(t, p, k + 1), SubstAt(n, p, k - j), j)
  {
    hide *;
    var cs, m := Children(t), SubstAt(n, p, k - j);
    SubstNode(t, n, j);
    SubstNode(t, p, k + 1);
    SubstNode(SubstAt(t, n, j), p, k);
    SubstNode(SubstAt(t, p, k + 1), m, j);
    if t.Var? {
      if t.i == j { ShiftSubstBelow(n, p, k - j, j, 0); }
      if t.i == k + 1 { SubstCancel(p, SubstAt(n, p, k - j), j, k, 0); }
    } else {
      forall i | 0 <= i < |cs|
        ensures SubstAt(SubstAt(cs[i].term, n, j + cs[i].binders), p, k + cs[i].binders)
             == SubstAt(SubstAt(cs[i].term, p, k + 1 + cs[i].binders), m, j + cs[i].binders)
      {
        SubstCompose(cs[i].term, n, j + cs[i].binders, p, k + cs[i].binders);
      }
      Extensional(SubstAt(SubstAt(t, n, j), p, k), SubstAt(SubstAt(t, p, k + 1), m, j));
    }
  }

  /** Simultaneous substitution of `s[0], s[1], ...` for the indices `k, k + 1, ...`. */
  function Simultaneous(t: Term, s: seq<Term>, k: nat): Term
  {
    match t
    case Var(i) => if i < k then t else if i < k + |s| then Shift(s[i - k], k, 0) else Var(i - |s|)
    case Lam(a, b) => Lam(a, Simultaneous(b, s, k + 1))
    case App(m, n) => App(Simultaneous(m, s, k), Simultaneous(n, s, k))
    case Sign(p, m, g) => Sign(p, Simultaneous(m, s, k), g)
    case Verify(p, m, g) => Verify(p, Simultaneous(m, s, k), g)
    case Delegate(m, n) => Delegate(Simultaneous(m, s, k), Simultaneous(n, s, k))
    case Attenuate(m, a) => Attenuate(Simultaneous(m, s, k), a)
    case SaysBind(p, m, b) => SaysBind(p, Simultaneous(m, s, k), Simultaneous(b, s, k + 1))
    case Boxed(o, m, n) => Term.Boxed(o, Simultaneous(m, s, k), Simultaneous(n, s, k))
    case Discharge(m, n) => Discharge(Simultaneous(m, s, k), Simultaneous(n, s, k))
    case LiftLabel(l, m) => LiftLabel(l, Simultaneous(m, s, k))
    case Declassify(l, m, n) => Declassify(l, Simultaneous(m, s, k), Simultaneous(n, s, k))
    case Now(_) => t
    case WithinIntro(tau, m) => WithinIntro(tau, Simultaneous(m, s, k))
    case Pair(m, n) => Pair(Simultaneous(m, s, k), Simultaneous(n, s, k))
    case Fst(m) => Fst(Simultaneous(m, s, k))
    case Snd(m) => Snd(Simultaneous(m, s, k))
    case Inl(a, m) => Inl(a, Simultaneous(m, s, k))
    case Inr(a, m) => Inr(a, Simultaneous(m, s, k))
    case Case(m, l, r) => Case(Simultaneous(m, s, k), Simultaneous(l, s, k + 1), Simultaneous(r, s, k + 1))
    case TensorIntro(m, n) => TensorIntro(Simultaneous(m, s, k), Simultaneous(n, s, k))
    case LetTensor(m, b) => LetTensor(Simultaneous(m, s, k), Simultaneous(b, s, k + 2))
    case LetSays(p, m, b) => LetSays(p, Simultaneous(m, s, k), Simultaneous(b, s, k + 1))
    case SfExtract(m) => SfExtract(Simultaneous(m, s, k))
    case Command(m, n, l) => Command(Simultaneous(m, s, k), Simultaneous(n, s, k), l)
    case RunCmd(m, n) => RunCmd(Simultaneous(m, s, k), Simultaneous(n, s, k))
  }

  lemma SimultaneousNode(t: Term, s: seq<Term>, k: nat)
    ensures var u := Simultaneous(t, s, k);
      if t.Var? then u == if t.i < k then t else if t.i < k + |s| then Shift(s[t.i - k], k, 0) else Var(t.i - |s|)
      else
        && !u.Var? && Node(u) == Node(t) && |Children(u)| == |Children(t)|
        && forall i :: 0 <= i < |Children(t)| ==>
             Children(u)[i] == Child(Simultaneous(Children(t)[i].term, s, k + Children(t)[i].binders),
                 Children(t)[i].binders)
  {
    hide Shift;
  }

  /** Substituting one more term after a simultaneous substitution extends the latter. */
  lemma {:induction false} SimultaneousCons(t: Term, v: Term, s: seq<Term>, k: nat)
    ensures SubstAt(Simultaneous(t, s, k + 1), v, k) == Simultaneous(t, [v] + s, k)
  {
    hide *;
    var cs := Children(t);
    SimultaneousNode(t, s, k + 1);
    SimultaneousNode(t, [v] + s, k);
    SubstNode(Simultaneous(t, s, k + 1), v, k);
    if t.Var? {
      if k < t.i <= k + |s| { SubstCancel(s[t.i - k - 1], v, k, k, 0); }
    } else {
      forall i | 0 <= i < |cs|
        ensures SubstAt(Simultaneous(cs[i].term, s, k + 1 + cs[i].binders), v, k + cs[i].binders)
             == Simultaneous(cs[i].term, [v] + s, k + cs[i].binders)
      {
        SimultaneousCons(cs[i].term, v, s, k + cs[i].binders);
      }
      Extensional(SubstAt(Simultaneous(t, s, k + 1), v, k), Simultaneous(t, [v] + s, k));
    }
  }

  /** With enough variables, the identity environment changes nothing. */
  lemma {:induction false} SimultaneousIdentity(t: Term, s: seq<Term>, k: nat)
    requires forall i :: 0 <= i < |s| ==> s[i] == Var(i)
    requires Scoped(t, k + |s|)
    ensures Simultaneous(t, s, k) == t
  {
    hide Shift, SubstAt, Simultaneous, Children, Node;
    var cs := Children(t);
    SimultaneousNode(t, s, k);
    if t.Var? {
      if k <= t.i { ShiftNode(s[t.i - k], k, 0); }
    } else {
      forall i | 0 <= i < |cs|
        ensures Simultaneous(cs[i].term, s, k + cs[i].binders) == cs[i].term
      {
        SimultaneousIdentity(cs[i].term, s, k + cs[i].binders);
      }
      Extensional(Simultaneous(t, s, k), t);
    }
  }

  /** The two-step contraction of a tensor elimination is the simultaneous substitution of
      the first component for index 0 and the second for index 1. */
  lemma {:induction false} TensorContraction(body: Term, a: Term, b: Term)
    ensures Subst(Subst(body, Shift(a, 1, 0)), b) == Simultaneous(body, [a, b], 0)
  {
    hide Shift, SubstAt, Simultaneous;
    SubstCompose(body, Shift(a, 1, 0), 0, b, 0);
    SubstCancel(a, b, 0, 0, 0);
    ShiftZero(a, 0);
    SimultaneousCons(body, b, [], 1);
    SimultaneousEmpty(body, 2);
    SimultaneousCons(body, a, [b], 0);
    assert [a] + [b] == [a, b] && [b] + [] == [b];
  }

  lemma {:induction false} SimultaneousEmpty(t: Term, k: nat)
    ensures Simultaneous(t, [], k) == t
  {
    hide *;
    var cs := Children(t);
    SimultaneousNode(t, [], k);
    if !t.Var? {
      forall i | 0 <= i < |cs|
        ensures Simultaneous(cs[i].term, [], k + cs[i].binders) == cs[i].term
      {
        SimultaneousEmpty(cs[i].term, k + cs[i].binders);
      }
      Extensional(Simultaneous(t, [], k), t);
    }
  }

  /** Scoping: a shift opens a gap, a substitution closes one. */
  lemma {:induction false} ShiftScoped(t: Term, d: nat, c: nat, k: nat)
    requires Scoped(t, k)
    ensures Scoped(Shift(t, d, c), k + d)
  {
    hide Shift, SubstAt, Simultaneous, Children, Node;
    var cs, u := Children(t), Shift(t, d, c);
    ShiftNode(t, d, c);
    if !t.Var? {
      forall i | 0 <= i < |cs|
        ensures Scoped(Children(u)[i].term, k + d + Children(u)[i].binders)
      {
        ShiftScoped(cs[i].term, d, c + cs[i].binders, k + cs[i].binders);
      }
    }
  }

  lemma {:induction false} SubstScoped(t: Term, v: Term, j: nat, k: nat)
    requires Scoped(t, j + k + 1) && Scoped(v, k)
    ensures Scoped(SubstAt(t, v, j), j + k)
  {
    hide Shift, SubstAt, Simultaneous, Children, Node;
    var cs, u := Children(t), SubstAt(t, v, j);
    SubstNode(t, v, j);
    if t.Var? {
      ShiftScoped(v, j, 0, k);
    } else {
      forall i | 0 <= i < |cs|
        ensures Scoped(Children(u)[i].term, j + k + Children(u)[i].binders)
      {
        SubstScoped(cs[i].term, v, j + cs[i].binders, k);
      }
    }
  }

  lemma {:induction false} ScopedMore(t: Term, k: nat, j: nat)
    requires Scoped(t, k) && k <= j
    ensures Scoped(t, j)
  {
    hide Children;
    forall i | 0 <= i < |Children(t)| && !t.Var?
      ensures Scoped(Children(t)[i].term, j + Children(t)[i].binders)
    {
      ScopedMore(Children(t)[i].term, k + Children(t)[i].binders, j + Children(t)[i].binders);
    }
  }

  /** Every term is scoped somewhere. */
  lemma {:induction false} ScopeBound(t: Term) returns (k: nat)
    ensures Scoped(t, k)
  {
    hide Children;
    k := if t.Var? then t.i + 1 else 0;
    var cs := Children(t);
    for i := 0 to |cs|
      invariant t.Var? ==> t.i < k
      invariant forall j :: 0 <= j < i ==> Scoped(cs[j].term, k + cs[j].binders)
    {
      var b := ScopeBound(cs[i].term);
      var previous := k;
      k := k + b;
      ScopedMore(cs[i].term, b, k + cs[i].binders);
      forall j | 0 <= j < i
        ensures Scoped(cs[j].term, k + cs[j].binders)
      {
        ScopedMore(cs[j].term, previous + cs[j].binders, k + cs[j].binders);
      }
    }
  }

  /** Shifting and substituting past the scope of a term change nothing. */
  lemma {:induction false} ShiftClosed(t: Term, d: nat, c: nat)
    requires Scoped(t, c)
    ensures Shift(t, d, c) == t
  {
    hide Shift, Children, Node;
    var cs := Children(t);
    ShiftNode(t, d, c);
    if !t.Var? {
      forall i | 0 <= i < |cs|
        ensures Shift(cs[i].term, d, c + cs[i].binders) == cs[i].term
      {
        ShiftClosed(cs[i].term, d, c + cs[i].binders);
      }
      Extensional(Shift(t, d, c), t);
    }
  }

  lemma {:induction false} SubstClosed(t: Term, v: Term, k: nat)
    requires Scoped(t, k)
    ensures SubstAt(t, v, k) == t
  {
    hide SubstAt, Children, Node;
    var cs := Children(t);
    SubstNode(t, v, k);
    if !t.Var? {
      forall i | 0 <= i < |cs|
        ensures SubstAt(cs[i].term, v, k + cs[i].binders) == cs[i].term
      {
        SubstClosed(cs[i].term, v, k + cs[i].binders);
      }
      Extensional(SubstAt(t, v, k), t);
    }
  }
}
