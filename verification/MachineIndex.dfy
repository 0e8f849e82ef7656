/** Shifting and substitution on the machine's own indices: 32-bit variables and depths, and a
    signed 32-bit shift. Below the wrap-around they are the natural-number operations. */
module MachineIndex {
  import opened Syntax
  import opened Substitution

  type I32 = x: int | -0x8000_0000 <= x < 0x8000_0000

  function Add32(x: U32, y: U32): U32 { (x + y) % TWO32 }

  /** The two's complement reading of a depth. */
  function AsI32(x: U32): I32 { if x < 0x8000_0000 then x else x - TWO32 }

  /** A shift that would take an index below zero leaves it alone. */
  function Shift32(t: Term, d: I32, c: U32): Term
  {
    match t
    case Var(i) => if i < c || i + d < 0 then t else Var((i + d) % TWO32)
    case Lam(a, b) => Lam(a, Shift32(b, d, Add32(c, 1)))
    case App(m, n) => App(Shift32(m, d, c), Shift32(n, d, c))
    case Sign(p, m, s) => Sign(p, Shift32(m, d, c), s)
    case Verify(p, m, s) => Verify(p, Shift32(m, d, c), s)
    case Delegate(m, n) => Delegate(Shift32(m, d, c), Shift32(n, d, c))
    case Attenuate(m, a) => Attenuate(Shift32(m, d, c), a)
    case SaysBind(p, m, b) => SaysBind(p, Shift32(m, d, c), Shift32(b, d, Add32(c, 1)))
    case Boxed(o, m, n) => Term.Boxed(o, Shift32(m, d, c), Shift32(n, d, c))
    case Discharge(m, n) => Discharge(Shift32(m, d, c), Shift32(n, d, c))
    case LiftLabel(l, m) => LiftLabel(l, Shift32(m, d, c))
    case Declassify(l, m, n) => Declassify(l, Shift32(m, d, c), Shift32(n, d, c))
    case Now(_) => t
    case WithinIntro(tau, m) => WithinIntro(tau, Shift32(m, d, c))
    case Pair(m, n) => Pair(Shift32(m, d, c), Shift32(n, d, c))
    case Fst(m) => Fst(Shift32(m, d, c))
    case Snd(m) => Snd(Shift32(m, d, c))
    case Inl(a, m) => Inl(a, Shift32(m, d, c))
    case Inr(a, m) => Inr(a, Shift32(m, d, c))
    case Case(m, l, r) => Case(Shift32(m, d, c), Shift32(l, d, Add32(c, 1)), Shift32(r, d, Add32(c, 1)))
    case TensorIntro(m, n) => TensorIntro(Shift32(m, d, c), Shift32(n, d, c))
    case LetTensor(m, b) => LetTensor(Shift32(m, d, c), Shift32(b, d, Add32(c, 2)))
    case LetSays(p, m, b) => LetSays(p, Shift32(m, d, c), Shift32(b, d, Add32(c, 1)))
    case SfExtract(m) => SfExtract(Shift32(m, d, c))
    case Command(m, n, l) => Command(Shift32(m, d, c), Shift32(n, d, c), l)
    case RunCmd(m, n) => RunCmd(Shift32(m, d, c), Shift32(n, d, c))
  }

  function SubstAt32(t: Term, v: Term, k: U32): Term
  {
    match t
    case Var(i) => if i == k then Shift32(v, AsI32(k), 0) else if i > k then Var(i - 1) else t
    case Lam(a, b) => Lam(a, SubstAt32(b, v, Add32(k, 1)))
    case App(m, n) => App(SubstAt32(m, v, k), SubstAt32(n, v, k))
    case Sign(p, m, s) => Sign(p, SubstAt32(m, v, k), s)
    case Verify(p, m, s) => Verify(p, SubstAt32(m, v, k), s)
    case Delegate(m, n) => Delegate(SubstAt32(m, v, k), SubstAt32(n, v, k))
    case Attenuate(m, a) => Attenuate(SubstAt32(m, v, k), a)
    case SaysBind(p, m, b) => SaysBind(p, SubstAt32(m, v, k), SubstAt32(b, v, Add32(k, 1)))
    case Boxed(o, m, n) => Term.Boxed(o, SubstAt32(m, v, k), SubstAt32(n, v, k))
    case Discharge(m, n) => Discharge(SubstAt32(m, v, k), SubstAt32(n, v, k))
    case LiftLabel(l, m) => LiftLabel(l, SubstAt32(m, v, k))
    case Declassify(l, m, n) => Declassify(l, SubstAt32(m, v, k), SubstAt32(n, v, k))
    case Now(_) => t
    case WithinIntro(tau, m) => WithinIntro(tau, SubstAt32(m, v, k))
    case Pair(m, n) => Pair(SubstAt32(m, v, k), SubstAt32(n, v, k))
    case Fst(m) => Fst(SubstAt32(m, v, k))
    case Snd(m) => Snd(SubstAt32(m, v, k))
    case Inl(a, m) => Inl(a, SubstAt32(m, v, k))
    case Inr(a, m) => Inr(a, SubstAt32(m, v, k))
    case Case(m, l, r) => Case(SubstAt32(m, v, k), SubstAt32(l, v, Add32(k, 1)), SubstAt32(r, v, Add32(k, 1)))
    case TensorIntro(m, n) => TensorIntro(SubstAt32(m, v, k), SubstAt32(n, v, k))
    case LetTensor(m, b) => LetTensor(SubstAt32(m, v, k), SubstAt32(b, v, Add32(k, 2)))
    case LetSays(p, m, b) => LetSays(p, SubstAt32(m, v, k), SubstAt32(b, v, Add32(k, 1)))
    case SfExtract(m) => SfExtract(SubstAt32(m, v, k))
    case Command(m, n, l) => Command(SubstAt32(m, v, k), SubstAt32(n, v, k), l)
    case RunCmd(m, n) => RunCmd(SubstAt32(m, v, k), SubstAt32(n, v, k))
  }

  lemma Shift32Node(t: Term, d: I32, c: U32)
    ensures var u := Shift32(t, d, c);
      if t.Var? then u == if t.i < c || t.i + d < 0 then t else Var((t.i + d) % TWO32)
      else
        && !u.Var? && Node(u) == Node(t) && |Children(u)| == |Children(t)|
        && forall i :: 0 <= i < |Children(t)| ==>
             Children(u)[i] == Child(Shift32(Children(t)[i].term, d, Add32(c, Children(t)[i].binders)),
                 Children(t)[i].binders)
  {
    hide Add32;
    SameDepth(c);
  }

  lemma SubstAt32Node(t: Term, v: Term, k: U32)
    ensures var u := SubstAt32(t, v, k);
      if t.Var? then u == if t.i == k then Shift32(v, AsI32(k), 0) else if t.i > k then Var(t.i - 1) else t
      else
        && !u.Var? && Node(u) == Node(t) && |Children(u)| == |Children(t)|
        && forall i :: 0 <= i < |Children(t)| ==>
             Children(u)[i] == Child(SubstAt32(Children(t)[i].term, v, Add32(k, Children(t)[i].binders)),
                 Children(t)[i].binders)
  {
    hide Shift32, Add32;
    SameDepth(k);
  }

  lemma SameDepth(c: U32)
    ensures Add32(c, 0) == c
  {
  }

  /** Every variable index in `t`, free or bound, is below `b`. */
  ghost predicate IndicesBelow(t: Term, b: nat) {
    if t.Var? then t.i < b else forall i :: 0 <= i < |Children(t)| ==> IndicesBelow(Children(t)[i].term, b)
  }

  /** No path through `t` binds more than `d` variables. */
  ghost predicate BindsAtMost(t: Term, d: nat) {
    forall i :: 0 <= i < |Children(t)| ==>
      Children(t)[i].binders <= d && BindsAtMost(Children(t)[i].term, d - Children(t)[i].binders)
  }

  /** The 32-bit shift is the natural-number one when neither an index nor a depth wraps. */
  lemma {:induction false} ShiftAgrees(t: Term, d: nat, c: nat, b: nat, e: nat)
    requires IndicesBelow(t, b) && BindsAtMost(t, e)
    requires d < 0x8000_0000 && b + d <= TWO32 && c + e < TWO32
    ensures Shift32(t, d, c) == Shift(t, d, c)
  {
    hide Shift, Shift32, Children, Node;
    var cs := Children(t);
    ShiftNode(t, d, c);
    Shift32Node(t, d, c);
    if !t.Var? {
      forall i | 0 <= i < |cs|
        ensures Shift32(cs[i].term, d, Add32(c, cs[i].binders)) == Shift(cs[i].term, d, c + cs[i].binders)
      {
        ShiftAgrees(cs[i].term, d, c + cs[i].binders, b, e - cs[i].binders);
      }
      Extensional(Shift32(t, d, c), Shift(t, d, c));
    }
  }

  /** So is 32-bit substitution, when the depth reached in the body stays below 2^31 and the
      value's indices, carried to that depth, stay within 32 bits. */
  lemma {:induction false} SubstAgrees(t: Term, v: Term, k: nat, b: nat, e: nat, d: nat)
    requires IndicesBelow(v, b) && BindsAtMost(v, e) && BindsAtMost(t, d)
    requires k + d < 0x8000_0000 && b + k + d <= TWO32 && e < TWO32
    ensures SubstAt32(t, v, k) == SubstAt(t, v, k)
  {
    hide Shift, Shift32, SubstAt, SubstAt32, Children, Node, IndicesBelow;
    var cs := Children(t);
    SubstNode(t, v, k);
    SubstAt32Node(t, v, k);
    if t.Var? {
      if t.i == k { ShiftAgrees(v, k, 0, b, e); }
    } else {
      forall i | 0 <= i < |cs|
        ensures SubstAt32(cs[i].term, v, Add32(k, cs[i].binders)) == SubstAt(cs[i].term, v, k + cs[i].binders)
      {
        SubstAgrees(cs[i].term, v, k + cs[i].binders, b, e, d - cs[i].binders);
      }
      Extensional(SubstAt32(t, v, k), SubstAt(t, v, k));
    }
  }

  /** Machine indices refine unbounded ones: whenever the value's indices and the binder
      depths of body and value together stay below 2^31. */
  lemma {:induction false} MachineSubst(body: Term, v: Term, index: nat, depth: nat)
    requires IndicesBelow(v, index + 1) && BindsAtMost(body, depth) && BindsAtMost(v, depth)
    requires index + depth < 0x8000_0000
    ensures SubstAt32(body, v, 0) == Subst(body, v)
  {
    hide SubstAt32, SubstAt;
    SubstAgrees(body, v, 0, index + 1, depth, depth);
  }

  /** The bounds are those at which the machine operations part from the natural-number ones:
      an index shifted past 2^32 - 1 wraps, and a value placed at depth 2^31 is not shifted
      at all, its shift having turned negative. */
  lemma Parting(v: nat)
    requires v < 0x8000_0000
    ensures Shift32(Var(TWO32 - 1), 1, 0) == Var(0)
    ensures SubstAt32(Var(0x8000_0000), Var(v), 0x8000_0000) == Var(v) != SubstAt(Var(0x8000_0000), Var(v), 0x8000_0000)
  {
  }

  /** A negative shift undoes a positive one. */
  lemma {:induction false} ShiftBack(t: Term, d: nat, c: nat, b: nat, e: nat, back: int)
    requires IndicesBelow(t, b) && BindsAtMost(t, e)
    requires d < 0x8000_0000 && back + d == 0 && b + d <= TWO32 && c + e < TWO32
    ensures Shift32(Shift(t, d, c), back, c) == t
  {
    hide Shift, Shift32, Children, Node;
    var cs := Children(t);
    ShiftNode(t, d, c);
    Shift32Node(Shift(t, d, c), back, c);
    if !t.Var? {
      forall i | 0 <= i < |cs|
        ensures Shift32(Shift(cs[i].term, d, c + cs[i].binders), back, Add32(c, cs[i].binders)) == cs[i].term
      {
        ShiftBack(cs[i].term, d, c + cs[i].binders, b, e - cs[i].binders, back);
      }
      Extensional(Shift32(Shift(t, d, c), back, c), t);
    }
  }
}
