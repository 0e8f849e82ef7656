/** The abstract syntax of the calculus: principals, obligations, propositions and the
    26 proof-term constructors, with a uniform view of a term as a node with children.

    Machine integers are subset types, except that a de Bruijn index is a `nat`;
    module `MachineIndex` relates the natural-number operations to the 32-bit ones. */
module Syntax {
  type U8 = x: int | 0 <= x < 0x100
  type U32 = x: int | 0 <= x < 0x1_0000_0000
  type U64 = x: int | 0 <= x < 0x1_0000_0000_0000_0000

  /** Where 32-bit arithmetic wraps. */
  const TWO32: nat := 0x1_0000_0000

  /** A byte string whose length a 64-bit machine can hold. */
  type Bytes = s: seq<U8> | |s| < 0x1_0000_0000_0000_0000
  type Bytes32 = s: seq<U8> | |s| == 32 witness seq(32, _ => 0)
  type Bytes64 = s: seq<U8> | |s| == 64 witness seq(64, _ => 0)

  datatype Option<+T> = None | Some(value: T) {
    predicate IsFailure() { None? }

    function PropagateFailure<U>(): Option<U>
      requires None?
    {
      None
    }

    function Extract(): T
      requires Some?
    {
      value
    }
  }

  datatype Principal =
    | Atom(id: Bytes32)
    | And(left: Principal, right: Principal)
    | Or(left: Principal, right: Principal)
    | Acting(left: Principal, right: Principal)

  type Label = s: seq<U32> | |s| < 0x1_0000_0000_0000_0000

  datatype TimeBound = TimeBound(epochMs: U64)

  datatype DpBudget = DpBudget(epsilonMicros: U64, deltaMicros: U64)

  datatype Obligation =
    | Top
    | Bot
    | ActOf(who: Principal, action: Bytes)
    | Within(tau: TimeBound)
    | Tensor(left: Obligation, right: Obligation)
    | Lolli(left: Obligation, right: Obligation)
    | Budget(budget: DpBudget)

  datatype Prop =
    | Top
    | Bot
    | Atom(n: U32)
    | Imp(left: Prop, right: Prop)
    | And(left: Prop, right: Prop)
    | Or(left: Prop, right: Prop)
    | Says(p: Principal, inner: Prop)
    | SpeaksFor(q: Principal, p: Principal)
    | At(inner: Prop, l: Label)
    | Boxed(o: Obligation, inner: Prop)
    | Within(tau: TimeBound, inner: Prop)
    | Tensor(left: Prop, right: Prop)
    | Lolli(left: Prop, right: Prop)
    | Replicated(inner: Prop, l: Label)

  datatype Signature = Signature(alg: U8, bytes: Bytes)

  /** Proof terms. In every elimination form the first subterm `m` is the scrutinee. */
  datatype Term =
    | Var(i: nat)
    | Lam(dom: Prop, body: Term)
    | App(m: Term, n: Term)
    | Sign(p: Principal, m: Term, sig: Signature)
    | Verify(p: Principal, m: Term, sig: Signature)
    | Delegate(m: Term, n: Term)
    | Attenuate(m: Term, target: Prop)
    | SaysBind(p: Principal, m: Term, body: Term)
    | Boxed(o: Obligation, m: Term, n: Term)
    | Discharge(m: Term, n: Term)
    | LiftLabel(l: Label, m: Term)
    | Declassify(l: Label, m: Term, n: Term)
    | Now(tau: TimeBound)
    | WithinIntro(tau: TimeBound, m: Term)
    | Pair(m: Term, n: Term)
    | Fst(m: Term)
    | Snd(m: Term)
    | Inl(other: Prop, m: Term)
    | Inr(other: Prop, m: Term)
    | Case(m: Term, left: Term, right: Term)
    | TensorIntro(m: Term, n: Term)
    | LetTensor(m: Term, body: Term)
    | LetSays(p: Principal, m: Term, body: Term)
    | SfExtract(m: Term)
    | Command(m: Term, n: Term, l: Label)
    | RunCmd(m: Term, n: Term)

  /** A child of a node, with the number of variables the node binds in it. */
  datatype Child = Child(term: Term, binders: nat)

  function Children(t: Term): (r: seq<Child>)
    ensures forall i :: 0 <= i < |r| ==> r[i].term < t && r[i].binders <= 2
    ensures !t.LetTensor? ==> forall i :: 0 <= i < |r| ==> r[i].binders <= 1
  {
    match t
    case Var(_) => []
    case Lam(_, b) => [Child(b, 1)]
    case App(m, n) => [Child(m, 0), Child(n, 0)]
    case Sign(_, m, _) => [Child(m, 0)]
    case Verify(_, m, _) => [Child(m, 0)]
    case Delegate(m, n) => [Child(m, 0), Child(n, 0)]
    case Attenuate(m, _) => [Child(m, 0)]
    case SaysBind(_, m, b) => [Child(m, 0), Child(b, 1)]
    case Boxed(_, m, n) => [Child(m, 0), Child(n, 0)]
    case Discharge(m, n) => [Child(m, 0), Child(n, 0)]
    case LiftLabel(_, m) => [Child(m, 0)]
    case Declassify(_, m, n) => [Child(m, 0), Child(n, 0)]
    case Now(_) => []
    case WithinIntro(_, m) => [Child(m, 0)]
    case Pair(m, n) => [Child(m, 0), Child(n, 0)]
    case Fst(m) => [Child(m, 0)]
    case Snd(m) => [Child(m, 0)]
    case Inl(_, m) => [Child(m, 0)]
    case Inr(_, m) => [Child(m, 0)]
    case Case(m, l, r) => [Child(m, 0), Child(l, 1), Child(r, 1)]
    case TensorIntro(m, n) => [Child(m, 0), Child(n, 0)]
    case LetTensor(m, b) => [Child(m, 0), Child(b, 2)]
    case LetSays(_, m, b) => [Child(m, 0), Child(b, 1)]
    case SfExtract(m) => [Child(m, 0)]
    case Command(m, n, _) => [Child(m, 0), Child(n, 0)]
    case RunCmd(m, n) => [Child(m, 0), Child(n, 0)]
  }

  const HOLE: Term := Now(TimeBound(0))

  /** The node itself: its constructor and annotations, with every child blanked out. */
  function Node(t: Term): Term
  {
    match t
    case Var(_) => t
    case Lam(a, _) => Lam(a, HOLE)
    case App(_, _) => App(HOLE, HOLE)
    case Sign(p, _, s) => Sign(p, HOLE, s)
    case Verify(p, _, s) => Verify(p, HOLE, s)
    case Delegate(_, _) => Delegate(HOLE, HOLE)
    case Attenuate(_, a) => Attenuate(HOLE, a)
    case SaysBind(p, _, _) => SaysBind(p, HOLE, HOLE)
    case Boxed(o, _, _) => Term.Boxed(o, HOLE, HOLE)
    case Discharge(_, _) => Discharge(HOLE, HOLE)
    case LiftLabel(l, _) => LiftLabel(l, HOLE)
    case Declassify(l, _, _) => Declassify(l, HOLE, HOLE)
    case Now(_) => t
    case WithinIntro(tau, _) => WithinIntro(tau, HOLE)
    case Pair(_, _) => Pair(HOLE, HOLE)
    case Fst(_) => Fst(HOLE)
    case Snd(_) => Snd(HOLE)
    case Inl(a, _) => Inl(a, HOLE)
    case Inr(a, _) => Inr(a, HOLE)
    case Case(_, _, _) => Case(HOLE, HOLE, HOLE)
    case TensorIntro(_, _) => TensorIntro(HOLE, HOLE)
    case LetTensor(_, _) => LetTensor(HOLE, HOLE)
    case LetSays(p, _, _) => LetSays(p, HOLE, HOLE)
    case SfExtract(_) => SfExtract(HOLE)
    case Command(_, _, l) => Command(HOLE, HOLE, l)
    case RunCmd(_, _) => RunCmd(HOLE, HOLE)
  }

  /** A term is its node together with its children. */
  lemma Extensional(t: Term, u: Term)
    requires Node(t) == Node(u)
    requires |Children(t)| == |Children(u)|
    requires forall i :: 0 <= i < |Children(t)| ==> Children(t)[i] == Children(u)[i]
    ensures t == u
  {
    if |Children(t)| == 1 {
      assert Children(t)[0] == Children(u)[0];
    } else if |Children(t)| == 2 {
      assert Children(t)[0] == Children(u)[0] && Children(t)[1] == Children(u)[1];
    } else if |Children(t)| == 3 {
      assert Children(t)[0] == Children(u)[0] && Children(t)[1] == Children(u)[1] && Children(t)[2] == Children(u)[2];
    }
  }

  /** `p` holds of every node of `t`, at any depth and in evidence and credentials too. */
  ghost predicate Every(t: Term, p: Term -> bool)
  {
    p(Node(t)) && forall i :: 0 <= i < |Children(t)| ==> Every(Children(t)[i].term, p)
  }

  /** Every free index of `t` is below `k`. */
  ghost predicate Scoped(t: Term, k: nat)
  {
    if t.Var? then t.i < k
    else forall i :: 0 <= i < |Children(t)| ==> Scoped(Children(t)[i].term, k + Children(t)[i].binders)
  }
}
