/** The wire codec: every principal, label, obligation, proposition, signature, term and
    keyring as a tagged CBOR value, and the two public byte codecs on top. */
module Wire {
  import opened Syntax
  import opened Cbor

  /** A decoder's outcome: a value, an error it returns, or an index out of bounds. */
  datatype Decoded<+T> = Ok(value: T) | Err | Panic {
    predicate IsFailure() { !Ok? }

    function PropagateFailure<U>(): Decoded<U>
      requires !Ok?
    {
      if Err? then Err else Panic
    }

    function Extract(): T
      requires Ok?
    {
      value
    }
  }

  datatype KeyRecord = KeyRecord(principal: Bytes32, alg: U8, publicKey: Bytes)

  type KeyRing = s: seq<KeyRecord> | |s| < 0x1_0000_0000_0000_0000

  // ---------------------------------------------------------------------------
  // Encoders
  // ---------------------------------------------------------------------------

  function EncPrincipal(p: Principal): Value {
    match p
    case Atom(id) => Array([Integer(0), ByteString(id)])
    case And(a, b) => Array([Integer(1), EncPrincipal(a), EncPrincipal(b)])
    case Or(a, b) => Array([Integer(2), EncPrincipal(a), EncPrincipal(b)])
    case Acting(a, b) => Array([Integer(3), EncPrincipal(a), EncPrincipal(b)])
  }

  function EncLabel(l: Label): Value { Array(seq(|l|, i requires 0 <= i < |l| => Integer(l[i]))) }

  function EncTime(t: TimeBound): Value { Integer(t.epochMs) }

  function EncBudget(b: DpBudget): Value { Array([Integer(b.epsilonMicros), Integer(b.deltaMicros)]) }

  function EncObligation(o: Obligation): Value {
    match o
    case Top => Array([Integer(0)])
    case Bot => Array([Integer(1)])
    case ActOf(who, action) => Array([Integer(2), EncPrincipal(who), ByteString(action)])
    case Within(tau) => Array([Integer(3), EncTime(tau)])
    case Tensor(a, b) => Array([Integer(4), EncObligation(a), EncObligation(b)])
    case Lolli(a, b) => Array([Integer(5), EncObligation(a), EncObligation(b)])
    case Budget(b) => Array([Integer(6), EncBudget(b)])
  }

  function EncProp(f: Prop): Value
    decreases f, 1
  {
    EncPropNode(f)
  }

  /** The recursive codecs are split in two so that a proof can unfold one level at a time. */
  function EncPropNode(f: Prop): Value
    decreases f, 0
  {
    match f
    case Top => Array([Integer(0)])
    case Bot => Array([Integer(1)])
    case Atom(n) => Array([Integer(2), Integer(n)])
    case Imp(a, b) => Array([Integer(3), EncProp(a), EncProp(b)])
    case And(a, b) => Array([Integer(4), EncProp(a), EncProp(b)])
    case Or(a, b) => Array([Integer(5), EncProp(a), EncProp(b)])
    case Says(p, a) => Array([Integer(6), EncPrincipal(p), EncProp(a)])
    case SpeaksFor(q, p) => Array([Integer(7), EncPrincipal(q), EncPrincipal(p)])
    case At(a, l) => Array([Integer(8), EncProp(a), EncLabel(l)])
    case Boxed(o, a) => Array([Integer(9), EncObligation(o), EncProp(a)])
    case Within(tau, a) => Array([Integer(10), EncTime(tau), EncProp(a)])
    case Tensor(a, b) => Array([Integer(11), EncProp(a), EncProp(b)])
    case Lolli(a, b) => Array([Integer(12), EncProp(a), EncProp(b)])
    case Replicated(a, l) => Array([Integer(13), EncProp(a), EncLabel(l)])
  }

  function EncSignature(s: Signature): Value { Array([Integer(s.alg), ByteString(s.bytes)]) }

  /** Every variable index fits the 32 bits the format gives it. */
  predicate IndicesFit(n: Term) { n.Var? ==> n.i < 0x1_0000_0000 }

  ghost predicate Encodable(t: Term) { Every(t, IndicesFit) }

  /** Indices are 32-bit in the format; a wider one is truncated. */
  function EncTerm(t: Term): Value
    decreases t, 1
  {
    EncTermNode(t)
  }

  function EncTermNode(t: Term): Value
    decreases t, 0
  {
    match t
    case Var(x) => Array([Integer(0), Integer(x % 0x1_0000_0000)])
    case Lam(x, y) => Array([Integer(1), EncProp(x), EncTerm(y)])
    case App(x, y) => Array([Integer(2), EncTerm(x), EncTerm(y)])
    case Sign(x, y, z) => Array([Integer(3), EncPrincipal(x), EncTerm(y), EncSignature(z)])
    case Verify(x, y, z) => Array([Integer(4), EncPrincipal(x), EncTerm(y), EncSignature(z)])
    case Delegate(x, y) => Array([Integer(5), EncTerm(x), EncTerm(y)])
    case Attenuate(x, y) => Array([Integer(6), EncTerm(x), EncProp(y)])
    case Discharge(x, y) => Array([Integer(7), EncTerm(x), EncTerm(y)])
    case LiftLabel(x, y) => Array([Integer(8), EncLabel(x), EncTerm(y)])
    case Declassify(x, y, z) => Array([Integer(9), EncLabel(x), EncTerm(y), EncTerm(z)])
    case Now(x) => Array([Integer(10), EncTime(x)])
    case WithinIntro(x, y) => Array([Integer(11), EncTime(x), EncTerm(y)])
    case Pair(x, y) => Array([Integer(12), EncTerm(x), EncTerm(y)])
    case Fst(x) => Array([Integer(13), EncTerm(x)])
    case Snd(x) => Array([Integer(14), EncTerm(x)])
    case Inl(x, y) => Array([Integer(15), EncProp(x), EncTerm(y)])
    case Inr(x, y) => Array([Integer(16), EncProp(x), EncTerm(y)])
    case Case(x, y, z) => Array([Integer(17), EncTerm(x), EncTerm(y), EncTerm(z)])
    case TensorIntro(x, y) => Array([Integer(18), EncTerm(x), EncTerm(y)])
    case LetTensor(x, y) => Array([Integer(19), EncTerm(x), EncTerm(y)])
    case LetSays(x, y, z) => Array([Integer(20), EncPrincipal(x), EncTerm(y), EncTerm(z)])
    case SfExtract(x) => Array([Integer(21), EncTerm(x)])
    case Boxed(x, y, z) => Array([Integer(22), EncObligation(x), EncTerm(y), EncTerm(z)])
    case SaysBind(x, y, z) => Array([Integer(23), EncPrincipal(x), EncTerm(y), EncTerm(z)])
    case Command(x, y, z) => Array([Integer(24), EncTerm(x), EncTerm(y), EncLabel(z)])
    case RunCmd(x, y) => Array([Integer(25), EncTerm(x), EncTerm(y)])
  }

  // ---------------------------------------------------------------------------
  // Decoders
  // ---------------------------------------------------------------------------

  /** Field `i` of an array; the code indexes without a bounds check. */
  function Field(v: Value, i: nat): (r: Decoded<Value>)
    ensures r.Ok? ==> r.value < v
  {
    if !v.Array? then Err else if i < |v.items| then Ok(v.items[i]) else Panic
  }

  function DecTag(v: Value): Decoded<U64>
  {
    var a :- Field(v, 0);
    U64Of(a)
  }

  /** The narrowing casts keep the low-order bits. */
  function U64Of(v: Value): Decoded<U64> { if v.Integer? then Ok(v.n % 0x1_0000_0000_0000_0000) else Err }

  function U32Of(v: Value): Decoded<U32> { if v.Integer? then Ok(v.n % 0x1_0000_0000) else Err }

  function BytesOf(v: Value): Decoded<Bytes> { if v.ByteString? then Ok(v.bytes) else Err }

  function DecPrincipalId(v: Value): Decoded<Bytes32> {
    var b :- BytesOf(v);
    if |b| == 32 then Ok(b) else Err
  }

  function DecPrincipal(v: Value): Decoded<Principal>
    decreases v
  {
    var tag :- DecTag(v);
    if tag == 0 then
      var f :- Field(v, 1);
      var id :- DecPrincipalId(f);
      Ok(Principal.Atom(id))
    else if tag <= 3 then
      var f :- Field(v, 1);
      var a :- DecPrincipal(f);
      var g :- Field(v, 2);
      var b :- DecPrincipal(g);
      Ok(if tag == 1 then Principal.And(a, b) else if tag == 2 then Principal.Or(a, b) else Principal.Acting(a, b))
    else Err
  }

  function DecLabel(v: Value): Decoded<Label> {
    if v.Array? && |v.items| < 0x1_0000_0000_0000_0000 then DecU32s(v.items) else Err
  }

  function DecU32s(s: seq<Value>): (r: Decoded<seq<U32>>)
    ensures r.Ok? ==> |r.value| == |s|
  {
    if s == [] then Ok([]) else
    var n :- U32Of(s[0]);
    var rest :- DecU32s(s[1..]);
    Ok([n] + rest)
  }

  function DecTime(v: Value): Decoded<TimeBound> {
    var n :- U64Of(v);
    Ok(TimeBound(n))
  }

  function U32Field(v: Value, i: nat): Decoded<U32> {
    var f :- Field(v, i);
    U32Of(f)
  }

  function U64Field(v: Value, i: nat): Decoded<U64> {
    var f :- Field(v, i);
    U64Of(f)
  }

  function BytesField(v: Value, i: nat): Decoded<Bytes> {
    var f :- Field(v, i);
    BytesOf(f)
  }

  function TimeField(v: Value, i: nat): Decoded<TimeBound> {
    var f :- Field(v, i);
    DecTime(f)
  }

  function LabelField(v: Value, i: nat): Decoded<Label> {
    var f :- Field(v, i);
    DecLabel(f)
  }

  function PrincipalField(v: Value, i: nat): Decoded<Principal> {
    var f :- Field(v, i);
    DecPrincipal(f)
  }

  function DecBudget(v: Value): Decoded<DpBudget> {
    var e :- U64Field(v, 0);
    var d :- U64Field(v, 1);
    Ok(DpBudget(e, d))
  }

  function BudgetField(v: Value, i: nat): Decoded<DpBudget> {
    var f :- Field(v, i);
    DecBudget(f)
  }

  function DecObligation(v: Value): Decoded<Obligation>
    decreases v, 2
  {
    var tag :- DecTag(v);
    DecObligationNode(v, tag)
  }

  function DecObligationNode(v: Value, tag: U64): Decoded<Obligation>
    decreases v, 1
  {
    match tag
    case 0 => Ok(Obligation.Top)
    case 1 => Ok(Obligation.Bot)
    case 2 =>
      var x :- PrincipalField(v, 1);
      var y :- BytesField(v, 2);
      Ok(Obligation.ActOf(x, y))
    case 3 =>
      var x :- TimeField(v, 1);
      Ok(Obligation.Within(x))
    case 4 =>
      var x :- ObligationField(v, 1);
      var y :- ObligationField(v, 2);
      Ok(Obligation.Tensor(x, y))
    case 5 =>
      var x :- ObligationField(v, 1);
      var y :- ObligationField(v, 2);
      Ok(Obligation.Lolli(x, y))
    case 6 =>
      var x :- BudgetField(v, 1);
      Ok(Obligation.Budget(x))
    case _ => Err
  }

  function ObligationField(v: Value, i: nat): Decoded<Obligation>
    decreases v, 0
  {
    var f :- Field(v, i);
    DecObligation(f)
  }

  function DecProp(v: Value): Decoded<Prop>
    decreases v, 2
  {
    var tag :- DecTag(v);
    DecPropNode(v, tag)
  }

  function DecPropNode(v: Value, tag: U64): Decoded<Prop>
    decreases v, 1
  {
    match tag
    case 0 => Ok(Prop.Top)
    case 1 => Ok(Prop.Bot)
    case 2 =>
      var x :- U32Field(v, 1);
      Ok(Prop.Atom(x))
    case 3 =>
      var x :- PropField(v, 1);
      var y :- PropField(v, 2);
      Ok(Prop.Imp(x, y))
    case 4 =>
      var x :- PropField(v, 1);
      var y :- PropField(v, 2);
      Ok(Prop.And(x, y))
    case 5 =>
      var x :- PropField(v, 1);
      var y :- PropField(v, 2);
      Ok(Prop.Or(x, y))
    case 6 =>
      var x :- PrincipalField(v, 1);
      var y :- PropField(v, 2);
      Ok(Prop.Says(x, y))
    case 7 =>
      var x :- PrincipalField(v, 1);
      var y :- PrincipalField(v, 2);
      Ok(Prop.SpeaksFor(x, y))
    case 8 =>
      var x :- PropField(v, 1);
      var y :- LabelField(v, 2);
      Ok(Prop.At(x, y))
    case 9 =>
      var x :- ObligationField(v, 1);
      var y :- PropField(v, 2);
      Ok(Prop.Boxed(x, y))
    case 10 =>
      var x :- TimeField(v, 1);
      var y :- PropField(v, 2);
      Ok(Prop.Within(x, y))
    case 11 =>
      var x :- PropField(v, 1);
      var y :- PropField(v, 2);
      Ok(Prop.Tensor(x, y))
    case 12 =>
      var x :- PropField(v, 1);
      var y :- PropField(v, 2);
      Ok(Prop.Lolli(x, y))
    case 13 =>
      var x :- PropField(v, 1);
      var y :- LabelField(v, 2);
      Ok(Prop.Replicated(x, y))
    case _ => Err
  }

  function PropField(v: Value, i: nat): Decoded<Prop>
    decreases v, 0
  {
    var f :- Field(v, i);
    DecProp(f)
  }

  function DecSignature(v: Value): Decoded<Signature> {
    var a :- U32Field(v, 0);
    var b :- BytesField(v, 1);
    Ok(Signature(a % 0x100, b))
  }

  function SignatureField(v: Value, i: nat): Decoded<Signature> {
    var f :- Field(v, i);
    DecSignature(f)
  }

  function DecTerm(v: Value): Decoded<Term>
    decreases v, 2
  {
    var tag :- DecTag(v);
    DecTermNode(v, tag)
  }

  function DecTermNode(v: Value, tag: U64): Decoded<Term>
    decreases v, 1
  {
    match tag
    case 0 =>
      var x :- U32Field(v, 1);
      Ok(Var(x))
    case 1 =>
      var x :- PropField(v, 1);
      var y :- TermField(v, 2);
      Ok(Lam(x, y))
    case 2 =>
      var x :- TermField(v, 1);
      var y :- TermField(v, 2);
      Ok(App(x, y))
    case 3 =>
      var x :- PrincipalField(v, 1);
      var y :- TermField(v, 2);
      var z :- SignatureField(v, 3);
      Ok(Sign(x, y, z))
    case 4 =>
      var x :- PrincipalField(v, 1);
      var y :- TermField(v, 2);
      var z :- SignatureField(v, 3);
      Ok(Verify(x, y, z))
    case 5 =>
      var x :- TermField(v, 1);
      var y :- TermField(v, 2);
      Ok(Delegate(x, y))
    case 6 =>
      var x :- TermField(v, 1);
      var y :- PropField(v, 2);
      Ok(Attenuate(x, y))
    case 7 =>
      var x :- TermField(v, 1);
      var y :- TermField(v, 2);
      Ok(Discharge(x, y))
    case 8 =>
      var x :- LabelField(v, 1);
      var y :- TermField(v, 2);
      Ok(LiftLabel(x, y))
    case 9 =>
      var x :- LabelField(v, 1);
      var y :- TermField(v, 2);
      var z :- TermField(v, 3);
      Ok(Declassify(x, y, z))
    case 10 =>
      var x :- TimeField(v, 1);
      Ok(Now(x))
    case 11 =>
      var x :- TimeField(v, 1);
      var y :- TermField(v, 2);
      Ok(WithinIntro(x, y))
    case 12 =>
      var x :- TermField(v, 1);
      var y :- TermField(v, 2);
      Ok(Pair(x, y))
    case 13 =>
      var x :- TermField(v, 1);
      Ok(Fst(x))
    case 14 =>
      var x :- TermField(v, 1);
      Ok(Snd(x))
    case 15 =>
      var x :- PropField(v, 1);
      var y :- TermField(v, 2);
      Ok(Inl(x, y))
    case 16 =>
      var x :- PropField(v, 1);
      var y :- TermField(v, 2);
      Ok(Inr(x, y))
    case 17 =>
      var x :- TermField(v, 1);
      var y :- TermField(v, 2);
      var z :- TermField(v, 3);
      Ok(Case(x, y, z))
    case 18 =>
      var x :- TermField(v, 1);
      var y :- TermField(v, 2);
      Ok(TensorIntro(x, y))
    case 19 =>
      var x :- TermField(v, 1);
      var y :- TermField(v, 2);
      Ok(LetTensor(x, y))
    case 20 =>
      var x :- PrincipalField(v, 1);
      var y :- TermField(v, 2);
      var z :- TermField(v, 3);
      Ok(LetSays(x, y, z))
    case 21 =>
      var x :- TermField(v, 1);
      Ok(SfExtract(x))
    case 22 =>
      var x :- ObligationField(v, 1);
      var y :- TermField(v, 2);
      var z :- TermField(v, 3);
      Ok(Term.Boxed(x, y, z))
    case 23 =>
      var x :- PrincipalField(v, 1);
      var y :- TermField(v, 2);
      var z :- TermField(v, 3);
      Ok(SaysBind(x, y, z))
    case 24 =>
      var x :- TermField(v, 1);
      var y :- TermField(v, 2);
      var z :- LabelField(v, 3);
      Ok(Command(x, y, z))
    case 25 =>
      var x :- TermField(v, 1);
      var y :- TermField(v, 2);
      Ok(RunCmd(x, y))
    case _ => Err
  }

  function TermField(v: Value, i: nat): Decoded<Term>
    decreases v, 0
  {
    var f :- Field(v, i);
    DecTerm(f)
  }

  // ---------------------------------------------------------------------------
  // Round trips
  // ---------------------------------------------------------------------------

  lemma {:induction false} PrincipalRoundTrip(p: Principal)
    ensures DecPrincipal(EncPrincipal(p)) == Ok(p)
  {
    if !p.Atom? {
      PrincipalRoundTrip(p.left);
      PrincipalRoundTrip(p.right);
    }
  }

  lemma {:induction false} U32sRoundTrip(l: seq<U32>, s: seq<Value>)
    requires |s| == |l| && forall i :: 0 <= i < |l| ==> s[i] == Integer(l[i])
    ensures DecU32s(s) == Ok(l)
  {
    if l != [] {
      U32sRoundTrip(l[1..], s[1..]);
      assert [l[0]] + l[1..] == l;
    }
  }

  lemma {:induction false} LabelRoundTrip(l: Label)
    ensures DecLabel(EncLabel(l)) == Ok(l)
  {
    U32sRoundTrip(l, EncLabel(l).items);
  }

  lemma {:induction false} ObligationRoundTrip(o: Obligation)
    ensures DecObligation(EncObligation(o)) == Ok(o)
  {
    hide DecPrincipal, EncPrincipal, DecObligation;
    DecObligationIs(EncObligation(o));
    match o
    case ActOf(p, _) => PrincipalRoundTrip(p);
    case Tensor(a, b) => ObligationRoundTrip(a); ObligationRoundTrip(b);
    case Lolli(a, b) => ObligationRoundTrip(a); ObligationRoundTrip(b);
    case _ =>
  }

  lemma DecObligationIs(v: Value)
    ensures DecObligation(v) == (var tag :- DecTag(v); DecObligationNode(v, tag))
  {
    hide DecObligationNode;
  }

  lemma {:induction false} PropRoundTrip(f: Prop)
    ensures DecProp(EncProp(f)) == Ok(f)
  {
    hide DecPrincipal, EncPrincipal, DecLabel, EncLabel, DecObligation, EncObligation, DecProp, EncProp;
    EncPropIs(f);
    DecPropIs(EncProp(f));
    if f.Imp? || f.And? || f.Or? || f.Tensor? || f.Lolli? {
      PropRoundTrip(f.left);
      PropRoundTrip(f.right);
      ConnectiveRoundTrip(f);
      return;
    }
    match f
    case Says(p, a) => PrincipalRoundTrip(p); PropRoundTrip(a);
    case SpeaksFor(q, p) => PrincipalRoundTrip(q); PrincipalRoundTrip(p);
    case At(a, l) => PropRoundTrip(a); LabelRoundTrip(l);
    case Replicated(a, l) => PropRoundTrip(a); LabelRoundTrip(l);
    case Boxed(o, a) => ObligationRoundTrip(o); PropRoundTrip(a);
    case Within(_, a) => PropRoundTrip(a);
    case _ =>
  }

  lemma ConnectiveRoundTrip(f: Prop)
    requires f.Imp? || f.And? || f.Or? || f.Tensor? || f.Lolli?
    requires DecProp(EncProp(f.left)) == Ok(f.left) && DecProp(EncProp(f.right)) == Ok(f.right)
    ensures DecProp(EncProp(f)) == Ok(f)
  {
    hide DecPrincipal, EncPrincipal, DecLabel, EncLabel, DecObligation, EncObligation, DecProp, EncProp;
    EncPropIs(f);
    DecPropIs(EncProp(f));
  }

  lemma EncPropIs(f: Prop)
    ensures EncProp(f) == EncPropNode(f)
  {
    hide EncPropNode;
  }

  lemma DecPropIs(v: Value)
    ensures DecProp(v) == (var tag :- DecTag(v); DecPropNode(v, tag))
  {
    hide DecPropNode;
  }

  lemma EncTermIs(t: Term)
    ensures EncTerm(t) == EncTermNode(t)
  {
    hide EncTermNode;
  }

  /** A decoder dispatches on the integer in front. */
  lemma DecTermTagged(v: Value, n: U64)
    requires v.Array? && |v.items| > 0 && v.items[0] == Integer(n)
    ensures DecTerm(v) == DecTermNode(v, n)
  {
    hide DecTermNode;
  }

  lemma EncodableParts(t: Term)
    requires Encodable(t)
    ensures t.Var? ==> t.i < 0x1_0000_0000
    ensures forall i :: 0 <= i < |Children(t)| ==> Encodable(Children(t)[i].term)
  {
  }

  ghost predicate RoundTrips(t: Term) { DecTerm(EncTerm(t)) == Ok(t) }

  lemma {:induction false} TermRoundTrip(t: Term)
    requires Encodable(t)
    ensures DecTerm(EncTerm(t)) == Ok(t)
  {
    hide EncTerm, DecTerm, Encodable, Children;
    EncodableParts(t);
    forall i | 0 <= i < |Children(t)|
      ensures RoundTrips(Children(t)[i].term)
    {
      TermRoundTrip(Children(t)[i].term);
    }
    NodeRoundTrip(t);
  }

  ghost predicate ChildrenRoundTrip(t: Term)
  {
    && (t.Var? ==> t.i < 0x1_0000_0000)
    && forall i :: 0 <= i < |Children(t)| ==> RoundTrips(Children(t)[i].term)
  }

  /** A node decodes as soon as its children do. */
  lemma NodeRoundTrip(t: Term)
    requires ChildrenRoundTrip(t)
    ensures RoundTrips(t)
  {
    hide ChildrenRoundTrip, EncTerm, DecTerm;
    if t.Var? || t.Now? { RoundTripLeaf(t); }
    if t.Fst? || t.Snd? || t.SfExtract? { RoundTripUnary(t); }
    if t.App? || t.Delegate? || t.Discharge? || t.Pair? { RoundTripBinary(t); }
    if t.TensorIntro? || t.LetTensor? || t.RunCmd? || t.Case? { RoundTripBinders(t); }
    if t.Sign? || t.Verify? { RoundTripSigned(t); }
    if t.SaysBind? || t.LetSays? { RoundTripSays(t); }
    if t.LiftLabel? || t.Declassify? || t.Command? { RoundTripLabelled(t); }
    if t.Lam? || t.Attenuate? || t.Inl? || t.Inr? { RoundTripAnnotated(t); }
    if t.WithinIntro? || t.Boxed? { RoundTripGuarded(t); }
  }

  lemma RoundTripLeaf(t: Term)
    requires (t.Var? || t.Now?) && ChildrenRoundTrip(t)
    ensures DecTerm(EncTerm(t)) == Ok(t)
  {
    hide DecTerm, EncTerm, DecTag;
    EncTermIs(t);
    DecTermTagged(EncTerm(t), EncTerm(t).items[0].n);
  }

  lemma RoundTripUnary(t: Term)
    requires (t.Fst? || t.Snd? || t.SfExtract?) && ChildrenRoundTrip(t)
    ensures DecTerm(EncTerm(t)) == Ok(t)
  {
    hide DecTerm, EncTerm, DecTag;
    EncTermIs(t);
    DecTermTagged(EncTerm(t), EncTerm(t).items[0].n);
    assert RoundTrips(Children(t)[0].term);
  }

  lemma RoundTripBinary(t: Term)
    requires (t.App? || t.Delegate? || t.Discharge? || t.Pair?) && ChildrenRoundTrip(t)
    ensures DecTerm(EncTerm(t)) == Ok(t)
  {
    hide DecTerm, EncTerm, DecTag;
    EncTermIs(t);
    DecTermTagged(EncTerm(t), EncTerm(t).items[0].n);
    assert RoundTrips(Children(t)[0].term) && RoundTrips(Children(t)[1].term);
  }

  lemma RoundTripBinders(t: Term)
    requires (t.TensorIntro? || t.LetTensor? || t.RunCmd? || t.Case?) && ChildrenRoundTrip(t)
    ensures DecTerm(EncTerm(t)) == Ok(t)
  {
    hide DecTerm, EncTerm, DecTag;
    EncTermIs(t);
    DecTermTagged(EncTerm(t), EncTerm(t).items[0].n);
    assert RoundTrips(Children(t)[0].term) && RoundTrips(Children(t)[1].term) && (t.Case? ==>
      RoundTrips(Children(t)[2].term));
  }

  lemma RoundTripSigned(t: Term)
    requires (t.Sign? || t.Verify?) && ChildrenRoundTrip(t)
    ensures DecTerm(EncTerm(t)) == Ok(t)
  {
    hide DecTerm, EncTerm, DecTag, DecPrincipal, EncPrincipal;
    EncTermIs(t);
    DecTermTagged(EncTerm(t), EncTerm(t).items[0].n);
    PrincipalRoundTrip(t.p);
    assert RoundTrips(Children(t)[0].term);
  }

  lemma RoundTripSays(t: Term)
    requires (t.SaysBind? || t.LetSays?) && ChildrenRoundTrip(t)
    ensures DecTerm(EncTerm(t)) == Ok(t)
  {
    hide DecTerm, EncTerm, DecTag, DecPrincipal, EncPrincipal;
    EncTermIs(t);
    DecTermTagged(EncTerm(t), EncTerm(t).items[0].n);
    PrincipalRoundTrip(t.p);
    assert RoundTrips(Children(t)[0].term) && RoundTrips(Children(t)[1].term);
  }

  lemma RoundTripLabelled(t: Term)
    requires (t.LiftLabel? || t.Declassify? || t.Command?) && ChildrenRoundTrip(t)
    ensures DecTerm(EncTerm(t)) == Ok(t)
  {
    hide DecTerm, EncTerm, DecTag, DecLabel, EncLabel;
    EncTermIs(t);
    DecTermTagged(EncTerm(t), EncTerm(t).items[0].n);
    LabelRoundTrip(t.l);
    assert RoundTrips(Children(t)[0].term) && (!t.LiftLabel? ==> RoundTrips(Children(t)[1].term));
  }

  lemma RoundTripAnnotated(t: Term)
    requires (t.Lam? || t.Attenuate? || t.Inl? || t.Inr?) && ChildrenRoundTrip(t)
    ensures DecTerm(EncTerm(t)) == Ok(t)
  {
    hide DecTerm, EncTerm, DecTag, DecProp, EncProp;
    EncTermIs(t);
    DecTermTagged(EncTerm(t), EncTerm(t).items[0].n);
    PropRoundTrip(if t.Lam? then t.dom else if t.Attenuate? then t.target else t.other);
    assert RoundTrips(Children(t)[0].term);
  }

  lemma RoundTripGuarded(t: Term)
    requires (t.WithinIntro? || t.Boxed?) && ChildrenRoundTrip(t)
    ensures DecTerm(EncTerm(t)) == Ok(t)
  {
    hide DecTerm, EncTerm, DecTag, DecObligation, EncObligation;
    EncTermIs(t);
    DecTermTagged(EncTerm(t), EncTerm(t).items[0].n);
    if t.Boxed? { ObligationRoundTrip(t.o); }
    assert RoundTrips(Children(t)[0].term) && (t.Boxed? ==> RoundTrips(Children(t)[1].term));
  }

  // ---------------------------------------------------------------------------
  // Encodings fit the byte layer
  // ---------------------------------------------------------------------------

  lemma ArraySized(s: seq<Value>)
    requires |s| <= 5
    requires |s| > 0 ==> Sized(s[0])
    requires |s| > 1 ==> Sized(s[1])
    requires |s| > 2 ==> Sized(s[2])
    requires |s| > 3 ==> Sized(s[3])
    requires |s| > 4 ==> Sized(s[4])
    ensures Sized(Array(s))
  {
  }

  lemma LeafSized(v: Value)
    ensures !v.Array? ==> Sized(v)
  {
  }

  lemma {:induction false} PrincipalSized(p: Principal)
    ensures Sized(EncPrincipal(p))
  {
    if !p.Atom? {
      PrincipalSized(p.left);
      PrincipalSized(p.right);
    }
    ArraySized(EncPrincipal(p).items);
  }

  lemma LabelSized(l: Label)
    ensures Sized(EncLabel(l))
  {
  }

  lemma {:induction false} ObligationSized(o: Obligation)
    ensures Sized(EncObligation(o))
  {
    hide EncPrincipal;
    match o {
      case ActOf(p, _) => PrincipalSized(p);
      case Tensor(a, b) => ObligationSized(a); ObligationSized(b);
      case Lolli(a, b) => ObligationSized(a); ObligationSized(b);
      case Budget(b) => ArraySized(EncBudget(b).items);
      case _ =>
    }
    ArraySized(EncObligation(o).items);
  }

  lemma {:induction false} PropSized(f: Prop)
    ensures Sized(EncProp(f))
  {
    hide EncProp, EncPrincipal, EncLabel, EncObligation;
    EncPropIs(f);
    match f {
      case Imp(a, b) => PropSized(a); PropSized(b);
      case And(a, b) => PropSized(a); PropSized(b);
      case Or(a, b) => PropSized(a); PropSized(b);
      case Tensor(a, b) => PropSized(a); PropSized(b);
      case Lolli(a, b) => PropSized(a); PropSized(b);
      case Says(p, a) => PrincipalSized(p); PropSized(a);
      case SpeaksFor(q, p) => PrincipalSized(q); PrincipalSized(p);
      case At(a, l) => PropSized(a); LabelSized(l);
      case Replicated(a, l) => PropSized(a); LabelSized(l);
      case Boxed(o, a) => ObligationSized(o); PropSized(a);
      case Within(_, a) => PropSized(a);
      case _ =>
    }
    ArraySized(EncPropNode(f).items);
  }

  lemma SignatureSized(g: Signature)
    ensures Sized(EncSignature(g))
  {
    ArraySized(EncSignature(g).items);
  }

  lemma {:induction false} TermSized(t: Term)
    ensures Sized(EncTerm(t))
  {
    hide EncTerm, EncProp, EncPrincipal, EncLabel, EncObligation, EncSignature, Children;
    forall i | 0 <= i < |Children(t)|
      ensures Sized(EncTerm(Children(t)[i].term))
    {
      TermSized(Children(t)[i].term);
    }
    EncTermIs(t);
    AnnotationsSized(t);
    NodeSized(t);
  }

  /** The encodings of a node's annotations. */
  lemma AnnotationsSized(t: Term)
    ensures t.Lam? ==> Sized(EncProp(t.dom))
    ensures t.Attenuate? ==> Sized(EncProp(t.target))
    ensures t.Inl? || t.Inr? ==> Sized(EncProp(t.other))
    ensures t.Sign? || t.Verify? || t.LetSays? || t.SaysBind? ==> Sized(EncPrincipal(t.p))
    ensures t.Sign? || t.Verify? ==> Sized(EncSignature(t.sig))
    ensures t.LiftLabel? || t.Declassify? || t.Command? ==> Sized(EncLabel(t.l))
    ensures t.Boxed? ==> Sized(EncObligation(t.o))
  {
    hide EncProp, EncPrincipal, EncLabel, EncObligation, EncSignature, Sized;
    match t
    case Lam(a, _) => PropSized(a);
    case Attenuate(_, a) => PropSized(a);
    case Inl(a, _) => PropSized(a);
    case Inr(a, _) => PropSized(a);
    case Sign(p, _, g) => PrincipalSized(p); SignatureSized(g);
    case Verify(p, _, g) => PrincipalSized(p); SignatureSized(g);
    case LetSays(p, _, _) => PrincipalSized(p);
    case SaysBind(p, _, _) => PrincipalSized(p);
    case LiftLabel(l, _) => LabelSized(l);
    case Declassify(l, _, _) => LabelSized(l);
    case Command(_, _, l) => LabelSized(l);
    case Boxed(o, _, _) => ObligationSized(o);
    case _ =>
  }

  lemma NodeSized(t: Term)
    requires forall i :: 0 <= i < |Children(t)| ==> Sized(EncTerm(Children(t)[i].term))
    requires t.Lam? ==> Sized(EncProp(t.dom))
    requires t.Attenuate? ==> Sized(EncProp(t.target))
    requires t.Inl? || t.Inr? ==> Sized(EncProp(t.other))
    requires t.Sign? || t.Verify? || t.LetSays? || t.SaysBind? ==> Sized(EncPrincipal(t.p))
    requires t.Sign? || t.Verify? ==> Sized(EncSignature(t.sig))
    requires t.LiftLabel? || t.Declassify? || t.Command? ==> Sized(EncLabel(t.l))
    requires t.Boxed? ==> Sized(EncObligation(t.o))
    ensures Sized(EncTermNode(t))
  {
    hide EncTerm, EncProp, EncPrincipal, EncLabel, EncObligation, EncSignature, Sized;
    if |Children(t)| > 0 { assert Sized(EncTerm(Children(t)[0].term)); }
    if |Children(t)| > 1 { assert Sized(EncTerm(Children(t)[1].term)); }
    if |Children(t)| > 2 { assert Sized(EncTerm(Children(t)[2].term)); }
    var s := EncTermNode(t).items;
    LeafSized(s[0]);
    LeafSized(s[1]);
    ArraySized(s);
  }

  // ---------------------------------------------------------------------------
  // Decoded terms
  // ---------------------------------------------------------------------------

  /** Whatever is decoded has 32-bit indices, so can be encoded again. */
  lemma {:induction false} DecodedFits(v: Value)
    ensures DecTerm(v).Ok? ==> Encodable(DecTerm(v).value)
    decreases v
  {
    hide DecTermNode, Encodable;
    if DecTerm(v).Ok? {
      forall i: nat
        ensures FieldFits(v, i)
      {
        if Field(v, i).Ok? { DecodedFits(Field(v, i).value); }
      }
      NodeFits(v, DecTag(v).value);
    }
  }

  ghost predicate FieldFits(v: Value, i: nat) { TermField(v, i).Ok? ==> Encodable(TermField(v, i).value) }

  lemma NodeFits(v: Value, tag: U64)
    requires forall i: nat :: FieldFits(v, i)
    ensures DecTermNode(v, tag).Ok? ==> Encodable(DecTermNode(v, tag).value)
  {
    hide DecTermNode, TermField, Encodable;
    assert FieldFits(v, 1) && FieldFits(v, 2) && FieldFits(v, 3);
    if DecTermNode(v, tag).Ok? {
      if tag < 9 { PartsFitLow(v, tag); } else if tag < 17 { PartsFitMid(v, tag); } else { PartsFitHigh(v, tag); }
      EncodableNode(DecTermNode(v, tag).value);
    }
  }

  lemma PartsFitLow(v: Value, tag: U64)
    requires tag < 9 && DecTermNode(v, tag).Ok? && FieldFits(v, 1) && FieldFits(v, 2) && FieldFits(v, 3)
    ensures PartsFit(DecTermNode(v, tag).value)
  {
    hide TermField, PropField, LabelField, PrincipalField, SignatureField, ObligationField, TimeField, Field, Encodable;
  }

  lemma PartsFitMid(v: Value, tag: U64)
    requires 9 <= tag < 17 && DecTermNode(v, tag).Ok? && FieldFits(v, 1) && FieldFits(v, 2) && FieldFits(v, 3)
    ensures PartsFit(DecTermNode(v, tag).value)
  {
    hide TermField, PropField, LabelField, PrincipalField, SignatureField, ObligationField, TimeField, Field, Encodable;
  }

  lemma PartsFitHigh(v: Value, tag: U64)
    requires 17 <= tag && DecTermNode(v, tag).Ok? && FieldFits(v, 1) && FieldFits(v, 2) && FieldFits(v, 3)
    ensures PartsFit(DecTermNode(v, tag).value)
  {
    hide TermField, PropField, LabelField, PrincipalField, SignatureField, ObligationField, TimeField, Field, Encodable;
  }

  ghost predicate PartsFit(t: Term) {
    (t.Var? ==> t.i < 0x1_0000_0000) && forall c :: c in Children(t) ==> Encodable(c.term)
  }

  lemma EncodableNode(t: Term)
    requires PartsFit(t)
    ensures Encodable(t)
  {
    assert IndicesFit(Node(t));
  }

  // ---------------------------------------------------------------------------
  // The public byte codecs
  // ---------------------------------------------------------------------------

  /** These bytes are also what a signature on a term covers. */
  function EncodeTerm(t: Term): seq<U8> { Encode(EncTerm(t)) }

  /** The reader stops after the first value, and refuses one nested too deep. */
  function ReadValue(b: seq<U8>, limit: nat): Decoded<Value> {
    match Decode(b, limit) case Some((v, _)) => Ok(v) case None => Err
  }

  function DecodeTerm(b: seq<U8>, limit: nat): Decoded<Term> {
    var v :- ReadValue(b, limit);
    DecTerm(v)
  }

  function EncodeProp(f: Prop): seq<U8> { Encode(EncProp(f)) }

  function DecodeProp(b: seq<U8>, limit: nat): Decoded<Prop> {
    var v :- ReadValue(b, limit);
    DecProp(v)
  }

  /** How deep the encodings are nested. */
  function TermDepth(t: Term): nat { Depth(EncTerm(t)) }

  function PropDepth(f: Prop): nat { Depth(EncProp(f)) }

  lemma {:induction false} TermBytesRoundTrip(t: Term, tail: seq<U8>, limit: nat)
    requires Encodable(t)
    ensures DecodeTerm(EncodeTerm(t) + tail, limit) == if TermDepth(t) <= limit then Ok(t) else Err
  {
    hide Encode, Decode, EncTerm, DecTerm, Encodable, Depth;
    TermSized(t);
    RoundTrip(EncTerm(t), tail, limit);
    TermRoundTrip(t);
  }

  lemma {:induction false} PropBytesRoundTrip(f: Prop, tail: seq<U8>, limit: nat)
    ensures DecodeProp(EncodeProp(f) + tail, limit) == if PropDepth(f) <= limit then Ok(f) else Err
  {
    hide Encode, Decode, EncProp, DecProp, Depth;
    PropSized(f);
    RoundTrip(EncProp(f), tail, limit);
    PropRoundTrip(f);
  }

  /** Encoded terms are self-delimiting and determine the term, and so are propositions. */
  lemma {:induction false} TermBytesInjective(t: Term, u: Term, s: seq<U8>, r: seq<U8>)
    requires Encodable(t) && Encodable(u) && EncodeTerm(t) + s == EncodeTerm(u) + r
    ensures t == u && s == r
  {
    hide Encode, EncTerm, DecTerm, Encodable;
    TermSized(t);
    TermSized(u);
    PrefixFree(EncTerm(t), EncTerm(u), s, r);
    TermRoundTrip(t);
    TermRoundTrip(u);
  }

  lemma {:induction false} PropBytesInjective(a: Prop, b: Prop, s: seq<U8>, r: seq<U8>)
    requires EncodeProp(a) + s == EncodeProp(b) + r
    ensures a == b && s == r
  {
    hide Encode, EncProp, DecProp;
    PropSized(a);
    PropSized(b);
    PrefixFree(EncProp(a), EncProp(b), s, r);
    PropRoundTrip(a);
    PropRoundTrip(b);
  }

  // ---------------------------------------------------------------------------
  // Keyrings
  // ---------------------------------------------------------------------------

  function EncRow(k: KeyRecord): Value {
    Array([ByteString(k.principal), Integer(k.alg), ByteString(k.publicKey)])
  }

  function EncodeKeyRing(k: KeyRing): seq<U8> {
    Encode(Array(seq(|k|, i requires 0 <= i < |k| => EncRow(k[i]))))
  }

  function DecRow(v: Value): Decoded<KeyRecord> {
    if !v.Array? || |v.items| != 3 then Err else
    var pid :- DecPrincipalId(v.items[0]);
    if !v.items[1].Integer? || !(0 <= v.items[1].n < 0x100) then Err else
    var pk :- BytesOf(v.items[2]);
    Ok(KeyRecord(pid, v.items[1].n, pk))
  }

  function DecRows(rows: seq<Value>): Decoded<seq<KeyRecord>> {
    if rows == [] then Ok([]) else
    var k :- DecRow(rows[0]);
    var rest :- DecRows(rows[1..]);
    Ok([k] + rest)
  }

  function DecKeyRing(b: seq<U8>, limit: nat): Decoded<seq<KeyRecord>> {
    var v :- ReadValue(b, limit);
    if v.Array? then DecRows(v.items) else Err
  }

  /** Decode a keyring row by row, stopping at the first row that fails. */
  method DecodeKeyRing(b: seq<U8>, limit: nat) returns (r: Decoded<seq<KeyRecord>>)
    ensures r == DecKeyRing(b, limit)
  {
    hide Decode;
    var v :- ReadValue(b, limit);
    if !v.Array? { return Err; }
    var rows, entries: seq<KeyRecord> := v.items, [];
    assert forall rest: seq<KeyRecord> :: [] + rest == rest;
    assert rows[0..] == rows;
    for i := 0 to |rows|
      invariant DecRows(rows) == match DecRows(rows[i..])
        case Ok(rest) => Ok(entries + rest)
        case e => e
    {
      assert rows[i..][0] == rows[i] && rows[i..][1..] == rows[i + 1..];
      var k :- DecRow(rows[i]);
      assert forall rest: seq<KeyRecord> :: entries + ([k] + rest) == entries + [k] + rest;
      entries := entries + [k];
    }
    assert rows[|rows|..] == [] && entries + [] == entries;
    r := Ok(entries);
  }

  lemma {:induction false} RowsRoundTrip(k: seq<KeyRecord>, s: seq<Value>)
    requires |s| == |k| && forall i :: 0 <= i < |k| ==> s[i] == EncRow(k[i])
    ensures DecRows(s) == Ok(k)
  {
    if k != [] {
      assert s[0] == EncRow(k[0]);
      RowsRoundTrip(k[1..], s[1..]);
      assert [k[0]] + k[1..] == k;
    }
  }

  /** A keyring is nested twice, an empty one once. */
  lemma {:induction false} KeyRingRoundTrip(k: KeyRing, tail: seq<U8>, limit: nat)
    ensures DecKeyRing(EncodeKeyRing(k) + tail, limit) ==
      if limit >= 2 || (limit == 1 && k == []) then Ok(k) else Err
  {
    hide Encode, Decode, DecRows, DepthAll, Depth;
    var rows := seq(|k|, i requires 0 <= i < |k| => EncRow(k[i]));
    forall i | 0 <= i < |rows|
      ensures Sized(rows[i]) && Depth(rows[i]) == 1
    {
      ArraySized(EncRow(k[i]).items);
      RowDepth(k[i]);
    }
    DepthOf(rows, if k == [] then 0 else 1, 0);
    ArrayDepth(rows);
    RoundTrip(Array(rows), tail, limit);
    RowsRoundTrip(k, rows);
  }

  lemma ArrayDepth(s: seq<Value>)
    ensures Depth(Array(s)) == 1 + DepthAll(s)
  {
  }

  lemma LeafDepth(v: Value)
    requires !v.Array?
    ensures Depth(v) == 0
  {
  }

  lemma RowDepth(k: KeyRecord)
    ensures Depth(EncRow(k)) == 1
  {
    hide DepthAll;
    DepthOf(EncRow(k).items, 0, 0);
  }

  // ---------------------------------------------------------------------------
  // The format
  // ---------------------------------------------------------------------------

  /** A token of one signature, byte by byte, as in the first of the repository's test vectors. */
  lemma TokenBytes(id: Bytes32, sig: Bytes64)
    ensures EncodeTerm(Sign(Principal.Atom(id), Now(TimeBound(0x1977420dc00)), Signature(0, sig))) ==
      [0x84, 0x03, 0x82, 0x00, 0x58, 0x20] + id
        + [0x82, 0x0a, 0x1b, 0x00, 0x00, 0x01, 0x97, 0x74, 0x20, 0xdc, 0x00, 0x82, 0x00, 0x58, 0x40] + sig
  {
    hide Head, BigEndian, Encode, EncodeAll, EncTerm;
    var body, who, g := Now(TimeBound(0x1977420dc00)), Principal.Atom(id), Signature(0, sig);
    PrincipalBytes(id);
    SignatureBytes(sig);
    InstantBytes();
    EncTermIs(Sign(who, body, g));
    var items := [Integer(3), EncPrincipal(who), EncTerm(body), EncSignature(g)];
    ArrayBytes(items);
    FirstItem(Integer(3), items[1..]);
    ThreeItems(EncPrincipal(who), EncTerm(body), EncSignature(g));
    assert [Integer(3)] + items[1..] == items;
    LeafBytes(3, []);
    TokenHeads();
  }

  /** And the claim it is accepted for. */
  lemma ClaimBytes(id: Bytes32)
    ensures EncodeProp(Says(Principal.Atom(id), Prop.Top)) ==
      [0x83, 0x06, 0x82, 0x00, 0x58, 0x20] + id + [0x81, 0x00]
  {
    hide Head, BigEndian, Encode, EncodeAll, EncProp;
    var who := Principal.Atom(id);
    PrincipalBytes(id);
    EncPropIs(Says(who, Prop.Top));
    EncPropIs(Prop.Top);
    ArrayBytes([Integer(6), EncPrincipal(who), EncProp(Prop.Top)]);
    ThreeItems(Integer(6), EncPrincipal(who), EncProp(Prop.Top));
    ArrayBytes([Integer(0)]);
    FirstItem(Integer(0), []);
    NoItems();
    assert [Integer(0)] + [] == [Integer(0)];
    LeafBytes(0, []);
    LeafBytes(6, []);
    TokenHeads();
  }

  lemma PrincipalBytes(id: Bytes32)
    ensures Encode(EncPrincipal(Principal.Atom(id))) == [0x82, 0x00, 0x58, 0x20] + id
  {
    hide Head, BigEndian, Encode, EncodeAll;
    ArrayBytes([Integer(0), ByteString(id)]);
    TwoItems(Integer(0), ByteString(id));
    LeafBytes(0, id);
    TokenHeads();
  }

  lemma SignatureBytes(sig: Bytes64)
    ensures Encode(EncSignature(Signature(0, sig))) == [0x82, 0x00, 0x58, 0x40] + sig
  {
    hide Head, BigEndian, Encode, EncodeAll;
    ArrayBytes([Integer(0), ByteString(sig)]);
    TwoItems(Integer(0), ByteString(sig));
    LeafBytes(0, sig);
    TokenHeads();
  }

  lemma InstantBytes()
    ensures Encode(EncTerm(Now(TimeBound(0x1977420dc00)))) ==
      [0x82, 0x0a, 0x1b, 0x00, 0x00, 0x01, 0x97, 0x74, 0x20, 0xdc, 0x00]
  {
    hide Head, BigEndian, Encode, EncodeAll, EncTerm;
    EncTermIs(Now(TimeBound(0x1977420dc00)));
    ArrayBytes([Integer(10), Integer(0x1977420dc00)]);
    TwoItems(Integer(10), Integer(0x1977420dc00));
    LeafBytes(10, []);
    LeafBytes(0x1977420dc00, []);
    TokenHeads();
  }

  lemma TokenHeads()
    ensures Head(4, 1) == [0x81] && Head(4, 2) == [0x82] && Head(4, 3) == [0x83] && Head(4, 4) == [0x84]
    ensures Head(0, 0) == [0x00] && Head(0, 3) == [0x03] && Head(0, 6) == [0x06] && Head(0, 10) == [0x0a]
    ensures Head(2, 32) == [0x58, 0x20] && Head(2, 64) == [0x58, 0x40]
    ensures Head(0, 0x1977420dc00) == [0x1b, 0x00, 0x00, 0x01, 0x97, 0x74, 0x20, 0xdc, 0x00]
  {
    hide BigEndian;
    OneByte(32, [32]);
    OneByte(64, [64]);
    EightBytes(0x1977420dc00, [0x00, 0x00, 0x01, 0x97, 0x74, 0x20, 0xdc, 0x00]);
  }

  /** Heads need not be shortest to be read. */
  lemma LongForm(instant: U8)
    requires instant < 24
    ensures DecodeTerm([0x82, 0x18, 0x0a, instant], 1) == Ok(Now(TimeBound(instant)))
  {
    var b: seq<U8>, v := [0x82, 0x18, 0x0a, instant], Array([Integer(10), Integer(instant)]);
    assert DecodeHead(b) == Some((4, 2, [0x18, 0x0a, instant]));
    assert Decode([0x18, 0x0a, instant], 0) == Some((Integer(10), [instant])) by {
      FromShifted([10]);
      assert [0x18, 0x0a, instant][1..2] == [10] && [10][..0] == [];
      assert [0x18, 0x0a, instant][2..] == [instant];
    }
    assert Decode([instant], 0) == Some((Integer(instant), []));
    hide Decode;
    DecodeStep(0, [], 0);
    DecodeStep(1, [instant], 0);
    DecodeStep(2, [0x18, 0x0a, instant], 0);
    assert [Integer(instant)] + [] == [Integer(instant)] && [Integer(10)] + [Integer(instant)] == v.items;
    DecodeArray(b, 1, v.items, []);
    hide DecTermNode;
    DecTermTagged(v, 10);
    InstantTerm(instant);
  }

  lemma InstantTerm(instant: U8)
    ensures DecTermNode(Array([Integer(10), Integer(instant)]), 10) == Ok(Now(TimeBound(instant)))
  {
  }

  lemma CanonicalInstant(instant: U8)
    requires instant < 24
    ensures EncodeTerm(Now(TimeBound(instant))) == [0x82, 0x0a, instant]
  {
    hide Head, BigEndian, Encode, EncodeAll, EncTerm;
    EncTermIs(Now(TimeBound(instant)));
    ArrayBytes([Integer(10), Integer(instant)]);
    TwoItems(Integer(10), Integer(instant));
    LeafBytes(10, []);
    LeafBytes(instant, []);
    TokenHeads();
    SmallHead(instant);
  }

  lemma SmallHead(n: nat)
    requires n < 24
    ensures Head(0, n) == [n]
  {
    hide BigEndian;
  }

  /** The integer in front of every kind of term. */
  lemma TermTags(t: Term)
    ensures EncTerm(t).Array? && |EncTerm(t).items| > 1
    ensures EncTerm(t).items[0] == Integer(match t
      case Var(_) => 0 case Lam(_, _) => 1 case App(_, _) => 2 case Sign(_, _, _) => 3 case Verify(_, _, _) => 4
      case Delegate(_, _) => 5 case Attenuate(_, _) => 6 case Discharge(_, _) => 7 case LiftLabel(_, _) => 8
      case Declassify(_, _, _) => 9 case Now(_) => 10 case WithinIntro(_, _) => 11 case Pair(_, _) => 12
      case Fst(_) => 13 case Snd(_) => 14 case Inl(_, _) => 15 case Inr(_, _) => 16 case Case(_, _, _) => 17
      case TensorIntro(_, _) => 18 case LetTensor(_, _) => 19 case LetSays(_, _, _) => 20 case SfExtract(_) => 21
      case Boxed(_, _, _) => 22 case SaysBind(_, _, _) => 23 case Command(_, _, _) => 24 case RunCmd(_, _) => 25)
  {
    hide EncProp, EncPrincipal, EncLabel, EncObligation, EncSignature;
    EncTermIs(t);
  }

  /** A term's subterms stand in the order of its syntax, and last, but for a trailing signature,
      target or label. */
  lemma SubtermsInOrder(t: Term)
    ensures EncTerm(t).Array?
    ensures var a, c := EncTerm(t).items, Children(t);
      var first := |a| - |c| - if t.Sign? || t.Verify? || t.Attenuate? || t.Command? then 1 else 0;
      first >= 1 && forall i :: 0 <= i < |c| ==> a[first + i] == EncTerm(c[i].term)
  {
    hide EncTerm, EncProp, EncPrincipal, EncLabel, EncObligation, EncSignature;
    EncTermIs(t);
  }

  lemma PropTags(f: Prop)
    ensures EncProp(f).Array? && |EncProp(f).items| > 0
    ensures EncProp(f).items[0] == Integer(match f
      case Top => 0 case Bot => 1 case Atom(_) => 2 case Imp(_, _) => 3 case And(_, _) => 4 case Or(_, _) => 5
      case Says(_, _) => 6 case SpeaksFor(_, _) => 7 case At(_, _) => 8 case Boxed(_, _) => 9
      case Within(_, _) => 10 case Tensor(_, _) => 11 case Lolli(_, _) => 12 case Replicated(_, _) => 13)
    ensures f.SpeaksFor? ==> EncProp(f).items[1..] == [EncPrincipal(f.q), EncPrincipal(f.p)]
    ensures f.Imp? || f.And? || f.Or? || f.Tensor? || f.Lolli? ==>
      EncProp(f).items[1..] == [EncProp(f.left), EncProp(f.right)]
  {
    hide EncProp, EncPrincipal, EncLabel, EncObligation;
    EncPropIs(f);
  }

  lemma PrincipalTags(p: Principal)
    ensures EncPrincipal(p).Array? && |EncPrincipal(p).items| > 0
    ensures EncPrincipal(p).items[0] == Integer(match p
      case Atom(_) => 0 case And(_, _) => 1 case Or(_, _) => 2 case Acting(_, _) => 3)
    ensures !p.Atom? ==> EncPrincipal(p).items[1..] == [EncPrincipal(p.left), EncPrincipal(p.right)]
  {
  }

  lemma ObligationTags(o: Obligation)
    ensures EncObligation(o).Array? && |EncObligation(o).items| > 0
    ensures EncObligation(o).items[0] == Integer(match o
      case Top => 0 case Bot => 1 case ActOf(_, _) => 2 case Within(_) => 3 case Tensor(_, _) => 4
      case Lolli(_, _) => 5 case Budget(_) => 6)
    ensures o.Tensor? || o.Lolli? ==>
      EncObligation(o).items[1..] == [EncObligation(o.left), EncObligation(o.right)]
    ensures o.Budget? ==>
      EncObligation(o).items[1..] == [Array([Integer(o.budget.epsilonMicros), Integer(o.budget.deltaMicros)])]
  {
  }

  /** A keyring row, byte by byte; and it is read strictly. */
  lemma RowBytes(k: KeyRecord)
    requires |k.publicKey| == 32 && k.alg == 0
    ensures Encode(EncRow(k)) == [0x83, 0x58, 0x20] + k.principal + [0x00, 0x58, 0x20] + k.publicKey
  {
    hide Head, BigEndian, Encode, EncodeAll;
    ArrayBytes(EncRow(k).items);
    ThreeItems(ByteString(k.principal), Integer(k.alg), ByteString(k.publicKey));
    LeafBytes(k.alg, k.principal);
    LeafBytes(k.alg, k.publicKey);
    TokenHeads();
  }

  lemma {:induction false} RowExactly(v: Value, k: KeyRecord)
    ensures DecRow(v) == Ok(k) <==> v == EncRow(k)
  {
    if v.Array? && |v.items| == 3 { assert v.items == [v.items[0], v.items[1], v.items[2]]; }
  }

  /** Reading narrows integers to their low-order bits rather than refusing them: an index to 32,
      an instant to 64 and an algorithm to 8. An unknown kind is refused, and an array too short
      for its kind is indexed out of bounds. */
  lemma Narrowing(n: Int65, sig: Bytes)
    ensures DecTerm(Array([Integer(0), Integer(n)])) == Ok(Var(n % 0x1_0000_0000))
    ensures DecTerm(Array([Integer(10), Integer(n)])) == Ok(Now(TimeBound(n % 0x1_0000_0000_0000_0000)))
    ensures DecSignature(Array([Integer(n), ByteString(sig)])) == Ok(Signature(n % 0x100, sig))
    ensures 26 <= n % 0x1_0000_0000_0000_0000 ==> DecTerm(Array([Integer(n)])) == Err
    ensures DecTerm(Array([])) == DecTerm(Array([Integer(2)])) == Panic && DecTerm(Null) == Err
  {
    hide DecTerm, DecTermNode, DecSignature;
    AlgorithmNarrows(n, sig);
    DecTermTagged(Array([Integer(0), Integer(n)]), 0);
    IndexNarrows(n);
    DecTermTagged(Array([Integer(10), Integer(n)]), 10);
    InstantNarrows(n);
    var tag := n % 0x1_0000_0000_0000_0000;
    DecTermIs(Array([Integer(n)]));
    if 26 <= tag { UnknownKind(Array([Integer(n)]), tag); }
    DecTermIs(Array([]));
    DecTermTagged(Array([Integer(2)]), 2);
    ShortArray();
    DecTermIs(Null);
  }

  lemma DecTermIs(v: Value)
    ensures DecTerm(v) == (var tag :- DecTag(v); DecTermNode(v, tag))
  {
    hide DecTermNode;
  }

  lemma IndexNarrows(n: Int65)
    ensures DecTermNode(Array([Integer(0), Integer(n)]), 0) == Ok(Var(n % 0x1_0000_0000))
  {
  }

  lemma InstantNarrows(n: Int65)
    ensures DecTermNode(Array([Integer(10), Integer(n)]), 10) == Ok(Now(TimeBound(n % 0x1_0000_0000_0000_0000)))
  {
  }

  lemma AlgorithmNarrows(n: Int65, sig: Bytes)
    ensures DecSignature(Array([Integer(n), ByteString(sig)])) == Ok(Signature(n % 0x100, sig))
  {
    var v := Array([Integer(n), ByteString(sig)]);
    assert DecSignature(v) == Ok(Signature(n % 0x1_0000_0000 % 0x100, sig));
    LowByte(n);
  }

  lemma LowByte(n: int)
    ensures n % 0x1_0000_0000 % 0x100 == n % 0x100
  {
    var q, r := n / 0x1_0000_0000, n % 0x1_0000_0000;
    var a, b := r / 0x100, r % 0x100;
    Remainder(n, q * 0x100_0000 + a, b);
  }

  lemma Remainder(n: int, k: int, b: int)
    requires n == 0x100 * k + b && 0 <= b < 0x100
    ensures n / 0x100 == k && n % 0x100 == b
  {
  }

  lemma UnknownKind(v: Value, tag: U64)
    requires 26 <= tag
    ensures DecTermNode(v, tag) == Err
  {
    hide TermField, PropField, LabelField, PrincipalField, SignatureField, ObligationField;
  }

  lemma ShortArray()
    ensures DecTermNode(Array([Integer(2)]), 2) == Panic
  {
  }
}
