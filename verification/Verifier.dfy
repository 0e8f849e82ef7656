/** The verifier: a wire-format term is accepted for a claimed proposition when it is typed at
    it and every signature in it verifies. */
module Verifier {
  import opened Syntax
  import opened Cbor
  import opened Wire
  import opened Typing
  import opened Soundness
  import opened Proto
  import Derivation

  datatype Verdict = Accept | Fail | Aborted

  /** The first row of a principal. */
  function RowOf(ring: seq<KeyRecord>, id: Bytes32): (r: Option<KeyRecord>)
    ensures r.Some? ==> r.value in ring && r.value.principal == id
    ensures r.None? ==> forall k :: k in ring ==> k.principal != id
  {
    if ring == [] then None else if ring[0].principal == id then Some(ring[0]) else RowOf(ring[1..], id)
  }

  const ALG_ED25519: U8 := 0

  /** Keys and signatures of the wrong length are invalid. */
  predicate VerifyRaw(s: Scheme, pk: Bytes, m: seq<U8>, sig: Bytes) {
    |pk| == 32 && |sig| == 64 && s.verify(pk, m, sig)
  }

  /** Only atomic principals hold keys. */
  predicate VerifyInKeyring(s: Scheme, ring: seq<KeyRecord>, p: Principal, canonical: seq<U8>, sig: Signature) {
    p.Atom? && match RowOf(ring, p.id)
      case None => false
      case Some(k) =>
        sig.alg == ALG_ED25519 && k.alg == ALG_ED25519 && VerifyRaw(s, k.publicKey, canonical, sig.bytes)
  }

  /** The signature on a node, if it is a signing node, covers the encoding of its body. */
  predicate Signed(s: Scheme, ring: seq<KeyRecord>, t: Term) {
    t.Sign? ==> VerifyInKeyring(s, ring, t.p, EncodeTerm(t.m), t.sig)
  }

  /** The walk over a term, constructor by constructor. */
  predicate AllSigsVerify(s: Scheme, ring: seq<KeyRecord>, t: Term) {
    match t
    case Sign(_, m, _) => Signed(s, ring, t) && AllSigsVerify(s, ring, m)
    case Var(_) => true
    case Now(_) => true
    case Lam(_, b) => AllSigsVerify(s, ring, b)
    case App(m, n) => AllSigsVerify(s, ring, m) && AllSigsVerify(s, ring, n)
    case Verify(_, m, _) => AllSigsVerify(s, ring, m)
    case Delegate(m, n) => AllSigsVerify(s, ring, m) && AllSigsVerify(s, ring, n)
    case Discharge(m, n) => AllSigsVerify(s, ring, m) && AllSigsVerify(s, ring, n)
    case Boxed(_, m, n) => AllSigsVerify(s, ring, m) && AllSigsVerify(s, ring, n)
    case Attenuate(m, _) => AllSigsVerify(s, ring, m)
    case LiftLabel(_, m) => AllSigsVerify(s, ring, m)
    case Declassify(_, m, n) => AllSigsVerify(s, ring, m) && AllSigsVerify(s, ring, n)
    case WithinIntro(_, m) => AllSigsVerify(s, ring, m)
    case Pair(m, n) => AllSigsVerify(s, ring, m) && AllSigsVerify(s, ring, n)
    case TensorIntro(m, n) => AllSigsVerify(s, ring, m) && AllSigsVerify(s, ring, n)
    case LetTensor(m, b) => AllSigsVerify(s, ring, m) && AllSigsVerify(s, ring, b)
    case Fst(m) => AllSigsVerify(s, ring, m)
    case Snd(m) => AllSigsVerify(s, ring, m)
    case Inl(_, m) => AllSigsVerify(s, ring, m)
    case Inr(_, m) => AllSigsVerify(s, ring, m)
    case SfExtract(m) => AllSigsVerify(s, ring, m)
    case Case(m, l, r) => AllSigsVerify(s, ring, m) && AllSigsVerify(s, ring, l) && AllSigsVerify(s, ring, r)
    case SaysBind(_, m, b) => AllSigsVerify(s, ring, m) && AllSigsVerify(s, ring, b)
    case LetSays(_, m, b) => AllSigsVerify(s, ring, m) && AllSigsVerify(s, ring, b)
    case Command(m, n, _) => AllSigsVerify(s, ring, m) && AllSigsVerify(s, ring, n)
    case RunCmd(m, n) => AllSigsVerify(s, ring, m) && AllSigsVerify(s, ring, n)
  }

  function VerifyToken(s: Scheme, limit: nat, wire: seq<U8>, claimed: Prop, ring: seq<KeyRecord>,
      assumptions: seq<Prop>): Verdict {
    match DecodeTerm(wire, limit)
    case Err => Fail
    case Panic => Aborted
    case Ok(t) =>
      if Infer(Ctx(assumptions, []), t) != Some(claimed) then Fail
      else if AllSigsVerify(s, ring, t) then Accept
      else Fail
  }

  // ---------------------------------------------------------------------------
  // Every signature, wherever it stands
  // ---------------------------------------------------------------------------

  /** `u` is `t` or stands at some position inside it: under binders, in evidence, in policies
      and in credentials alike. */
  ghost predicate Occurs(u: Term, t: Term) {
    u == t || exists i :: 0 <= i < |Children(t)| && Occurs(u, Children(t)[i].term)
  }

  /** The walk takes every child of every node. */
  lemma WalksChildren(s: Scheme, ring: seq<KeyRecord>, t: Term)
    ensures AllSigsVerify(s, ring, t) <==>
      Signed(s, ring, t) && forall i :: 0 <= i < |Children(t)| ==> AllSigsVerify(s, ring, Children(t)[i].term)
  {
    hide Signed;
    NotASign(s, ring, t);
    var c := Children(t);
    if |c| == 1 {
      assert c == [c[0]];
    } else if |c| == 2 {
      assert c == [c[0], c[1]];
    } else if |c| == 3 {
      assert c == [c[0], c[1], c[2]];
    }
  }

  lemma NotASign(s: Scheme, ring: seq<KeyRecord>, t: Term)
    ensures !t.Sign? ==> Signed(s, ring, t)
  {
  }

  /** The walk visits every position. */
  lemma {:induction false} WalkVisits(s: Scheme, ring: seq<KeyRecord>, t: Term)
    ensures AllSigsVerify(s, ring, t) <==> forall u :: Occurs(u, t) ==> Signed(s, ring, u)
  {
    hide Signed, AllSigsVerify, Children;
    WalksChildren(s, ring, t);
    forall i | 0 <= i < |Children(t)|
      ensures AllSigsVerify(s, ring, Children(t)[i].term) <==>
        forall u :: Occurs(u, Children(t)[i].term) ==> Signed(s, ring, u)
    {
      WalkVisits(s, ring, Children(t)[i].term);
    }
    assert Occurs(t, t);
    forall i, u | 0 <= i < |Children(t)| && Occurs(u, Children(t)[i].term)
      ensures Occurs(u, t)
    {
    }
  }

  // ---------------------------------------------------------------------------
  // What a verified signature is
  // ---------------------------------------------------------------------------

  /** Row `j` is the first one of `id`. */
  ghost predicate FirstRow(ring: seq<KeyRecord>, id: Bytes32, j: nat) {
    j < |ring| && ring[j].principal == id && forall i :: 0 <= i < j ==> ring[i].principal != id
  }

  /** The signature of signing node `u` is one on the encoding of its body, of the two sizes and
      the algorithm there are, under the key in the first row of its atomic principal. */
  ghost predicate BodySigned(s: Scheme, ring: seq<KeyRecord>, u: Term)
    requires u.Sign?
  {
    u.p.Atom? && exists j: nat ::
      && FirstRow(ring, u.p.id, j) && ring[j].alg == 0 && |ring[j].publicKey| == 32
      && u.sig.alg == 0 && |u.sig.bytes| == 64 && s.verify(ring[j].publicKey, EncodeTerm(u.m), u.sig.bytes)
  }

  lemma {:induction false} RowFirst(ring: seq<KeyRecord>, id: Bytes32, j: nat)
    requires FirstRow(ring, id, j)
    ensures RowOf(ring, id) == Some(ring[j])
  {
    if j > 0 { RowFirst(ring[1..], id, j - 1); }
  }

  lemma {:induction false} FirstRowOf(ring: seq<KeyRecord>, id: Bytes32) returns (j: nat)
    requires RowOf(ring, id).Some?
    ensures FirstRow(ring, id, j)
  {
    if ring[0].principal == id {
      j := 0;
    } else {
      var i := FirstRowOf(ring[1..], id);
      j := i + 1;
    }
  }

  /** Keyring verification of a signing node is exactly that. */
  lemma {:induction false} SignedExactly(s: Scheme, ring: seq<KeyRecord>, u: Term)
    ensures Signed(s, ring, u) <==> (u.Sign? ==> BodySigned(s, ring, u))
  {
    hide EncodeTerm, RowOf;
    if u.Sign? && u.p.Atom? {
      if RowOf(ring, u.p.id).Some? {
        var j := FirstRowOf(ring, u.p.id);
        RowFirst(ring, u.p.id, j);
      }
      forall j: nat | FirstRow(ring, u.p.id, j)
        ensures RowOf(ring, u.p.id) == Some(ring[j])
      {
        RowFirst(ring, u.p.id, j);
      }
    }
  }

  /** The walk succeeds exactly when the body of every signing node, at any position, is signed. */
  lemma {:induction false} WalkMeansSigned(s: Scheme, ring: seq<KeyRecord>, t: Term)
    ensures AllSigsVerify(s, ring, t) <==> forall u :: Occurs(u, t) && u.Sign? ==> BodySigned(s, ring, u)
  {
    hide AllSigsVerify, Occurs, Signed, BodySigned;
    WalkVisits(s, ring, t);
    forall u
      ensures Signed(s, ring, u) <==> (u.Sign? ==> BodySigned(s, ring, u))
    {
      SignedExactly(s, ring, u);
    }
  }

  /** The verifier accepts the encoding of a term, whatever bytes follow it, exactly when it is
      not nested deeper than the reader allows, the rules of typing derive the claim, and the
      body of every signing node, at any position of the term, is signed; and it never fails to
      answer. */
  lemma {:induction false} AcceptsExactly(s: Scheme, limit: nat, t: Term, tail: seq<U8>, claimed: Prop,
      ring: seq<KeyRecord>, assumptions: seq<Prop>)
    requires Encodable(t)
    ensures var v := VerifyToken(s, limit, EncodeTerm(t) + tail, claimed, ring, assumptions);
      && v != Aborted
      && (v == Accept <==>
            && TermDepth(t) <= limit
            && Derivation.Derives(Ctx(assumptions, []), t, claimed)
            && forall u :: Occurs(u, t) && u.Sign? ==> BodySigned(s, ring, u))
  {
    hide Infer, EncodeTerm, DecodeTerm, TermDepth, AllSigsVerify, Occurs, Signed, BodySigned, Encodable;
    hide Derivation.Derives;
    TermBytesRoundTrip(t, tail, limit);
    WalkMeansSigned(s, ring, t);
    Derivation.InferExactly(Ctx(assumptions, []), t, claimed);
  }

  /** It fails to answer exactly on bytes whose decoding indexes an array out of bounds, such as
      those of an empty array; bytes that do not decode are refused. */
  lemma AbortsExactly(s: Scheme, limit: nat, wire: seq<U8>, claimed: Prop, ring: seq<KeyRecord>, assumptions: seq<Prop>)
    ensures VerifyToken(s, limit, wire, claimed, ring, assumptions) == Aborted <==> DecodeTerm(wire, limit) == Panic
    ensures DecodeTerm(wire, limit) == Err ==> VerifyToken(s, limit, wire, claimed, ring, assumptions) == Fail
    ensures limit > 0 ==> VerifyToken(s, limit, [0x80], claimed, ring, assumptions) == Aborted
  {
    hide Infer, AllSigsVerify;
    if limit > 0 {
      DecodeStep(0, [], limit - 1);
      DecodeArray([0x80], limit, [], []);
    }
  }

  /** The verifier judges the term, not the bytes: any bytes read as the term are given the verdict
      of its canonical encoding. */
  lemma {:induction false} JudgesTheTerm(s: Scheme, limit: nat, wire: seq<U8>, t: Term, claimed: Prop,
                                         ring: seq<KeyRecord>, assumptions: seq<Prop>)
    requires DecodeTerm(wire, limit) == Ok(t) && TermDepth(t) <= limit
    ensures VerifyToken(s, limit, wire, claimed, ring, assumptions)
         == VerifyToken(s, limit, EncodeTerm(t), claimed, ring, assumptions)
  {
    hide Infer, EncodeTerm, DecTerm, TermDepth, AllSigsVerify, Encodable;
    DecodedFits(ReadValue(wire, limit).value);
    TermBytesRoundTrip(t, [], limit);
    assert EncodeTerm(t) + [] == EncodeTerm(t);
  }

  /** So it accepts tokens that are not in canonical form, which the token format asks verifiers
      to reject: here a kind written in two bytes instead of one. */
  lemma NonCanonicalAccepted(s: Scheme, instant: U8)
    requires instant < 24
    ensures var wire: seq<U8> := [0x82, 0x18, 0x0a, instant];
      && VerifyToken(s, 1, wire, Prop.Top, [], []) == Accept
      && wire != EncodeTerm(Now(TimeBound(instant)))
  {
    hide AllSigsVerify, Infer, EncodeTerm;
    var wire: seq<U8>, t := [0x82, 0x18, 0x0a, instant], Now(TimeBound(instant));
    LongForm(instant);
    CanonicalInstant(instant);
    InferIs(Ctx([], []), t);
    WalkMeansSigned(s, [], t);
  }

  /** The signatures in a term that verify under a ring key do so only on what the key's holder
      signed. */
  ghost predicate Genuine(s: Scheme, ring: seq<KeyRecord>, t: Term, signed: Bytes -> set<Term>) {
    forall u, k: KeyRecord, b: seq<U8> ::
      (Occurs(u, t) && u.Sign? && k in ring && |k.publicKey| == 32 && |u.sig.bytes| == 64
        && s.verify(k.publicKey, b, u.sig.bytes))
      ==> exists m :: m in signed(k.publicKey) && Encodable(m) && b == EncodeTerm(m)
  }

  /** So with genuine signatures, whatever the accepted term says someone signed, the holder of
      that principal's key signed: that body, and no other. */
  lemma {:induction false} AcceptedBodies(s: Scheme, limit: nat, t: Term, tail: seq<U8>, claimed: Prop,
      ring: seq<KeyRecord>, assumptions: seq<Prop>, signed: Bytes -> set<Term>, u: Term)
    requires Encodable(t) && Genuine(s, ring, t, signed)
    requires VerifyToken(s, limit, EncodeTerm(t) + tail, claimed, ring, assumptions) == Accept
    requires Occurs(u, t) && u.Sign?
    ensures u.p.Atom? && exists j: nat :: FirstRow(ring, u.p.id, j) && u.m in signed(ring[j].publicKey)
  {
    hide EncodeTerm, VerifyToken, Encodable, TermDepth, Occurs;
    hide Derivation.Derives;
    AcceptsExactly(s, limit, t, tail, claimed, ring, assumptions);
    assert BodySigned(s, ring, u);
    var j: nat :| FirstRow(ring, u.p.id, j) && ring[j].alg == 0 && |ring[j].publicKey| == 32
      && u.sig.alg == 0 && |u.sig.bytes| == 64 && s.verify(ring[j].publicKey, EncodeTerm(u.m), u.sig.bytes);
    var m :| m in signed(ring[j].publicKey) && Encodable(m) && EncodeTerm(u.m) == EncodeTerm(m);
    OccursEncodable(u, t);
    BodyEncodable(u);
    assert EncodeTerm(u.m) + [] == EncodeTerm(m) + [];
    TermBytesInjective(u.m, m, [], []);
  }

  lemma {:induction false} OccursEncodable(u: Term, t: Term)
    requires Occurs(u, t) && Encodable(t)
    ensures Encodable(u)
  {
    hide Encodable, Children;
    EncodableParts(t);
    if u != t {
      var i :| 0 <= i < |Children(t)| && Occurs(u, Children(t)[i].term);
      OccursEncodable(u, Children(t)[i].term);
    }
  }

  lemma BodyEncodable(u: Term)
    requires u.Sign? && Encodable(u)
    ensures Encodable(u.m)
  {
    hide Encodable;
    EncodableParts(u);
    assert Children(u)[0].term == u.m;
  }

  /** What any accepted bytes establish: if the term in them attenuates nothing, the claim is
      true in every valuation in which the assumptions are. */
  lemma {:induction false} AcceptedIsTrue(s: Scheme, limit: nat, wire: seq<U8>, claimed: Prop, ring: seq<KeyRecord>,
      assumptions: seq<Prop>, atoms: U32 -> bool, speaks: (Principal, Principal) -> bool)
    requires VerifyToken(s, limit, wire, claimed, ring, assumptions) == Accept
    requires Every(DecodeTerm(wire, limit).value, NotAttenuate)
    requires forall i :: 0 <= i < |assumptions| ==> True(assumptions[i], atoms, speaks)
    ensures True(claimed, atoms, speaks)
  {
    hide Infer, AllSigsVerify, DecodeTerm, Every, True;
    Soundness.Soundness(Ctx(assumptions, []), DecodeTerm(wire, limit).value, atoms, speaks);
  }
}
