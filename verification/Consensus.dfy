/** The decision predicates of the consensus layer: counting loops over a ballot, and the
    quorums they stand for. */
module Consensus {
  import opened Syntax
  import opened Rsm

  /** `votes[i]` is what seat `i` voted for, if anything. */
  type Ballot = seq<Option<Command>>

  /** The thresholds, in the wrapping 32-bit arithmetic of the code. */
  predicate IsQuorum(card: U32, n: U32) { (2 * card) % TWO32 > n }

  predicate IsByzQuorum(card: U32, n: U32) { (3 * card) % TWO32 > (2 * n) % TWO32 }

  /** The seats that voted for `v`. */
  ghost function Voters(votes: Ballot, v: Command): set<nat> {
    set i: nat | i < |votes| && votes[i] == Some(v)
  }

  /** The counting loop of both decision predicates. */
  method Count(votes: Ballot, v: Command) returns (count: U32)
    ensures count == |Voters(votes, v)| % TWO32
  {
    count := 0;
    VotersEmpty(votes[..0], v);
    for i := 0 to |votes|
      invariant count == |Voters(votes[..i], v)| % TWO32
    {
      VotersMore(votes, v, i);
      if votes[i] == Some(v) {
        count := (count + 1) % TWO32;
      }
    }
    assert votes[..|votes|] == votes;
  }

  lemma VotersEmpty(votes: Ballot, v: Command)
    requires votes == []
    ensures Voters(votes, v) == {}
  {
  }

  lemma VotersMore(votes: Ballot, v: Command, i: nat)
    requires i < |votes|
    ensures |Voters(votes[..i + 1], v)| == |Voters(votes[..i], v)| + if votes[i] == Some(v) then 1 else 0
  {
    var s := Voters(votes[..i], v);
    if votes[i] == Some(v) {
      assert Voters(votes[..i + 1], v) == s + {i};
    } else {
      assert Voters(votes[..i + 1], v) == s;
    }
  }

  method Decided(votes: Ballot, v: Command) returns (r: bool)
    ensures r == IsQuorum(|Voters(votes, v)| % TWO32, |votes| % TWO32)
  {
    var count := Count(votes, v);
    r := IsQuorum(count, |votes| % TWO32);
  }

  method ByzDecided(votes: Ballot, v: Command) returns (r: bool)
    ensures r == IsByzQuorum(|Voters(votes, v)| % TWO32, |votes| % TWO32)
  {
    var count := Count(votes, v);
    r := IsByzQuorum(count, |votes| % TWO32);
  }

  // ---------------------------------------------------------------------------
  // What a decision means
  // ---------------------------------------------------------------------------

  function Seats(n: nat): (s: set<nat>)
    ensures forall i: nat :: i in s <==> i < n
    ensures |s| == n
  {
    if n == 0 then {} else Seats(n - 1) + {n - 1}
  }

  lemma SubsetCard(a: set<nat>, b: set<nat>)
    requires a <= b
    ensures |a| <= |b|
  {
    assert b == a + (b - a);
  }

  lemma VotersBound(votes: Ballot, v: Command)
    ensures |Voters(votes, v)| <= |votes|
  {
    SubsetCard(Voters(votes, v), Seats(|votes|));
  }

  /** What the wrapping thresholds mean: a majority whose double still fits 32 bits, and, on
      fewer than 2^31 seats, a two-thirds majority whose triple does. */
  lemma NoWrap(card: nat, n: nat)
    requires card <= n < TWO32
    ensures IsQuorum(card, n) <==> n < 2 * card < TWO32
    ensures n < 0x8000_0000 ==> (IsByzQuorum(card, n) <==> 2 * n < 3 * card < TWO32)
  {
  }

  /** The numbers of seats on which the majority test is the intended one: those below 2^31. */
  lemma MajorityExactly(n: U32)
    ensures n < 0x8000_0000 <==> forall c: U32 :: c <= n ==> (IsQuorum(c, n) <==> 2 * c > n)
  {
    NoWrapBoth(n);
    assert n >= 0x8000_0000 ==> !IsQuorum(n, n);
  }

  /** And the two-thirds test: those up to 2^32 / 3. */
  lemma TwoThirdsExactly(n: U32)
    ensures n <= 0x5555_5555 <==> forall c: U32 :: c <= n ==> (IsByzQuorum(c, n) <==> 3 * c > 2 * n)
  {
    NoWrapBoth(n);
    assert 0x5555_5555 < n < 0x8000_0000 ==> !IsByzQuorum(n, n);
    if n >= 0x8000_0000 {
      var c := (2 * n - TWO32) / 3 + 1;
      assert 2 * n - TWO32 < 3 * c <= 2 * n && 3 * c < TWO32;
      assert IsByzQuorum(c, n);
    }
  }

  /** From 2^31 seats on the Byzantine threshold itself wraps: one vote of 2^31 passes. */
  lemma ByzantineWraps()
    ensures IsByzQuorum(1, 0x8000_0000)
  {
  }

  lemma NoWrapBoth(n: U32)
    ensures forall c: U32 :: c <= n ==> (IsQuorum(c, n) <==> n < 2 * c < TWO32)
    ensures n < 0x8000_0000 ==> forall c: U32 :: c <= n ==> (IsByzQuorum(c, n) <==> 2 * n < 3 * c < TWO32)
  {
  }

  lemma SmallMod(n: nat)
    ensures n < TWO32 ==> n % TWO32 == n
  {
  }

  /** `decided` holds exactly when the seats of some majority all voted for `v`, and
      `byz_decided` exactly when those of some two-thirds majority did, as long as twice, and
      three times, the votes fit 32 bits. */
  lemma {:induction false} DecidedMeansQuorum(votes: Ballot, v: Command)
    ensures |votes| < TWO32 ==>
      (IsQuorum(|Voters(votes, v)| % TWO32, |votes| % TWO32) <==>
        2 * |Voters(votes, v)| < TWO32 && exists q: set<nat> :: Unanimous(q, votes, v) && 2 * |q| > |votes|)
    ensures |votes| < 0x8000_0000 ==>
      (IsByzQuorum(|Voters(votes, v)| % TWO32, |votes| % TWO32) <==>
        3 * |Voters(votes, v)| < TWO32 && exists q: set<nat> :: Unanimous(q, votes, v) && 3 * |q| > 2 * |votes|)
  {
    hide IsQuorum, IsByzQuorum;
    if |votes| < TWO32 {
      var s := Voters(votes, v);
      Tally(votes, v);
      assert Unanimous(s, votes, v);
      forall q: set<nat> | Unanimous(q, votes, v)
        ensures |q| <= |s|
      {
        SubsetCard(q, s);
      }
    }
  }

  lemma Tally(votes: Ballot, v: Command)
    requires |votes| < TWO32
    ensures var card, n := |Voters(votes, v)|, |votes|;
      && card <= n
      && (IsQuorum(card % TWO32, n % TWO32) <==> n < 2 * card < TWO32)
      && (n < 0x8000_0000 ==> (IsByzQuorum(card % TWO32, n % TWO32) <==> 2 * n < 3 * card < TWO32))
  {
    hide IsQuorum, IsByzQuorum;
    VotersBound(votes, v);
    SmallMod(|Voters(votes, v)|);
    SmallMod(|votes|);
    NoWrap(|Voters(votes, v)|, |votes|);
  }

  /** Every seat of `q` voted for `v`. */
  ghost predicate Unanimous(q: set<nat>, votes: Ballot, v: Command) {
    forall i :: i in q ==> i < |votes| && votes[i] == Some(v)
  }

  /** Two sets of seats too large to be disjoint overlap by the excess. */
  lemma Overlap(a: set<nat>, b: set<nat>, n: nat)
    requires a <= Seats(n) && b <= Seats(n)
    ensures |a * b| + n >= |a| + |b|
  {
    SubsetCard(a + b, Seats(n));
    assert |a + b| + |a * b| == |a| + |b| by {
      assert a + b == a + (b - a) && b == (b - a) + a * b;
    }
  }

  /** Majorities intersect; two-thirds majorities share more than a third of the seats, so
      at least one seat outside any set of fewer than a third. */
  lemma {:induction false} QuorumsIntersect(a: set<nat>, b: set<nat>, n: nat)
    requires a <= Seats(n) && b <= Seats(n)
    ensures 2 * |a| > n && 2 * |b| > n ==> a * b != {}
    ensures 3 * |a| > 2 * n && 3 * |b| > 2 * n ==> 3 * |a * b| > n
    ensures 3 * |a| > 2 * n && 3 * |b| > 2 * n ==>
      forall f: set<nat> :: 3 * |f| <= n ==> a * b - f != {}
  {
    Overlap(a, b, n);
    forall f: set<nat> | 3 * |f| <= n && 3 * |a| > 2 * n && 3 * |b| > 2 * n
      ensures a * b - f != {}
    {
      if a * b <= f { SubsetCard(a * b, f); }
    }
  }

  /** Agreement on one ballot: at most one command is decided. */
  lemma {:induction false} OneDecision(votes: Ballot, v: Command, w: Command)
    requires var a, b, n := |Voters(votes, v)| % TWO32, |Voters(votes, w)| % TWO32, |votes| % TWO32;
      || (|votes| < TWO32 && IsQuorum(a, n) && IsQuorum(b, n))
      || (|votes| < 0x8000_0000 && IsByzQuorum(a, n) && IsByzQuorum(b, n))
    ensures v == w
  {
    hide IsQuorum, IsByzQuorum;
    var s, t := Voters(votes, v), Voters(votes, w);
    Tally(votes, v);
    Tally(votes, w);
    QuorumsIntersect(s, t, |votes|);
    var i :| i in s * t;
  }
}
