/** Where agreement ends: a contested slot makes two followers disagree, so the condition of
    `UncontestedAgreement` is exact; and one faulty seat of four can contest one. */
module Disagreement {
  import opened Syntax
  import opened Rsm
  import opened Proto
  import opened Auth
  import opened AuthSafety
  import opened Agreement

  /** `seeds` are the members' seeds. */
  ghost predicate Holds(s: Scheme, seeds: seq<Bytes32>, members: seq<Bytes32>) {
    |seeds| == |members| && forall i :: 0 <= i < |seeds| ==> members[i] == s.publicKey(seeds[i])
  }

  /** The votes that honest seats signed verify only on what those seats signed. */
  ghost predicate Binding(s: Scheme, seeds: seq<Bytes32>, faulty: set<nat>, history: nat -> set<Act>) {
    forall i: nat, slot: U32, c: WireCommand, m ::
      (i < |seeds| && i !in faulty && Voted(slot, c) in history(i)
        && s.verify(s.publicKey(seeds[i]), m, CastVote(s, seeds[i], slot, c).sig))
      ==> exists a: Act :: (a.Issued? || a in history(i)) && SignedBytes(a) == m
  }

  // ---------------------------------------------------------------------------
  // Certificates from backers
  // ---------------------------------------------------------------------------

  /** The votes of the seats of `q` below `n`. */
  ghost function VotesOf(s: Scheme, seeds: seq<Bytes32>, q: set<nat>, slot: U32, c: WireCommand, n: nat): seq<Vote>
    requires n <= |seeds|
  {
    if n == 0 then []
    else VotesOf(s, seeds, q, slot, c, n - 1) + if n - 1 in q then [CastVote(s, seeds[n - 1], slot, c)] else []
  }

  /** They are valid, and their signers are those seats. */
  lemma {:induction false} VotesOfValid(s: Scheme, seeds: seq<Bytes32>, roster: Roster, q: set<nat>, slot: U32,
      c: WireCommand, n: nat)
    requires Correct(s) && Holds(s, seeds, roster.members) && n <= |seeds|
    ensures var votes := VotesOf(s, seeds, q, slot, c, n);
      && (forall v :: v in votes ==> exists i: nat :: i < n && i in q && v == CastVote(s, seeds[i], slot, c))
      && (forall v :: v in votes ==> VerifyVote(s, v, slot, c, roster))
      && Signers(votes) == set i: nat | i < n && i in q :: roster.members[i]
  {
    hide VerifyVote, CastVote, Signers, Correct;
    var votes := VotesOf(s, seeds, q, slot, c, n);
    if n == 0 {
      NoSigners();
    } else {
      var m := n - 1;
      var fewer := VotesOf(s, seeds, q, slot, c, m);
      VotesOfValid(s, seeds, roster, q, slot, c, m);
      var ks := set i: nat | i < n && i in q :: roster.members[i];
      if m in q {
        CastValid(s, roster, seeds[m], slot, c);
        SignersPlus(fewer, CastVote(s, seeds[m], slot, c));
        assert ks == (set i: nat | i < m && i in q :: roster.members[i]) + {roster.members[m]};
      } else {
        assert votes == fewer;
        assert ks == set i: nat | i < m && i in q :: roster.members[i];
      }
    }
  }

  lemma CastValid(s: Scheme, roster: Roster, seed: Bytes32, slot: U32, cmd: WireCommand)
    requires Correct(s) && s.publicKey(seed) in roster.members
    ensures VerifyVote(s, CastVote(s, seed, slot, cmd), slot, cmd, roster)
    ensures CastVote(s, seed, slot, cmd).voter == s.publicKey(seed)
  {
    hide VoteMsg;
  }

  ghost function Certificate(s: Scheme, seeds: seq<Bytes32>, roster: Roster, faulty: set<nat>, history: nat -> set<Act>,
      slot: U32, c: WireCommand): Commitment {
    Commitment(slot, c, VotesOf(s, seeds, Backers(roster, faulty, history, slot, c), slot, c, |seeds|))
  }

  /** What is backed can be certified. */
  lemma {:induction false} BackedCertified(s: Scheme, seeds: seq<Bytes32>, roster: Roster, faulty: set<nat>,
                                           history: nat -> set<Act>, slot: U32, c: WireCommand)
    requires Correct(s) && Holds(s, seeds, roster.members) && Distinct(roster.members)
    requires Backed(roster, faulty, history, slot, c)
    ensures QcValid(s, Certificate(s, seeds, roster, faulty, history, slot, c).votes, slot, c, roster)
  {
    hide VerifyVote, CastVote, Correct, VotesOf, Distinct;
    var q := Backers(roster, faulty, history, slot, c);
    var ks := set i: nat | i < |seeds| && i in q :: roster.members[i];
    VotesOfValid(s, seeds, roster, q, slot, c, |seeds|);
    SeatsCard(roster.members, ks);
    KeysOfSeats(roster.members, q);
  }

  lemma KeysOfSeats(members: seq<Bytes32>, q: set<nat>)
    requires Distinct(members) && forall i :: i in q ==> i < |members|
    ensures SeatsOf(members, set i: nat | i < |members| && i in q :: members[i]) == q
  {
  }

  // ---------------------------------------------------------------------------
  // Votes that are not forged
  // ---------------------------------------------------------------------------

  /** `v` is what seat `i` casts, which it did if it is honest. */
  ghost predicate Cast(s: Scheme, seeds: seq<Bytes32>, faulty: set<nat>, history: nat -> set<Act>,
      v: Vote, i: nat, slot: U32, c: WireCommand) {
    i < |seeds| && v == CastVote(s, seeds[i], slot, c) && (i in faulty || Voted(slot, c) in history(i))
  }

  ghost predicate AllCast(s: Scheme, seeds: seq<Bytes32>, faulty: set<nat>, history: nat -> set<Act>, seen: set<Vote>) {
    forall v :: v in seen ==> exists i: nat, slot: U32, c: WireCommand :: Cast(s, seeds, faulty, history, v, i, slot, c)
  }

  lemma {:induction false} CastUnforged(s: Scheme, seeds: seq<Bytes32>, roster: Roster, faulty: set<nat>,
                                        history: nat -> set<Act>, seen: set<Vote>)
    requires Binding(s, seeds, faulty, history) && Holds(s, seeds, roster.members) && Distinct(roster.members)
    requires AllCast(s, seeds, faulty, history, seen)
    ensures Unforged(s, roster, faulty, history, seen)
  {
    hide VoteMsg;
    forall v, i: nat, m | v in seen && i < |roster.members| && i !in faulty && v.voter == roster.members[i]
      && s.verify(v.voter, m, v.sig)
      ensures exists a: Act :: (a.Issued? || a in history(i)) && SignedBytes(a) == m
    {
      var j: nat, slot: U32, c: WireCommand :| Cast(s, seeds, faulty, history, v, j, slot, c);
      assert roster.members[j] == s.publicKey(seeds[j]) == v.voter;
      assert j == i;
    }
  }

  // ---------------------------------------------------------------------------
  // The condition is exact
  // ---------------------------------------------------------------------------

  /** The commits of a log that is backed throughout. */
  ghost function Feed(s: Scheme, seeds: seq<Bytes32>, roster: Roster, faulty: set<nat>, history: nat -> set<Act>,
      log: seq<WireCommand>): seq<Event> {
    if log == [] then []
    else
      var k := |log| - 1;
      Feed(s, seeds, roster, faulty, history, log[..k])
        + [EDeliver(MCommit(Certificate(s, seeds, roster, faulty, history, k % TWO32, log[k])))]
  }

  ghost predicate FillableLog(roster: Roster, faulty: set<nat>, history: nat -> set<Act>, log: seq<WireCommand>) {
    forall i: nat :: i < |log| ==> Fillable(roster, faulty, history, i, log[i])
  }

  /** A follower fed them has that log. */
  lemma {:induction false} FeedRuns(s: Scheme, seeds: seq<Bytes32>, seat: Seat, init: Term, budget: FailureBudget,
                                    faulty: set<nat>, history: nat -> set<Act>, log: seq<WireCommand>)
    requires Correct(s) && Holds(s, seeds, seat.roster.members) && Distinct(seat.roster.members)
    requires FillableLog(seat.roster, faulty, history, log)
    ensures var es := Feed(s, seeds, seat.roster, faulty, history, log);
      && RunNode(s, seat, Initial(seat, init, budget), es).0.view.log == log
      && AllCast(s, seeds, faulty, history, SeenVotes(es))
  {
    hide Backed, Correct, Distinct, Holds, Certificate, QcValid, Cast, StepNode;
    if log != [] {
      var k := |log| - 1;
      var rest := Feed(s, seeds, seat.roster, faulty, history, log[..k]);
      var es := Feed(s, seeds, seat.roster, faulty, history, log);
      FeedRuns(s, seeds, seat, init, budget, faulty, history, log[..k]);
      assert es[..|es| - 1] == rest;
      assert Fillable(seat.roster, faulty, history, k, log[k]);
      var w := Certificate(s, seeds, seat.roster, faulty, history, k % TWO32, log[k]);
      BackedCertified(s, seeds, seat.roster, faulty, history, k % TWO32, log[k]);
      CertificateCast(s, seeds, seat.roster, faulty, history, k % TWO32, log[k]);
      Accepts(s, seat, RunNode(s, seat, Initial(seat, init, budget), rest).0, w);
      SeenMore(es, w);
    }
  }

  lemma SeenMore(es: seq<Event>, w: Commitment)
    requires es != [] && es[|es| - 1] == EDeliver(MCommit(w))
    ensures SeenVotes(es) == SeenVotes(es[..|es| - 1]) + set v | v in w.votes
  {
    var a, b := set i | 0 <= i < |w.votes| :: w.votes[i], set v | v in w.votes;
    assert a == b;
  }

  lemma Accepts(s: Scheme, seat: Seat, st: State, w: Commitment)
    requires Shaped(seat, st) && w.slot == st.NextSlot() && QcValid(s, w.votes, w.slot, w.cmd, seat.roster)
    ensures StepNode(s, seat, st, EDeliver(MCommit(w))).0.view.log == st.view.log + [w.cmd]
  {
    hide QcValid;
    CommitGrows(st.view, w.cmd);
  }

  lemma CertificateCast(s: Scheme, seeds: seq<Bytes32>, roster: Roster, faulty: set<nat>, history: nat -> set<Act>,
                        slot: U32, c: WireCommand)
    requires Correct(s) && Holds(s, seeds, roster.members)
    ensures var w := Certificate(s, seeds, roster, faulty, history, slot, c);
      && w.slot == slot && w.cmd == c
      && forall v :: v in w.votes ==> exists i: nat :: Cast(s, seeds, faulty, history, v, i, slot, c)
  {
    hide VerifyVote, CastVote, Correct, VotesOf, Signers;
    var q := Backers(roster, faulty, history, slot, c);
    VotesOfValid(s, seeds, roster, q, slot, c, |seeds|);
    forall v | v in VotesOf(s, seeds, q, slot, c, |seeds|)
      ensures exists i: nat :: Cast(s, seeds, faulty, history, v, i, slot, c)
    {
      var i: nat :| i < |seeds| && i in q && v == CastVote(s, seeds[i], slot, c);
      assert Cast(s, seeds, faulty, history, v, i, slot, c);
    }
  }

  /** Followers `a` and `b` agree, whatever they are fed without forged votes, as long as their
      logs are shorter than 2^32. */
  ghost predicate AlwaysAgree(s: Scheme, a: Seat, b: Seat, init: Term, budget: FailureBudget,
      faulty: set<nat>, history: nat -> set<Act>) {
    forall es, fs ::
      FedFairly(s, a, init, budget, faulty, history, es) && FedFairly(s, b, init, budget, faulty, history, fs) ==>
      LogsAgree(RunNode(s, a, Initial(a, init, budget), es).0.view, RunNode(s, b, Initial(b, init, budget), fs).0.view)
  }

  ghost predicate FedFairly(s: Scheme, seat: Seat, init: Term, budget: FailureBudget,
      faulty: set<nat>, history: nat -> set<Act>, es: seq<Event>) {
    && Unforged(s, seat.roster, faulty, history, SeenVotes(es))
    && |RunNode(s, seat, Initial(seat, init, budget), es).0.view.log| < TWO32
  }

  /** The exact condition of agreement: given what every honest seat signed, two followers agree
      whatever they are fed if and only if no position that a log can fill is contested. */
  lemma {:induction false} AgreementExactly(
      s: Scheme, seeds: seq<Bytes32>, a: Seat, b: Seat, init: Term, budget: FailureBudget,
      faulty: set<nat>, history: nat -> set<Act>)
    requires Correct(s) && Binding(s, seeds, faulty, history)
    requires Holds(s, seeds, a.roster.members) && Distinct(a.roster.members)
    requires !a.IsLeader() && !b.IsLeader() && a.roster == b.roster
    ensures AlwaysAgree(s, a, b, init, budget, faulty, history) <==>
      Uncontested(a.roster, faulty, history, TWO32 - 1)
  {
    hide Unforged, LogsAgree, Contested, Distinct, Correct, Binding, Holds, RunNode, Fillable;
    var n: nat := TWO32 - 1;
    if Uncontested(a.roster, faulty, history, n) {
      forall es, fs |
        FedFairly(s, a, init, budget, faulty, history, es) && FedFairly(s, b, init, budget, faulty, history, fs)
        ensures LogsAgree(RunNode(s, a, Initial(a, init, budget), es).0.view,
                          RunNode(s, b, Initial(b, init, budget), fs).0.view)
      {
        UncontestedAgreement(s, a, b, init, budget, es, fs, faulty, history, n);
      }
    } else {
      var k: nat :| k < n && Contested(a.roster, faulty, history, k);
      ContestedDisagree(s, seeds, a, b, init, budget, faulty, history, k);
    }
  }

  lemma {:induction false} ContestedDisagree(
      s: Scheme, seeds: seq<Bytes32>, a: Seat, b: Seat, init: Term, budget: FailureBudget,
      faulty: set<nat>, history: nat -> set<Act>, k: nat)
    requires Correct(s) && Binding(s, seeds, faulty, history)
    requires Holds(s, seeds, a.roster.members) && Distinct(a.roster.members)
    requires a.roster == b.roster && Contested(a.roster, faulty, history, k) && k + 1 < TWO32
    ensures !AlwaysAgree(s, a, b, init, budget, faulty, history)
  {
    hide Unforged, Distinct, Correct, Binding, Holds, RunNode, Fillable, SomeFillable, Feed, SeenVotes, AllCast;
    var c: WireCommand, d: WireCommand :|
      c != d && Fillable(a.roster, faulty, history, k, c) && Fillable(a.roster, faulty, history, k, d);
    var log := LogTo(a.roster, faulty, history, k);
    var es := Feed(s, seeds, a.roster, faulty, history, log + [c]);
    var fs := Feed(s, seeds, a.roster, faulty, history, log + [d]);
    FeedRuns(s, seeds, a, init, budget, faulty, history, log + [c]);
    FeedRuns(s, seeds, b, init, budget, faulty, history, log + [d]);
    CastUnforged(s, seeds, a.roster, faulty, history, SeenVotes(es));
    CastUnforged(s, seeds, a.roster, faulty, history, SeenVotes(fs));
    var x := RunNode(s, a, Initial(a, init, budget), es).0.view;
    var y := RunNode(s, b, Initial(b, init, budget), fs).0.view;
    assert x.log[k] == c && y.log[k] == d;
    assert !LogsAgree(x, y);
  }

  /** A log that fills the positions below `k`. */
  lemma {:induction false} LogTo(roster: Roster, faulty: set<nat>, history: nat -> set<Act>,
      k: nat) returns (log: seq<WireCommand>)
    requires forall j: nat :: j < k ==> SomeFillable(roster, faulty, history, j)
    ensures |log| == k && FillableLog(roster, faulty, history, log)
  {
    hide Fillable;
    log := [];
    while |log| < k
      invariant |log| <= k && FillableLog(roster, faulty, history, log)
    {
      assert SomeFillable(roster, faulty, history, |log|);
      var c: WireCommand :| Fillable(roster, faulty, history, |log|, c);
      log := log + [c];
    }
  }

  // ---------------------------------------------------------------------------
  // One faulty seat of four
  // ---------------------------------------------------------------------------

  /** Two proposals for the next slot, and a commit there: a follower votes for both proposals,
      and appends what is committed. */
  lemma {:induction false} HandedBoth(s: Scheme, seat: Seat, st: State, p: Proposal, q: Proposal, w: Commitment)
    requires Shaped(seat, st) && p.slot == q.slot == w.slot == st.NextSlot()
    requires VerifyProposal(s, p, seat.roster) && VerifyProposal(s, q, seat.roster)
    requires QcValid(s, w.votes, w.slot, w.cmd, seat.roster)
    ensures var es := [EDeliver(MPropose(p)), EDeliver(MPropose(q)), EDeliver(MCommit(w))];
      && Acts(s, seat, st, es) == {Voted(p.slot, p.cmd), Voted(p.slot, q.cmd)}
      && RunNode(s, seat, st, es).0.view.log == st.view.log + [w.cmd]
  {
    hide VerifyProposal, QcValid, CastVote;
    var es := [EDeliver(MPropose(p)), EDeliver(MPropose(q)), EDeliver(MCommit(w))];
    VotesForEveryProposal(s, seat, st, p, q);
    assert es[..2] == [EDeliver(MPropose(p)), EDeliver(MPropose(q))] && es[..2][..1] == es[..1] && es[..1][..0] == [];
    assert RunNode(s, seat, st, es[..1]).0 == st;
    assert RunNode(s, seat, st, es[..2]).0 == st;
    Accepts(s, seat, st, w);
  }

  /** The committee of four that `seeds` make, with the two-thirds threshold; seat 0 leads. */
  ghost function Four(s: Scheme, seeds: seq<Bytes32>): Roster
    requires |seeds| == 4
  {
    Roster([s.publicKey(seeds[0]), s.publicKey(seeds[1]), s.publicKey(seeds[2]), s.publicKey(seeds[3])], Byzantine)
  }

  /** What seat 3 has the others handed: its proposals of `c` and of `d` for slot 0, and a commit
      of `e` with the votes of seats 0 to 2. */
  ghost function Handed(s: Scheme, seeds: seq<Bytes32>, c: WireCommand, capC: Capability, d: WireCommand,
      capD: Capability,
      e: WireCommand): seq<Event>
    requires |seeds| == 4
  {
    [EDeliver(MPropose(Propose(s, seeds[3], 0, c, capC))), EDeliver(MPropose(Propose(s, seeds[3], 0, d, capD))),
     EDeliver(MCommit(Commitment(0, e, VotesOf(s, seeds, {0, 1, 2}, 0, e, 4))))]
  }

  /** One vote per slot is not kept by this code, and agreement fails without it: with one faulty
      seat of four under the two-thirds threshold, an honest leader, and every vote in the
      certificates cast by an honest seat that signed it in its run, follower 1 ends with the
      log `[c]` and follower 2 with `[d]`. */
  lemma {:induction false} OneFaultySplits(
      s: Scheme, seeds: seq<Bytes32>, init: Term, budget: FailureBudget,
      c: WireCommand, capC: Capability, d: WireCommand, capD: Capability, i: U32)
    requires Correct(s) && |seeds| == 4 && Distinct(Four(s, seeds).members) && i < 3
    requires c != d && VerifyCapability(s, capC, c) && VerifyCapability(s, capD, d)
    ensures Tolerates(Four(s, seeds), {3})
    ensures var seat1, seat2 := Seat(seeds[1], Four(s, seeds), 1, 0), Seat(seeds[2], Four(s, seeds), 2, 0);
      && RunNode(s, seat1, Initial(seat1, init, budget), Handed(s, seeds, c, capC, d, capD, c)).0.view.log == [c]
      && RunNode(s, seat2, Initial(seat2, init, budget), Handed(s, seeds, c, capC, d, capD, d)).0.view.log == [d]
    ensures var seat := Seat(seeds[i], Four(s, seeds), i, 0);
      forall e :: e == c || e == d ==>
        && Acts(s, seat, Initial(seat, init, budget), Handed(s, seeds, c, capC, d, capD, e))
          == {Voted(0, c), Voted(0, d)}
        && forall v :: v in VotesOf(s, seeds, {0, 1, 2}, 0, e, 4) ==>
             exists j: nat :: j < 3 && v == CastVote(s, seeds[j], 0, e)
  {
    hide VerifyProposal, VerifyCapability, QcValid, CastVote, Propose, VotesOf, Correct, Acts, RunNode;
    ThreeOfFour(s, seeds, c);
    ThreeOfFour(s, seeds, d);
    Proposable(s, seeds, c, capC);
    Proposable(s, seeds, d, capD);
    var p, q := Propose(s, seeds[3], 0, c, capC), Propose(s, seeds[3], 0, d, capD);
    var wc := Commitment(0, c, VotesOf(s, seeds, {0, 1, 2}, 0, c, 4));
    var wd := Commitment(0, d, VotesOf(s, seeds, {0, 1, 2}, 0, d, 4));
    var seat, seat1 := Seat(seeds[i], Four(s, seeds), i, 0), Seat(seeds[1], Four(s, seeds), 1, 0);
    var seat2 := Seat(seeds[2], Four(s, seeds), 2, 0);
    HandedBoth(s, seat1, Initial(seat1, init, budget), p, q, wc);
    HandedBoth(s, seat2, Initial(seat2, init, budget), p, q, wd);
    HandedBoth(s, seat, Initial(seat, init, budget), p, q, wc);
    HandedBoth(s, seat, Initial(seat, init, budget), p, q, wd);
  }

  lemma Proposable(s: Scheme, seeds: seq<Bytes32>, c: WireCommand, cap: Capability)
    requires Correct(s) && |seeds| == 4 && VerifyCapability(s, cap, c)
    ensures var p := Propose(s, seeds[3], 0, c, cap);
      VerifyProposal(s, p, Four(s, seeds)) && p.slot == 0 && p.cmd == c
  {
    hide ProposeMsg, VerifyCapability;
    assert Four(s, seeds).members[3] == s.publicKey(seeds[3]);
  }

  lemma ThreeOfFour(s: Scheme, seeds: seq<Bytes32>, c: WireCommand)
    requires Correct(s) && |seeds| == 4 && Distinct(Four(s, seeds).members)
    ensures var votes := VotesOf(s, seeds, {0, 1, 2}, 0, c, 4);
      && QcValid(s, votes, 0, c, Four(s, seeds))
      && forall v :: v in votes ==> exists j: nat :: j < 3 && v == CastVote(s, seeds[j], 0, c)
  {
    hide VerifyVote, CastVote, Correct, VotesOf, Signers;
    var roster, q: set<nat> := Four(s, seeds), {0, 1, 2};
    VotesOfValid(s, seeds, roster, q, 0, c, 4);
    var ks := set i: nat | i < 4 && i in q :: roster.members[i];
    SeatsCard(roster.members, ks);
    KeysOfSeats(roster.members, q);
  }
}
