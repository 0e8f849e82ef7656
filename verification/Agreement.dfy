/** Agreement of commit streams under Byzantine faults. */
module Agreement {
  import opened Syntax
  import opened Rsm
  import opened Consensus
  import opened Proto
  import opened Auth
  import opened AuthSafety

  // ---------------------------------------------------------------------------
  // What a node signs and what it has seen
  // ---------------------------------------------------------------------------

  /** What a node signs in one call. */
  ghost function StepActs(s: Scheme, seat: Seat, st: State, e: Event): set<Act>
  {
    match e
    case ESubmit(cmd, cap) =>
      if seat.IsLeader() && st.proposing.None? && VerifyCapability(s, cap, cmd)
      then {Proposed(st.NextSlot(), cmd), Voted(st.NextSlot(), cmd)} else {}
    case EDeliver(MPropose(p)) =>
      if p.slot == st.NextSlot() && VerifyProposal(s, p, seat.roster) then {Voted(p.slot, p.cmd)} else {}
    case EDeliver(_) => {}
  }

  ghost function Acts(s: Scheme, seat: Seat, st: State, es: seq<Event>): set<Act>
    requires Shaped(seat, st)
  {
    if es == [] then {}
    else
      Acts(s, seat, st, es[..|es| - 1]) + StepActs(s, seat, RunNode(s, seat, st, es[..|es| - 1]).0, es[|es| - 1])
  }

  /** The votes in the commits delivered to a node. */
  ghost function SeenVotes(es: seq<Event>): set<Vote> {
    if es == [] then {}
    else SeenVotes(es[..|es| - 1]) + (match es[|es| - 1]
      case EDeliver(MCommit(c)) => set i | 0 <= i < |c.votes| :: c.votes[i]
      case _ => {})
  }

  /** Everything a node sends under its own key is an act of its. */
  lemma SentIsSigned(s: Scheme, seat: Seat, st: State, e: Event)
    requires Shaped(seat, st)
    ensures forall i :: 0 <= i < |StepNode(s, seat, st, e).1| ==>
      match StepNode(s, seat, st, e).1[i].msg
      case MPropose(p) => Proposed(p.slot, p.cmd) in StepActs(s, seat, st, e)
        && (exists cap :: p == Propose(s, seat.seed, p.slot, p.cmd, cap))
      case MVote(v) =>
        exists cmd :: v == CastVote(s, seat.seed, v.slot, cmd) && Voted(v.slot, cmd) in StepActs(s, seat, st, e)
      case MCommit(_) => true
  {
  }

  // ---------------------------------------------------------------------------
  // A follower's log
  // ---------------------------------------------------------------------------

  /** `c` carries a valid certificate for `slot`, made of votes in `seen`. */
  ghost predicate Certified(s: Scheme, roster: Roster, slot: U32, c: Command, seen: set<Vote>) {
    Wire.Encodable(c.payload) && exists votes ::
      QcValid(s, votes, slot, c, roster) && forall i :: 0 <= i < |votes| ==> votes[i] in seen
  }

  /** A non-leader's log: every entry is certified for its slot, and the store is the
      meaning of the log. */
  ghost predicate LogCertified(s: Scheme, seat: Seat, st: State, init: Term, seen: set<Vote>) {
    && st.proposing.None?
    && Consistent(st.view, init)
    && forall i :: 0 <= i < |st.view.log| ==> Certified(s, seat.roster, i % TWO32, st.view.log[i], seen)
  }

  lemma {:induction false} FollowerLog(s: Scheme, seat: Seat, init: Term, budget: FailureBudget, es: seq<Event>)
    requires !seat.IsLeader()
    ensures LogCertified(s, seat, RunNode(s, seat, Initial(seat, init, budget), es).0, init, SeenVotes(es))
  {
    hide Certified, StepNode;
    if es != [] {
      var n := |es| - 1;
      FollowerLog(s, seat, init, budget, es[..n]);
      FollowerStep(s, seat, RunNode(s, seat, Initial(seat, init, budget), es[..n]).0, init, SeenVotes(es[..n]), es[n]);
      CertifiedMore(s, seat, RunNode(s, seat, Initial(seat, init, budget), es).0, init,
        SeenVotes(es[..n]) + StepVotes(es[n]), SeenVotes(es));
    }
  }

  ghost function StepVotes(e: Event): set<Vote> {
    match e
    case EDeliver(MCommit(c)) => set i | 0 <= i < |c.votes| :: c.votes[i]
    case _ => {}
  }

  lemma {:induction false} FollowerStep(s: Scheme, seat: Seat, st: State, init: Term, seen: set<Vote>, e: Event)
    requires !seat.IsLeader() && Shaped(seat, st) && LogCertified(s, seat, st, init, seen)
    ensures LogCertified(s, seat, StepNode(s, seat, st, e).0, init, seen + StepVotes(e))
  {
    hide Certified, QcValid, Consistent, Deliver;
    var next := StepNode(s, seat, st, e).0;
    CertifiedMore(s, seat, st, init, seen, seen + StepVotes(e));
    if e.EDeliver? && e.msg.MCommit? && next != st {
      var c := e.msg.c;
      CommitConsistent(st.view, init, c.cmd);
      StepConsistent(Commit(st.view, c.cmd), init);
      FreshCertified(s, seat.roster, c, seen + StepVotes(e));
    }
  }

  lemma FreshCertified(s: Scheme, roster: Roster, c: Commitment, seen: set<Vote>)
    requires QcValid(s, c.votes, c.slot, c.cmd, roster)
    requires forall i :: 0 <= i < |c.votes| ==> c.votes[i] in seen
    ensures Certified(s, roster, c.slot, c.cmd, seen)
  {
    hide QcValid;
  }

  lemma CertifiedMore(s: Scheme, seat: Seat, st: State, init: Term, seen: set<Vote>, more: set<Vote>)
    requires LogCertified(s, seat, st, init, seen) && seen <= more
    ensures LogCertified(s, seat, st, init, more)
  {
  }

  // ---------------------------------------------------------------------------
  // Agreement
  // ---------------------------------------------------------------------------

  /** No forged votes: every signature of an honest seat on a vote that was seen is on something
      the seat signed, where `history(i)` is everything seat `i` signed besides capabilities,
      which it may have issued at will. */
  ghost predicate Unforged(s: Scheme, roster: Roster, faulty: set<nat>, history: nat -> set<Act>, seen: set<Vote>) {
    forall v, i: nat, m ::
      (v in seen && i < |roster.members| && i !in faulty && v.voter == roster.members[i] && s.verify(v.voter, m, v.sig))
      ==> exists a: Act :: (a.Issued? || a in history(i)) && SignedBytes(a) == m
  }

  /** One vote per slot. */
  ghost predicate OneVote(acts: set<Act>) {
    forall slot: U32, c: WireCommand, d: WireCommand :: Voted(slot, c) in acts && Voted(slot, d) in acts ==> c == d
  }

  /** Honest seats vote for at most one command per slot. */
  ghost predicate VotesOnce(n: nat, faulty: set<nat>, history: nat -> set<Act>) {
    forall i: nat :: i < n && i !in faulty ==> OneVote(history(i))
  }

  /** The faults a roster's threshold tolerates: up to a third of the seats under the
      Byzantine one; none that equivocate under the crash one. */
  ghost predicate Tolerates(roster: Roster, faulty: set<nat>) {
    match roster.quorum
    case Crash => faulty == {}
    case Byzantine => 3 * |faulty| <= |roster.members|
  }

  lemma VoteIsAct(a: Act, slot: U32, c: WireCommand)
    requires SignedBytes(a) == VoteMsg(slot, c)
    ensures a == Voted(slot, c)
  {
    hide VoteMsg, CapMsg, ProposeMsg;
    Unambiguous(a, Voted(slot, c));
  }

  /** An honest seat whose vote is in a certificate for a command voted for that command. */
  lemma {:induction false} HonestVoted(s: Scheme, roster: Roster, faulty: set<nat>, history: nat -> set<Act>,
                                       seen: set<Vote>, votes: seq<Vote>, slot: U32, c: WireCommand, i: nat)
    requires Unforged(s, roster, faulty, history, seen) && QcValid(s, votes, slot, c, roster)
    requires forall j :: 0 <= j < |votes| ==> votes[j] in seen
    requires i in SeatsOf(roster.members, Signers(votes)) && i !in faulty
    ensures Voted(slot, c) in history(i)
  {
    hide VoteMsg, CmdBytes;
    var j :| 0 <= j < |votes| && votes[j].voter == roster.members[i];
    assert VerifyVote(s, votes[j], slot, c, roster) && votes[j] in seen;
    var a: Act :| (a.Issued? || a in history(i)) && SignedBytes(a) == VoteMsg(slot, c);
    VoteIsAct(a, slot, c);
  }

  lemma CertificateSeats(s: Scheme, roster: Roster, votes: seq<Vote>, slot: U32, c: WireCommand)
    requires QcValid(s, votes, slot, c, roster) && Distinct(roster.members)
    ensures var q := SeatsOf(roster.members, Signers(votes));
      q <= Seats(|roster.members|) && roster.quorum.Reached(|q|, |roster.members|)
  {
    assert forall i :: 0 <= i < |votes| ==> VerifyVote(s, votes[i], slot, c, roster);
    SeatsCard(roster.members, Signers(votes));
  }

  // ---------------------------------------------------------------------------
  // Contested slots
  // ---------------------------------------------------------------------------

  /** The seats whose votes for `c` at `slot` can exist: the honest ones that voted for it, and
      the faulty ones, which may. */
  ghost function Backers(roster: Roster, faulty: set<nat>, history: nat -> set<Act>, slot: U32,
      c: WireCommand): set<nat> {
    set i: nat | i < |roster.members| && (i in faulty || Voted(slot, c) in history(i))
  }

  /** They are enough for a certificate. */
  ghost predicate Backed(roster: Roster, faulty: set<nat>, history: nat -> set<Act>, slot: U32, c: WireCommand) {
    roster.quorum.Reached(|Backers(roster, faulty, history, slot, c)|, |roster.members|)
  }

  /** Log position `k`, whose slot is the low 32 bits of `k`, can be filled with `c`. */
  ghost predicate Fillable(roster: Roster, faulty: set<nat>, history: nat -> set<Act>, k: nat, c: WireCommand) {
    Backed(roster, faulty, history, k % TWO32, c)
  }

  ghost predicate SomeFillable(roster: Roster, faulty: set<nat>, history: nat -> set<Act>, k: nat) {
    exists c: WireCommand :: Fillable(roster, faulty, history, k, c)
  }

  /** Position `k` can be reached, and filled with either of two commands. */
  ghost predicate Contested(roster: Roster, faulty: set<nat>, history: nat -> set<Act>, k: nat) {
    && (forall j: nat :: j < k ==> SomeFillable(roster, faulty, history, j))
    && exists c: WireCommand, d: WireCommand ::
         c != d && Fillable(roster, faulty, history, k, c) && Fillable(roster, faulty, history, k, d)
  }

  /** No position below `n` is contested. */
  ghost predicate Uncontested(roster: Roster, faulty: set<nat>, history: nat -> set<Act>, n: nat) {
    forall k: nat :: k < n ==> !Contested(roster, faulty, history, k)
  }

  /** What is certified is backed. */
  lemma {:induction false} CertifiedBacked(s: Scheme, roster: Roster, faulty: set<nat>, history: nat -> set<Act>,
                                           seen: set<Vote>, slot: U32, c: Command)
    requires Distinct(roster.members) && Unforged(s, roster, faulty, history, seen)
    requires Certified(s, roster, slot, c, seen)
    ensures Wire.Encodable(c.payload) && Backed(roster, faulty, history, slot, c)
  {
    hide QcValid, Unforged, Distinct, SeatsOf;
    var votes :| QcValid(s, votes, slot, c, roster) && forall i :: 0 <= i < |votes| ==> votes[i] in seen;
    CertificateSeats(s, roster, votes, slot, c);
    var q := SeatsOf(roster.members, Signers(votes));
    forall i | i in q
      ensures i in Backers(roster, faulty, history, slot, c)
    {
      if i !in faulty { HonestVoted(s, roster, faulty, history, seen, votes, slot, c, i); }
    }
    SubsetCard(q, Backers(roster, faulty, history, slot, c));
  }

  /** With tolerable faults and one vote per honest seat, one command at most is backed. */
  lemma {:induction false} OneBacked(roster: Roster, faulty: set<nat>, history: nat -> set<Act>,
                                     slot: U32, c: WireCommand, d: WireCommand)
    requires Tolerates(roster, faulty) && VotesOnce(|roster.members|, faulty, history)
    requires Backed(roster, faulty, history, slot, c) && Backed(roster, faulty, history, slot, d)
    ensures c == d
  {
    var a, b := Backers(roster, faulty, history, slot, c), Backers(roster, faulty, history, slot, d);
    QuorumsIntersect(a, b, |roster.members|);
    assert a * b - faulty != {};
    var i :| i in a * b - faulty;
  }

  /** Two certificates for one slot certify one command. */
  lemma {:induction false} NoConflict(s: Scheme, roster: Roster, faulty: set<nat>, history: nat -> set<Act>,
                                      seenA: set<Vote>, seenB: set<Vote>, slot: U32, c: Command, d: Command)
    requires Distinct(roster.members) && Tolerates(roster, faulty)
    requires Unforged(s, roster, faulty, history, seenA) && Unforged(s, roster, faulty, history, seenB)
    requires VotesOnce(|roster.members|, faulty, history)
    requires Certified(s, roster, slot, c, seenA) && Certified(s, roster, slot, d, seenB)
    ensures c == d
  {
    hide Certified, Unforged, Distinct, Backed, Tolerates, VotesOnce;
    CertifiedBacked(s, roster, faulty, history, seenA, slot, c);
    CertifiedBacked(s, roster, faulty, history, seenB, slot, d);
    OneBacked(roster, faulty, history, slot, c, d);
  }

  // ---------------------------------------------------------------------------
  // Agreement of logs
  // ---------------------------------------------------------------------------

  /** The logs agree on their common length, and the stores do when the lengths are equal. */
  ghost predicate LogsAgree(x: GlobalConfig, y: GlobalConfig)
    requires CaughtUp(x) && CaughtUp(y)
  {
    && (forall i :: 0 <= i < |x.log| && i < |y.log| ==> x.log[i] == y.log[i])
    && (|x.log| == |y.log| ==> x.log == y.log && x.replicas[0].store == y.replicas[0].store)
  }

  /** Two non-leader nodes fed any messages without forged votes agree, if no position of the
      shorter log is contested. */
  lemma {:induction false} UncontestedAgreement(
      s: Scheme, a: Seat, b: Seat, init: Term, budget: FailureBudget, es: seq<Event>, fs: seq<Event>,
      faulty: set<nat>, history: nat -> set<Act>, n: nat)
    requires !a.IsLeader() && !b.IsLeader() && a.roster == b.roster
    requires Distinct(a.roster.members) && Uncontested(a.roster, faulty, history, n)
    requires Unforged(s, a.roster, faulty, history, SeenVotes(es))
    requires Unforged(s, a.roster, faulty, history, SeenVotes(fs))
    requires || |RunNode(s, a, Initial(a, init, budget), es).0.view.log| <= n
             || |RunNode(s, b, Initial(b, init, budget), fs).0.view.log| <= n
    ensures var x := RunNode(s, a, Initial(a, init, budget), es).0.view;
      var y := RunNode(s, b, Initial(b, init, budget), fs).0.view;
      LogsAgree(x, y) && x.replicas[0].store == Applied(init, x.log)
  {
    hide *;
    RunShaped(s, a, init, budget, es);
    RunShaped(s, b, init, budget, fs);
    var st, su := RunNode(s, a, Initial(a, init, budget), es).0, RunNode(s, b, Initial(b, init, budget), fs).0;
    FollowerLog(s, a, init, budget, es);
    FollowerLog(s, b, init, budget, fs);
    LogBacked(s, a, st, init, faulty, history, SeenVotes(es));
    LogBacked(s, b, su, init, faulty, history, SeenVotes(fs));
    BackedAgree(a.roster, faulty, history, st.view.log, su.view.log, n);
    StoresAgree(st.view, su.view);
  }

  lemma RunShaped(s: Scheme, seat: Seat, init: Term, budget: FailureBudget, es: seq<Event>)
    ensures Shaped(seat, Initial(seat, init, budget))
    ensures CaughtUp(RunNode(s, seat, Initial(seat, init, budget), es).0.view)
  {
    hide StepNode;
  }

  ghost predicate BackedThroughout(roster: Roster, faulty: set<nat>, history: nat -> set<Act>, log: seq<Command>) {
    forall i: nat :: i < |log| ==> Wire.Encodable(log[i].payload) && Fillable(roster, faulty, history, i, log[i])
  }

  /** Every entry of a follower's log is backed, and its store is the meaning of its log. */
  lemma {:induction false} LogBacked(s: Scheme, seat: Seat, st: State, init: Term,
                                     faulty: set<nat>, history: nat -> set<Act>, seen: set<Vote>)
    requires LogCertified(s, seat, st, init, seen) && CaughtUp(st.view)
    requires Distinct(seat.roster.members) && Unforged(s, seat.roster, faulty, history, seen)
    ensures BackedThroughout(seat.roster, faulty, history, st.view.log)
    ensures st.view.replicas[0].store == Applied(init, st.view.log)
  {
    hide Unforged, Certified, Distinct, Backed, Consistent;
    StoreOf(st.view, init);
    forall i: nat | i < |st.view.log|
      ensures Wire.Encodable(st.view.log[i].payload) && Fillable(seat.roster, faulty, history, i, st.view.log[i])
    {
      assert Certified(s, seat.roster, i % TWO32, st.view.log[i], seen);
      CertifiedBacked(s, seat.roster, faulty, history, seen, i % TWO32, st.view.log[i]);
    }
  }

  lemma {:induction false} BackedAgree(roster: Roster, faulty: set<nat>, history: nat -> set<Act>, x: seq<Command>,
      y: seq<Command>, n: nat)
    requires Uncontested(roster, faulty, history, n) && (|x| <= n || |y| <= n)
    requires BackedThroughout(roster, faulty, history, x) && BackedThroughout(roster, faulty, history, y)
    ensures forall i :: 0 <= i < |x| && i < |y| ==> x[i] == y[i]
  {
    hide Fillable;
    forall i: nat | i < |x| && i < |y|
      ensures x[i] == y[i]
    {
      assert Fillable(roster, faulty, history, i, x[i]) && Fillable(roster, faulty, history, i, y[i]);
      forall j: nat | j < i
        ensures SomeFillable(roster, faulty, history, j)
      {
        assert Fillable(roster, faulty, history, j, x[j]);
      }
      assert !Contested(roster, faulty, history, i);
    }
  }

  lemma StoresAgree(x: GlobalConfig, y: GlobalConfig)
    requires CaughtUp(x) && CaughtUp(y)
    requires forall i :: 0 <= i < |x.log| && i < |y.log| ==> x.log[i] == y.log[i]
    requires |x.log| == |y.log| && x.log == y.log ==> x.replicas[0].store == y.replicas[0].store
    ensures LogsAgree(x, y)
  {
  }

  lemma {:induction false} OneVoteUncontested(roster: Roster, faulty: set<nat>, history: nat -> set<Act>, n: nat)
    requires Tolerates(roster, faulty) && VotesOnce(|roster.members|, faulty, history)
    ensures Uncontested(roster, faulty, history, n)
  {
    hide Tolerates, VotesOnce, Backed;
    forall k: nat, c: WireCommand, d: WireCommand |
      Fillable(roster, faulty, history, k, c) && Fillable(roster, faulty, history, k, d)
      ensures c == d
    {
      OneBacked(roster, faulty, history, k % TWO32, c, d);
    }
  }

  /** Byzantine agreement: on a roster whose threshold tolerates the faulty seats (a third of
      them, under the two-thirds threshold), where honest seats vote at most once per slot and
      their signatures are not forged, two non-leader nodes fed any messages whatever have logs
      that agree on their common length, and equal stores when the lengths are equal. */
  lemma {:induction false} ByzantineAgreement(
      s: Scheme, a: Seat, b: Seat, init: Term, budget: FailureBudget, es: seq<Event>, fs: seq<Event>,
      faulty: set<nat>, history: nat -> set<Act>)
    requires !a.IsLeader() && !b.IsLeader() && a.roster == b.roster
    requires Distinct(a.roster.members) && Tolerates(a.roster, faulty)
    requires VotesOnce(|a.roster.members|, faulty, history)
    requires Unforged(s, a.roster, faulty, history, SeenVotes(es))
    requires Unforged(s, a.roster, faulty, history, SeenVotes(fs))
    ensures var x := RunNode(s, a, Initial(a, init, budget), es).0.view;
      var y := RunNode(s, b, Initial(b, init, budget), fs).0.view;
      LogsAgree(x, y) && x.replicas[0].store == Applied(init, x.log)
  {
    hide *;
    RunShaped(s, a, init, budget, es);
    var n := |RunNode(s, a, Initial(a, init, budget), es).0.view.log|;
    OneVoteUncontested(a.roster, faulty, history, n);
    UncontestedAgreement(s, a, b, init, budget, es, fs, faulty, history, n);
  }

  // ---------------------------------------------------------------------------
  // Committees that run this code
  // ---------------------------------------------------------------------------

  /** The proposal a node votes for in one call, if any: its own when it takes up a submission,
      or an acceptable one that it is handed for its next slot. */
  ghost function Taken(s: Scheme, seat: Seat, st: State, e: Event): Option<(U32, WireCommand)> {
    match e
    case ESubmit(cmd, _) => if TakesUp(s, seat, st, e) then Some((st.NextSlot(), cmd)) else None
    case EDeliver(MPropose(p)) =>
      if p.slot == st.NextSlot() && VerifyProposal(s, p, seat.roster) then Some((p.slot, p.cmd)) else None
    case EDeliver(_) => None
  }

  ghost function TakenAt(s: Scheme, seat: Seat, st: State, es: seq<Event>, k: nat): Option<(U32, WireCommand)>
    requires Shaped(seat, st) && k < |es|
  {
    Taken(s, seat, RunNode(s, seat, st, es[..k]).0, es[k])
  }

  /** Over a run, a node signs votes for exactly the proposals it takes. */
  lemma {:induction false} VotedTaken(s: Scheme, seat: Seat, st: State, es: seq<Event>, slot: U32, c: WireCommand)
    requires Shaped(seat, st)
    ensures Voted(slot, c) in Acts(s, seat, st, es) <==>
      exists k: nat :: k < |es| && TakenAt(s, seat, st, es, k) == Some((slot, c))
  {
    hide RunNode, VerifyProposal, VerifyCapability;
    if es != [] {
      var n := |es| - 1;
      VotedTaken(s, seat, st, es[..n], slot, c);
      forall k: nat | k < n
        ensures TakenAt(s, seat, st, es, k) == TakenAt(s, seat, st, es[..n], k)
      {
        assert es[..n][..k] == es[..k];
      }
      assert Voted(slot, c) in StepActs(s, seat, RunNode(s, seat, st, es[..n]).0, es[n])
        <==> TakenAt(s, seat, st, es, n) == Some((slot, c));
    }
  }

  /** Events `j` and `k` make the node take proposals for one slot. */
  ghost predicate SameSlot(s: Scheme, seat: Seat, st: State, es: seq<Event>, j: nat, k: nat)
    requires Shaped(seat, st)
  {
    && j < |es| && k < |es| && TakenAt(s, seat, st, es, j).Some? && TakenAt(s, seat, st, es, k).Some?
    && TakenAt(s, seat, st, es, j).value.0 == TakenAt(s, seat, st, es, k).value.0
  }

  /** Proposals the node takes for one slot are for one command. */
  ghost predicate TakesOne(s: Scheme, seat: Seat, st: State, es: seq<Event>)
    requires Shaped(seat, st)
  {
    forall j: nat, k: nat :: SameSlot(s, seat, st, es, j, k) ==>
      TakenAt(s, seat, st, es, j) == TakenAt(s, seat, st, es, k)
  }

  /** What makes a node vote once per slot is exactly what it is handed. */
  lemma {:induction false} VotesOnceExactly(s: Scheme, seat: Seat, st: State, es: seq<Event>)
    requires Shaped(seat, st)
    ensures TakesOne(s, seat, st, es) <==> OneVote(Acts(s, seat, st, es))
  {
    hide Taken, TakenAt, Acts;
    forall slot: U32, c: WireCommand
      ensures Voted(slot, c) in Acts(s, seat, st, es) <==>
        exists k: nat :: k < |es| && TakenAt(s, seat, st, es, k) == Some((slot, c))
    {
      VotedTaken(s, seat, st, es, slot, c);
    }
    if OneVote(Acts(s, seat, st, es)) {
      forall j: nat, k: nat | SameSlot(s, seat, st, es, j, k)
        ensures TakenAt(s, seat, st, es, j) == TakenAt(s, seat, st, es, k)
      {
        var (slot, c) := TakenAt(s, seat, st, es, j).value;
        var d := TakenAt(s, seat, st, es, k).value.1;
        assert Voted(slot, c) in Acts(s, seat, st, es) && Voted(slot, d) in Acts(s, seat, st, es);
      }
    }
  }

  /** Agreement in a committee whose honest seats all run this code, so that what an honest
      seat signs is what its own run signs: it is enough that no honest seat takes proposals of
      two commands for one slot. */
  lemma {:induction false} CommitteeAgreement(
      s: Scheme, roster: Roster, seats: seq<Seat>, runs: seq<seq<Event>>, init: Term, budget: FailureBudget,
      faulty: set<nat>, i: nat, j: nat)
    requires |seats| == |runs| == |roster.members| && i < |seats| && j < |seats|
    requires forall k :: 0 <= k < |seats| ==> seats[k].roster == roster
    requires Distinct(roster.members) && Tolerates(roster, faulty)
    requires i !in faulty && j !in faulty && !seats[i].IsLeader() && !seats[j].IsLeader()
    requires forall k :: 0 <= k < |runs| && k !in faulty ==>
      && TakesOne(s, seats[k], Initial(seats[k], init, budget), runs[k])
      && Unforged(s, roster, faulty, HistoryOf(s, seats, runs, init, budget), SeenVotes(runs[k]))
    ensures LogsAgree(RunNode(s, seats[i], Initial(seats[i], init, budget), runs[i]).0.view,
                      RunNode(s, seats[j], Initial(seats[j], init, budget), runs[j]).0.view)
  {
    hide Unforged, RunNode, Distinct, Tolerates, Acts, TakesOne;
    var history := HistoryOf(s, seats, runs, init, budget);
    forall k: nat | k < |roster.members| && k !in faulty
      ensures OneVote(history(k))
    {
      VotesOnceExactly(s, seats[k], Initial(seats[k], init, budget), runs[k]);
    }
    ByzantineAgreement(s, seats[i], seats[j], init, budget, runs[i], runs[j], faulty, history);
  }

  ghost function HistoryOf(s: Scheme, seats: seq<Seat>, runs: seq<seq<Event>>, init: Term,
      budget: FailureBudget): nat -> set<Act> {
    (k: nat) => if k < |seats| && k < |runs| then Acts(s, seats[k], Initial(seats[k], init, budget), runs[k]) else {}
  }

  /** A node keeps no record of its votes, and signs one for every acceptable proposal it is
      handed for its next slot. */
  lemma VotesForEveryProposal(s: Scheme, seat: Seat, st: State, p: Proposal, q: Proposal)
    requires Shaped(seat, st) && p.slot == q.slot == st.NextSlot()
    requires VerifyProposal(s, p, seat.roster) && VerifyProposal(s, q, seat.roster)
    ensures Acts(s, seat, st, [EDeliver(MPropose(p)), EDeliver(MPropose(q))])
      == {Voted(p.slot, p.cmd), Voted(p.slot, q.cmd)}
  {
    hide VerifyProposal;
    var es := [EDeliver(MPropose(p)), EDeliver(MPropose(q))];
    assert es[..1] == [EDeliver(MPropose(p))] && es[..1][..0] == [];
    assert RunNode(s, seat, st, []) == (st, []);
    assert RunNode(s, seat, st, es[..1]).0 == st;
    assert Acts(s, seat, st, []) == {};
    assert Acts(s, seat, st, es[..1]) == {Voted(p.slot, p.cmd)};
  }

  // ---------------------------------------------------------------------------
  // With a static leader running this code, the hypothesis on votes is met
  // ---------------------------------------------------------------------------

  /** Every proposal made so far is for a decided slot, or is the one in flight. */
  ghost predicate ProposalsSettled(st: State, acts: set<Act>) {
    && (forall slot: U32, c: WireCommand :: Proposed(slot, c) in acts ==>
          slot < |st.view.log| || (slot == |st.view.log| && st.proposing.Some? && st.proposing.value.0 == c))
    && (forall slot: U32, c: WireCommand, d: WireCommand ::
          Proposed(slot, c) in acts && Proposed(slot, d) in acts ==> c == d)
  }

  lemma {:induction false} LogGrows(s: Scheme, seat: Seat, st: State, e: Event)
    requires Shaped(seat, st)
    ensures st.view.log <= StepNode(s, seat, st, e).0.view.log
  {
    hide DecidedBy, VerifyVote, QcValid;
  }

  lemma {:induction false} ProposalStep(s: Scheme, seat: Seat, st: State, acts: set<Act>, e: Event)
    requires Shaped(seat, st) && ProposalsSettled(st, acts) && |st.view.log| < TWO32
    ensures ProposalsSettled(StepNode(s, seat, st, e).0, acts + StepActs(s, seat, st, e))
  {
    hide DecidedBy, VerifyVote, QcValid;
    SmallMod(|st.view.log|);
  }

  /** A node proposes at most one command per slot, whatever it is handed, while its log has
      fewer than 2^32 entries. */
  lemma {:induction false} ProposesOnce(s: Scheme, seat: Seat, init: Term, budget: FailureBudget, es: seq<Event>)
    requires |RunNode(s, seat, Initial(seat, init, budget), es).0.view.log| < TWO32
    ensures ProposalsSettled(RunNode(s, seat, Initial(seat, init, budget), es).0, Acts(s, seat, Initial(seat, init,
        budget), es))
  {
    hide StepNode, StepActs, ProposalsSettled;
    var st := Initial(seat, init, budget);
    if es == [] {
      NothingProposed(st);
    } else {
      var n := |es| - 1;
      var mid := RunNode(s, seat, st, es[..n]).0;
      LogGrows(s, seat, mid, es[n]);
      ProposesOnce(s, seat, init, budget, es[..n]);
      ProposalStep(s, seat, mid, Acts(s, seat, st, es[..n]), es[n]);
    }
  }

  lemma NothingProposed(st: State)
    ensures ProposalsSettled(st, {})
  {
  }

  /** Every acceptable proposal a node is handed was made by the leader. */
  ghost predicate OnlyLeaderProposes(s: Scheme, roster: Roster, leaderActs: set<Act>, es: seq<Event>) {
    forall i :: 0 <= i < |es| && es[i].EDeliver? && es[i].msg.MPropose? && VerifyProposal(s, es[i].msg.p, roster)
      ==> Proposed(es[i].msg.p.slot, es[i].msg.p.cmd) in leaderActs
  }

  /** A node votes only for what the leader proposed. */
  lemma {:induction false} VotesFollowLeader(s: Scheme, seat: Seat, st: State, es: seq<Event>, leaderActs: set<Act>)
    requires Shaped(seat, st) && OnlyLeaderProposes(s, seat.roster, leaderActs, es)
    requires seat.IsLeader() ==> Acts(s, seat, st, es) <= leaderActs
    ensures forall slot, c :: Voted(slot, c) in Acts(s, seat, st, es) ==> Proposed(slot, c) in leaderActs
  {
    hide VerifyProposal, StepNode;
    if es != [] {
      var n := |es| - 1;
      VotesFollowLeader(s, seat, st, es[..n], leaderActs);
      var mid := RunNode(s, seat, st, es[..n]).0;
      assert Acts(s, seat, st, es) == Acts(s, seat, st, es[..n]) + StepActs(s, seat, mid, es[n]);
      forall slot, c | Voted(slot, c) in StepActs(s, seat, mid, es[n])
        ensures Proposed(slot, c) in leaderActs
      {
        if es[n].ESubmit? { assert Proposed(slot, c) in Acts(s, seat, st, es); }
      }
    }
  }

  /** Among the proposals a node takes for one slot, those that are not the leader's are for the
      command of all the others. */
  ghost predicate RivalsConcur(s: Scheme, seat: Seat, st: State, es: seq<Event>, leaderActs: set<Act>)
    requires Shaped(seat, st)
  {
    forall j: nat, k: nat ::
      SameSlot(s, seat, st, es, j, k) && !ByLeader(TakenAt(s, seat, st, es, j).value, leaderActs) ==>
        TakenAt(s, seat, st, es, j) == TakenAt(s, seat, st, es, k)
  }

  ghost predicate ByLeader(p: (U32, WireCommand), leaderActs: set<Act>) { Proposed(p.0, p.1) in leaderActs }

  /** They do if the leader is the only one to make acceptable proposals. */
  lemma {:induction false} OnlyLeaderConcur(s: Scheme, seat: Seat, st: State, es: seq<Event>, leaderActs: set<Act>)
    requires Shaped(seat, st) && OnlyLeaderProposes(s, seat.roster, leaderActs, es)
    requires seat.IsLeader() ==> Acts(s, seat, st, es) <= leaderActs
    ensures RivalsConcur(s, seat, st, es, leaderActs)
  {
    hide Taken, TakenAt, Acts, OnlyLeaderProposes, RunNode;
    VotesFollowLeader(s, seat, st, es, leaderActs);
    forall j: nat | j < |es| && TakenAt(s, seat, st, es, j).Some?
      ensures ByLeader(TakenAt(s, seat, st, es, j).value, leaderActs)
    {
      var (slot, c) := TakenAt(s, seat, st, es, j).value;
      VotedTaken(s, seat, st, es, slot, c);
    }
  }

  /** When the leader proposes one command per slot, it is exactly its rivals' concurring that
      makes a node vote once per slot. */
  lemma {:induction false} RivalsDecide(s: Scheme, seat: Seat, st: State, es: seq<Event>, leaderActs: set<Act>)
    requires Shaped(seat, st)
    requires forall slot: U32, c: WireCommand, d: WireCommand ::
      Proposed(slot, c) in leaderActs && Proposed(slot, d) in leaderActs ==> c == d
    ensures RivalsConcur(s, seat, st, es, leaderActs) <==> TakesOne(s, seat, st, es)
  {
    hide TakenAt;
    if RivalsConcur(s, seat, st, es, leaderActs) {
      forall j: nat, k: nat | SameSlot(s, seat, st, es, j, k)
        ensures TakenAt(s, seat, st, es, j) == TakenAt(s, seat, st, es, k)
      {
        var p, q := TakenAt(s, seat, st, es, j).value, TakenAt(s, seat, st, es, k).value;
        if ByLeader(p, leaderActs) && ByLeader(q, leaderActs) { assert p.1 == q.1; }
      }
    }
  }

  /** So in a committee with an honest leader running this code, whose log is shorter than 2^32,
      only the proposals of other members need watching: if no honest seat takes one that
      conflicts with another proposal it takes for that slot, the followers' logs agree. */
  lemma {:induction false} StaticLeaderAgreement(
      s: Scheme, roster: Roster, seats: seq<Seat>, runs: seq<seq<Event>>, init: Term, budget: FailureBudget,
      faulty: set<nat>, leader: nat, i: nat, j: nat)
    requires |seats| == |runs| == |roster.members| && i < |seats| && j < |seats| && leader < |seats|
    requires forall k :: 0 <= k < |seats| ==> seats[k].roster == roster && (seats[k].IsLeader() <==> k == leader)
    requires Distinct(roster.members) && Tolerates(roster, faulty)
    requires i !in faulty && j !in faulty && leader !in faulty && i != leader && j != leader
    requires |RunNode(s, seats[leader], Initial(seats[leader], init, budget), runs[leader]).0.view.log| < TWO32
    requires var history := HistoryOf(s, seats, runs, init, budget);
      forall k :: 0 <= k < |runs| && k !in faulty ==>
        && RivalsConcur(s, seats[k], Initial(seats[k], init, budget), runs[k], history(leader))
        && Unforged(s, roster, faulty, history, SeenVotes(runs[k]))
    ensures LogsAgree(RunNode(s, seats[i], Initial(seats[i], init, budget), runs[i]).0.view,
                      RunNode(s, seats[j], Initial(seats[j], init, budget), runs[j]).0.view)
  {
    hide Unforged, RunNode, Distinct, Tolerates, RivalsConcur, TakesOne, Acts, LogsAgree;
    var history := HistoryOf(s, seats, runs, init, budget);
    ProposesOnce(s, seats[leader], init, budget, runs[leader]);
    forall k | 0 <= k < |runs| && k !in faulty
      ensures TakesOne(s, seats[k], Initial(seats[k], init, budget), runs[k])
    {
      RivalsDecide(s, seats[k], Initial(seats[k], init, budget), runs[k], history(leader));
    }
    CommitteeAgreement(s, roster, seats, runs, init, budget, faulty, i, j);
  }
}
