/** What every run of one authenticated node keeps: its proposals, its ballot and its certificates. */
module AuthSafety {
  import opened Syntax
  import opened Rsm
  import opened Consensus
  import opened Proto
  import opened Auth

  datatype Event = ESubmit(cmd: WireCommand, cap: Capability) | EDeliver(msg: Msg)

  ghost function StepNode(s: Scheme, seat: Seat, st: State, e: Event): (r: (State, seq<Out>))
    requires Shaped(seat, st)
    ensures Shaped(seat, r.0)
  {
    match e
    case ESubmit(cmd, cap) => Submitted(s, seat, st, cmd, cap)
    case EDeliver(msg) => Handled(s, seat, st, msg)
  }

  /** The state after a sequence of events, and everything sent on the way. */
  ghost function RunNode(s: Scheme, seat: Seat, st: State, es: seq<Event>): (r: (State, seq<Out>))
    requires Shaped(seat, st)
    ensures Shaped(seat, r.0)
  {
    if es == [] then (st, [])
    else
      var (mid, sent) := RunNode(s, seat, st, es[..|es| - 1]);
      var (next, outs) := StepNode(s, seat, mid, es[|es| - 1]);
      (next, sent + outs)
  }

  /** A node keeps its identity and its failure contract. */
  lemma {:induction false} RunKeeps(s: Scheme, seat: Seat, init: Term, budget: FailureBudget, es: seq<Event>)
    ensures var view := RunNode(s, seat, Initial(seat, init, budget), es).0.view;
      |view.replicas| == 1 && view.replicas[0].id == seat.idx && view.budget == budget
  {
    hide StepNode;
    if es != [] {
      RunKeeps(s, seat, init, budget, es[..|es| - 1]);
      StepKeeps(s, seat, RunNode(s, seat, Initial(seat, init, budget), es[..|es| - 1]).0, es[|es| - 1]);
    }
  }

  lemma StepKeeps(s: Scheme, seat: Seat, st: State, e: Event)
    requires Shaped(seat, st)
    ensures var view := StepNode(s, seat, st, e).0.view;
      view.replicas[0].id == st.view.replicas[0].id && view.budget == st.view.budget
  {
    hide VerifyVote, DecidedBy, QcValid, VerifyProposal, VerifyCapability, ApplyCommand;
  }

  // ---------------------------------------------------------------------------
  // The leader's certificates
  // ---------------------------------------------------------------------------

  /** The ballot holds the command at exactly the seats whose votes were collected, and no
      seat's vote was collected twice. */
  ghost predicate BallotMatches(roster: Roster, ballot: Ballot, cmd: Command, votes: seq<Vote>) {
    && |ballot| == |roster.members| && |Signers(votes)| == |votes|
    && (forall k :: k in Signers(votes) ==> k in roster.members)
    && (forall i :: 0 <= i < |ballot| ==>
          ballot[i] == if roster.members[i] in Signers(votes) then Some(cmd) else None)
  }

  /** What the leader needs of its roster: no duplicate, as `with_quorum` guarantees, and
      fewer than 2^31 seats, beyond which the Byzantine threshold wraps. */
  ghost predicate GoodRoster(roster: Roster) {
    Distinct(roster.members) && |roster.members| < 0x8000_0000
  }

  /** The index tally of the decision and the signer tally of the certificate agree. */
  lemma {:induction false} TalliesAgree(roster: Roster, ballot: Ballot, cmd: Command, votes: seq<Vote>)
    requires GoodRoster(roster) && BallotMatches(roster, ballot, cmd, votes)
    ensures |Voters(ballot, cmd)| == |votes|
    ensures DecidedBy(roster, ballot, cmd) ==> roster.quorum.Reached(|Signers(votes)|, |roster.members|)
    ensures |roster.members| <= 0x5555_5555 ==>
      (DecidedBy(roster, ballot, cmd) <==> roster.quorum.Reached(|Signers(votes)|, |roster.members|))
  {
    hide IsQuorum, IsByzQuorum;
    assert Voters(ballot, cmd) == SeatsOf(roster.members, Signers(votes));
    SeatsCard(roster.members, Signers(votes));
    Tally(ballot, cmd);
  }

  /** A proposal in flight since slot `slot`: its votes are valid there, one per filled seat. */
  ghost predicate InFlight(s: Scheme, seat: Seat, st: State, slot: U32) {
    st.proposing.Some? ==>
      && BallotMatches(seat.roster, st.ballot, st.proposing.value.0, st.proposing.value.1)
      && forall i :: 0 <= i < |st.proposing.value.1| ==>
           VerifyVote(s, st.proposing.value.1[i], slot, st.proposing.value.0, seat.roster)
  }

  lemma EmptyMatches(roster: Roster, cmd: Command)
    ensures BallotMatches(roster, EmptyBallot(roster), cmd, [])
  {
    assert Signers([]) == {};
  }

  /** Recording a vote keeps the ballot and the votes in step. */
  lemma {:induction false} RecordMatches(roster: Roster, ballot: Ballot, cmd: Command, votes: seq<Vote>, v: Vote)
    requires BallotMatches(roster, ballot, cmd, votes) && v.voter in roster.members && Distinct(roster.members)
    ensures var i := IndexOf(roster.members, v.voter).value;
      if ballot[i].None? then BallotMatches(roster, ballot[i := Some(cmd)], cmd, votes + [v])
      else v.voter in Signers(votes)
  {
    hide Signers, IndexOf;
    var i := IndexOf(roster.members, v.voter).value;
    if ballot[i].None? {
      var more := votes + [v];
      SignersPlus(votes, v);
      assert v.voter !in Signers(votes);
      forall j | 0 <= j < |ballot| && j != i
        ensures roster.members[j] in Signers(more) <==> roster.members[j] in Signers(votes)
      {
      }
    }
  }

  lemma SignersPlus(votes: seq<Vote>, v: Vote)
    ensures Signers(votes + [v]) == Signers(votes) + {v.voter}
  {
    var more := votes + [v];
    assert more[..|votes|] == votes && more[..|more|] == more;
    SignersMore(more, |votes|);
  }

  /** What one recorded vote does to a proposal in flight: it stays in flight, or it is
      decided, with a certificate that verifies. */
  lemma {:induction false} RecordedSafe(s: Scheme, seat: Seat, st: State, v: Vote)
    requires Shaped(seat, st) && GoodRoster(seat.roster) && InFlight(s, seat, st, st.NextSlot())
    ensures var (next, outs) := Recorded(s, seat, st, st.NextSlot(), v);
      && InFlight(s, seat, next, next.NextSlot())
      && (outs == [] ==> next.view == st.view)
      && (outs != [] ==>
            && |outs| == 1 && outs[0].msg.MCommit? && st.proposing.Some? && next.proposing.None?
            && var c := outs[0].msg.c;
               && c.slot == st.NextSlot() && c.cmd == st.proposing.value.0
               && QcValid(s, c.votes, c.slot, c.cmd, seat.roster)
               && next.view == CommitView(st.view, c.cmd))
  {
    hide VerifyVote, DecidedBy, CommitView;
    if st.proposing.Some? {
      var slot := st.NextSlot();
      var (cmd, votes) := st.proposing.value;
      if VerifyVote(s, v, slot, cmd, seat.roster) {
        VoterIsMember(s, v, slot, cmd, seat.roster);
        RecordMatches(seat.roster, st.ballot, cmd, votes, v);
        var i := IndexOf(seat.roster.members, v.voter).value;
        var more := if st.ballot[i].None? then votes + [v] else votes;
        var ballot := if st.ballot[i].None? then st.ballot[i := Some(cmd)] else st.ballot;
        assert forall j :: 0 <= j < |more| ==> VerifyVote(s, more[j], slot, cmd, seat.roster);
        TalliesAgree(seat.roster, ballot, cmd, more);
      }
    }
  }

  /** A valid vote decides the proposal in flight, overtaken or not, exactly when the signers,
      with the new one, reach the threshold. */
  lemma {:induction false} DecidesExactly(s: Scheme, seat: Seat, st: State, v: Vote)
    requires Shaped(seat, st) && GoodRoster(seat.roster) && |seat.roster.members| <= 0x5555_5555
    requires st.proposing.Some?
    requires BallotMatches(seat.roster, st.ballot, st.proposing.value.0, st.proposing.value.1)
    requires VerifyVote(s, v, st.NextSlot(), st.proposing.value.0, seat.roster)
    ensures Recorded(s, seat, st, st.NextSlot(), v).1 != [] <==>
      seat.roster.quorum.Reached(|Signers(st.proposing.value.1) + {v.voter}|, |seat.roster.members|)
  {
    hide VerifyVote, DecidedBy, CommitView, Signers;
    var (cmd, votes) := st.proposing.value;
    VoterIsMember(s, v, st.NextSlot(), cmd, seat.roster);
    RecordMatches(seat.roster, st.ballot, cmd, votes, v);
    SignersPlus(votes, v);
    var i := IndexOf(seat.roster.members, v.voter).value;
    if st.ballot[i].None? {
      TalliesAgree(seat.roster, st.ballot[i := Some(cmd)], cmd, votes + [v]);
    } else {
      assert Signers(votes) + {v.voter} == Signers(votes);
      TalliesAgree(seat.roster, st.ballot, cmd, votes);
    }
  }

  /** A committee of one decides immediately: its leader's own vote is a quorum. */
  lemma {:induction false} SoloDecides(s: Scheme, seat: Seat, st: State, cmd: WireCommand, cap: Capability)
    requires Correct(s) && seat.roster.members == [s.publicKey(seat.seed)]
    requires Shaped(seat, st) && seat.IsLeader() && st.proposing.None? && VerifyCapability(s, cap, cmd)
    ensures var (next, outs) := Submitted(s, seat, st, cmd, cap);
      && next.view.log == st.view.log + [cmd] && next.proposing.None?
      && |outs| == 2 && outs[0].msg.MPropose? && outs[1].msg.MCommit?
      && var c := outs[1].msg.c; c.cmd == cmd && QcValid(s, c.votes, c.slot, c.cmd, seat.roster)
  {
    hide Recorded, InFlight, DecidedBy, QcValid, CommitView, Signers, VoteMsg, CapMsg, ProposeMsg;
    var slot, mid := st.NextSlot(), State(st.view, EmptyBallot(seat.roster), Some((cmd, [])));
    var own := CastVote(s, seat.seed, slot, cmd);
    FreshInFlight(s, seat, mid, slot);
    RecordedSafe(s, seat, mid, own);
    DecidesExactly(s, seat, mid, own);
    NoSigners();
    CommitGrows(st.view, cmd);
  }

  lemma NoSigners()
    ensures Signers([]) == {}
  {
  }

  lemma VoterIsMember(s: Scheme, v: Vote, slot: U32, cmd: WireCommand, roster: Roster)
    requires VerifyVote(s, v, slot, cmd, roster)
    ensures v.voter in roster.members && v.slot == slot
  {
  }

  /** No commit is delivered. */
  ghost predicate NoCommits(es: seq<Event>) {
    forall i :: 0 <= i < |es| ==> !(es[i].EDeliver? && es[i].msg.MCommit?)
  }

  /** Every certificate among `outs` verifies. */
  ghost predicate CertificatesValid(s: Scheme, roster: Roster, outs: seq<Out>) {
    forall i :: 0 <= i < |outs| && outs[i].msg.MCommit? ==>
      QcValid(s, outs[i].msg.c.votes, outs[i].msg.c.slot, outs[i].msg.c.cmd, roster)
  }

  lemma {:induction false} StepCertificates(s: Scheme, seat: Seat, st: State, e: Event)
    requires Shaped(seat, st) && GoodRoster(seat.roster) && InFlight(s, seat, st, st.NextSlot())
    requires !(e.EDeliver? && e.msg.MCommit?)
    ensures var (next, outs) := StepNode(s, seat, st, e);
      InFlight(s, seat, next, next.NextSlot()) && CertificatesValid(s, seat.roster, outs)
  {
    hide VerifyVote, InFlight, Recorded, QcValid, Submitted;
    match e
    case ESubmit(cmd, cap) => SubmittedSafe(s, seat, st, cmd, cap);
    case EDeliver(MVote(v)) => RecordedSafe(s, seat, st, v);
    case EDeliver(_) =>
  }

  lemma {:induction false} SubmittedSafe(s: Scheme, seat: Seat, st: State, cmd: WireCommand, cap: Capability)
    requires Shaped(seat, st) && GoodRoster(seat.roster) && InFlight(s, seat, st, st.NextSlot())
    ensures var (next, outs) := Submitted(s, seat, st, cmd, cap);
      InFlight(s, seat, next, next.NextSlot()) && CertificatesValid(s, seat.roster, outs)
  {
    hide VerifyVote, InFlight, Recorded, QcValid, CommitView, CastVote, Propose, VerifyCapability, BallotMatches;
    var mid := State(st.view, EmptyBallot(seat.roster), Some((cmd, [])));
    FreshInFlight(s, seat, mid, st.NextSlot());
    RecordedSafe(s, seat, mid, CastVote(s, seat.seed, st.NextSlot(), cmd));
  }

  lemma FreshInFlight(s: Scheme, seat: Seat, st: State, slot: U32)
    requires st.proposing.Some? && st.proposing.value.1 == [] && st.ballot == EmptyBallot(seat.roster)
    ensures InFlight(s, seat, st, slot)
  {
    EmptyMatches(seat.roster, st.proposing.value.0);
  }

  /** While no commit reaches the leader its certificates always verify: over any sequence of
      submissions and of arbitrary proposals and votes, in either fault model, the votes in
      flight are valid and one per filled ballot seat, and every commit that is sent passes the
      check its receivers make. */
  lemma {:induction false} QuietCertificates(s: Scheme, seat: Seat, init: Term, budget: FailureBudget, es: seq<Event>)
    requires GoodRoster(seat.roster) && NoCommits(es)
    ensures var (st, outs) := RunNode(s, seat, Initial(seat, init, budget), es);
      InFlight(s, seat, st, st.NextSlot()) && CertificatesValid(s, seat.roster, outs)
  {
    hide InFlight, QcValid, StepNode;
    if es == [] {
      NothingInFlight(s, seat, Initial(seat, init, budget));
    } else {
      var n := |es| - 1;
      QuietCertificates(s, seat, init, budget, es[..n]);
      StepCertificates(s, seat, RunNode(s, seat, Initial(seat, init, budget), es[..n]).0, es[n]);
    }
  }

  lemma NothingInFlight(s: Scheme, seat: Seat, st: State)
    requires st.proposing.None?
    ensures InFlight(s, seat, st, st.NextSlot())
  {
  }

  // ---------------------------------------------------------------------------
  // When commits reach the leader
  // ---------------------------------------------------------------------------

  /** A submission the leader takes up. */
  ghost predicate TakesUp(s: Scheme, seat: Seat, st: State, e: Event) {
    e.ESubmit? && seat.IsLeader() && st.proposing.None? && VerifyCapability(s, e.cap, e.cmd)
  }

  /** The length of the log when the latest proposal was begun. */
  ghost function BegunAt(s: Scheme, seat: Seat, st: State, es: seq<Event>): nat
    requires Shaped(seat, st)
  {
    if es == [] then 0
    else
      var mid := RunNode(s, seat, st, es[..|es| - 1]).0;
      if TakesUp(s, seat, mid, es[|es| - 1]) then |mid.view.log| else BegunAt(s, seat, st, es[..|es| - 1])
  }

  /** The proposal in flight was begun at log length `n`. Accepted commits may have overtaken
      it, and its votes may then be for several slots; if none has, they are all for this one. */
  ghost predicate Begun(s: Scheme, seat: Seat, st: State, n: nat) {
    st.proposing.Some? ==>
      && n <= |st.view.log|
      && BallotMatches(seat.roster, st.ballot, st.proposing.value.0, st.proposing.value.1)
      && (n == |st.view.log| ==> InFlight(s, seat, st, st.NextSlot()))
  }

  /** Its first vote is the leader's own, for the slot it was begun at. */
  ghost predicate OwnFirst(st: State, n: nat) {
    st.proposing.Some? ==> st.proposing.value.1 != [] && st.proposing.value.1[0].slot == n % TWO32
  }

  /** A node that `new` accepts, under a scheme whose signatures verify. */
  ghost predicate HoldsSeat(s: Scheme, seat: Seat) {
    Correct(s) && seat.idx < |seat.roster.members| && seat.roster.members[seat.idx] == s.publicKey(seat.seed)
  }

  /** A recorded vote keeps the proposal begun where it was, or decides it. Decided, its command
      is appended in any case; its certificate is valid if it was not overtaken, and only then. */
  lemma {:induction false} OvertakenCertificate(s: Scheme, seat: Seat, st: State, n: nat, v: Vote)
    requires Shaped(seat, st) && GoodRoster(seat.roster) && Begun(s, seat, st, n)
    ensures var (next, outs) := Recorded(s, seat, st, st.NextSlot(), v);
      && Begun(s, seat, next, n) && (OwnFirst(st, n) ==> OwnFirst(next, n))
      && (outs != [] ==>
            && |outs| == 1 && outs[0].msg.MCommit?
            && var c := outs[0].msg.c;
               && next.view.log == st.view.log + [c.cmd]
               && (n == |st.view.log| ==> QcValid(s, c.votes, c.slot, c.cmd, seat.roster))
               && (OwnFirst(st, n) && |st.view.log| < TWO32 ==>
                     (QcValid(s, c.votes, c.slot, c.cmd, seat.roster) <==> n == |st.view.log|)))
  {
    hide InFlight, DecidedBy, CommitView, BallotMatches, VerifyVote;
    if st.proposing.Some? {
      var slot := st.NextSlot();
      var (cmd, votes) := st.proposing.value;
      CommitGrows(st.view, cmd);
      if n == |st.view.log| { RecordedSafe(s, seat, st, v); }
      if VerifyVote(s, v, slot, cmd, seat.roster) {
        VoterIsMember(s, v, slot, cmd, seat.roster);
        RecordMatches(seat.roster, st.ballot, cmd, votes, v);
        if |st.view.log| < TWO32 { SmallMod(n); SmallMod(|st.view.log|); }
        var outs := Recorded(s, seat, st, slot, v).1;
        if outs != [] && votes != [] && votes[0].slot != slot {
          OffSlot(s, votes[0], slot, cmd, seat.roster);
          assert outs[0].msg.c.votes[0] == votes[0];
        }
      }
    }
  }

  lemma OffSlot(s: Scheme, v: Vote, slot: U32, cmd: WireCommand, roster: Roster)
    requires v.slot != slot
    ensures !VerifyVote(s, v, slot, cmd, roster)
  {
  }

  lemma OwnVoteVerifies(s: Scheme, seat: Seat, slot: U32, cmd: WireCommand)
    requires HoldsSeat(s, seat)
    ensures VerifyVote(s, CastVote(s, seat.seed, slot, cmd), slot, cmd, seat.roster)
  {
    hide VoteMsg;
  }

  /** A submission taken up begins a proposal with the leader's own vote. */
  lemma {:induction false} SubmittedBegun(s: Scheme, seat: Seat, st: State, cmd: WireCommand, cap: Capability)
    requires Shaped(seat, st) && GoodRoster(seat.roster) && TakesUp(s, seat, st, ESubmit(cmd, cap))
    ensures var (next, outs) := Submitted(s, seat, st, cmd, cap);
      && Begun(s, seat, next, |st.view.log|) && (HoldsSeat(s, seat) ==> OwnFirst(next, |st.view.log|))
      && CertificatesExact(s, seat, st, next, outs, |st.view.log|)
  {
    hide Begun, DecidedBy, CommitView, BallotMatches, VerifyVote, CapMsg, ProposeMsg, VoteMsg, QcValid, HoldsSeat;
    var slot, n := st.NextSlot(), |st.view.log|;
    var mid := State(st.view, EmptyBallot(seat.roster), Some((cmd, [])));
    var own := CastVote(s, seat.seed, slot, cmd);
    FreshBegun(s, seat, mid);
    OvertakenCertificate(s, seat, mid, n, own);
    if HoldsSeat(s, seat) {
      OwnVoteVerifies(s, seat, slot, cmd);
      VoterIsMember(s, own, slot, cmd, seat.roster);
      assert mid.ballot[IndexOf(seat.roster.members, own.voter).value].None?;
    }
  }

  lemma FreshBegun(s: Scheme, seat: Seat, st: State)
    requires st.proposing.Some? && st.proposing.value.1 == [] && st.ballot == EmptyBallot(seat.roster)
    ensures Begun(s, seat, st, |st.view.log|)
  {
    FreshInFlight(s, seat, st, st.NextSlot());
  }

  /** What is true of the commits among `outs`, sent by a step from `st` to `next`, when the
      proposal decided was begun at log length `n`. */
  ghost predicate CertificatesExact(s: Scheme, seat: Seat, st: State, next: State, outs: seq<Out>, n: nat) {
    forall i :: 0 <= i < |outs| && outs[i].msg.MCommit? ==>
      var c := outs[i].msg.c;
      && next.view.log == st.view.log + [c.cmd]
      && (n == |st.view.log| ==> QcValid(s, c.votes, c.slot, c.cmd, seat.roster))
      && (HoldsSeat(s, seat) && |st.view.log| < TWO32 ==>
            (QcValid(s, c.votes, c.slot, c.cmd, seat.roster) <==> n == |st.view.log|))
  }

  lemma {:induction false} StepBegun(s: Scheme, seat: Seat, st: State, n: nat, e: Event)
    requires Shaped(seat, st) && GoodRoster(seat.roster) && Begun(s, seat, st, n)
    requires HoldsSeat(s, seat) ==> OwnFirst(st, n)
    ensures var (next, outs) := StepNode(s, seat, st, e);
      var m := if TakesUp(s, seat, st, e) then |st.view.log| else n;
      && Begun(s, seat, next, m) && (HoldsSeat(s, seat) ==> OwnFirst(next, m))
      && CertificatesExact(s, seat, st, next, outs, m)
  {
    hide Begun, OwnFirst, Recorded, QcValid, HoldsSeat, VerifyProposal, VerifyCapability, CommitView;
    match e {
      case ESubmit(cmd, cap) => if TakesUp(s, seat, st, e) { SubmittedBegun(s, seat, st, cmd, cap); }
      case EDeliver(MVote(v)) => OvertakenCertificate(s, seat, st, n, v);
      case EDeliver(MPropose(_)) =>
      case EDeliver(MCommit(c)) => if StepNode(s, seat, st, e).0 != st { BegunAfterCommit(s, seat, st, n, c.cmd); }
    }
  }

  lemma BegunAfterCommit(s: Scheme, seat: Seat, st: State, n: nat, cmd: Command)
    requires Begun(s, seat, st, n)
    ensures var next := st.(view := CommitView(st.view, cmd));
      Begun(s, seat, next, n) && (OwnFirst(st, n) ==> OwnFirst(next, n))
  {
    hide InFlight, BallotMatches, CommitView;
    CommitGrows(st.view, cmd);
  }

  lemma {:induction false} RunBegun(s: Scheme, seat: Seat, init: Term, budget: FailureBudget, es: seq<Event>)
    requires GoodRoster(seat.roster)
    ensures var st, n := RunNode(s, seat, Initial(seat, init, budget), es).0, BegunAt(s, seat, Initial(seat, init,
        budget), es);
      Begun(s, seat, st, n) && (HoldsSeat(s, seat) ==> OwnFirst(st, n))
  {
    hide Begun, OwnFirst, StepNode, HoldsSeat, GoodRoster, TakesUp;
    var st := Initial(seat, init, budget);
    if es == [] {
      IdleBegun(s, seat, st, 0);
    } else {
      var k := |es| - 1;
      RunBegun(s, seat, init, budget, es[..k]);
      StepBegun(s, seat, RunNode(s, seat, st, es[..k]).0, BegunAt(s, seat, st, es[..k]), es[k]);
    }
  }

  lemma IdleBegun(s: Scheme, seat: Seat, st: State, n: nat)
    requires st.proposing.None?
    ensures Begun(s, seat, st, n) && OwnFirst(st, n)
  {
  }

  /** Exactly when the leader's certificates verify, over every sequence of events, commits
      included: a commit sent in answer to `e` verifies if no commit was accepted since its
      proposal was begun, and only then while logs are shorter than 2^32; and either way the
      leader has appended its command. */
  lemma {:induction false} LeaderCertificates(
      s: Scheme, seat: Seat, init: Term, budget: FailureBudget, es: seq<Event>, e: Event)
    requires GoodRoster(seat.roster)
    ensures var st := RunNode(s, seat, Initial(seat, init, budget), es).0;
      var (next, outs) := StepNode(s, seat, st, e);
      CertificatesExact(s, seat, st, next, outs, BegunAt(s, seat, Initial(seat, init, budget), es + [e]))
  {
    hide Begun, OwnFirst, StepNode, HoldsSeat, GoodRoster, CertificatesExact, TakesUp;
    var st := Initial(seat, init, budget);
    RunBegun(s, seat, init, budget, es);
    assert (es + [e])[..|es|] == es;
    StepBegun(s, seat, RunNode(s, seat, st, es).0, BegunAt(s, seat, st, es), e);
  }

  /** Accepting a commit keeps the proposal in flight and moves the slot on. */
  lemma CommitOvertakes(s: Scheme, seat: Seat, st: State, c: Commitment, slot: U32)
    requires Shaped(seat, st) && InFlight(s, seat, st, slot)
    requires c.slot == st.NextSlot() && QcValid(s, c.votes, c.slot, c.cmd, seat.roster)
    ensures var next := Handled(s, seat, st, MCommit(c)).0;
      InFlight(s, seat, next, slot) && next.proposing == st.proposing && next.NextSlot() != st.NextSlot()
  {
    hide VerifyVote, QcValid;
  }
}
