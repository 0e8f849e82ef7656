/** What credentials establish: who signed what before a node proposes or votes. */
module Credentials {
  import opened Syntax
  import opened Rsm
  import opened Proto
  import opened Auth
  import opened AuthSafety
  import opened Agreement

  /** `sig` verifies under `key` only on what its holder, whose acts these are, signed. */
  ghost predicate OnlySigned(s: Scheme, key: Bytes32, sig: Bytes64, acts: set<Act>) {
    forall m :: s.verify(key, m, sig) ==> exists a :: a in acts && SignedBytes(a) == m
  }

  /** A capability is accepted for the command it was issued for. */
  lemma IssuedAccepted(s: Scheme, seed: Bytes32, cmd: WireCommand)
    requires Correct(s)
    ensures VerifyCapability(s, IssueCapability(s, seed, cmd), cmd)
  {
    hide CapMsg;
  }

  /** And for no other: if one is accepted, its issuer issued it for that very command. */
  lemma {:induction false} AcceptedIssued(s: Scheme, cap: Capability, cmd: WireCommand, acts: set<Act>)
    requires VerifyCapability(s, cap, cmd) && OnlySigned(s, cap.issuer, cap.sig, acts)
    ensures Issued(cmd) in acts
  {
    hide CmdBytes;
    var a :| a in acts && SignedBytes(a) == SignedBytes(Issued(cmd));
    Unambiguous(a, Issued(cmd));
  }

  /** A member's proposal of a command with a valid capability is accepted. */
  lemma ProposedAccepted(s: Scheme, roster: Roster, seed: Bytes32, slot: U32, cmd: WireCommand, cap: Capability)
    requires Correct(s) && s.publicKey(seed) in roster.members && VerifyCapability(s, cap, cmd)
    ensures VerifyProposal(s, Propose(s, seed, slot, cmd, cap), roster)
  {
    hide ProposeMsg, CapMsg;
  }

  /** And nothing else: an accepted proposal is a member's, who proposed that command for that
      slot, with a capability that its issuer issued for that command. */
  lemma {:induction false} AcceptedProposed(s: Scheme, p: Proposal, roster: Roster, acts: set<Act>,
                                            issuerActs: set<Act>)
    requires VerifyProposal(s, p, roster)
    requires OnlySigned(s, p.leader, p.sig, acts) && OnlySigned(s, p.cap.issuer, p.cap.sig, issuerActs)
    ensures p.leader in roster.members && Proposed(p.slot, p.cmd) in acts && Issued(p.cmd) in issuerActs
  {
    hide CmdBytes, LittleEndian32;
    AcceptedIssued(s, p.cap, p.cmd, issuerActs);
    var a :| a in acts && SignedBytes(a) == SignedBytes(Proposed(p.slot, p.cmd));
    Unambiguous(a, Proposed(p.slot, p.cmd));
  }

  // ---------------------------------------------------------------------------
  // Nodes
  // ---------------------------------------------------------------------------

  /** `m` is a member's proposal, with all the signatures it takes. */
  ghost predicate OffersSigned(s: Scheme, roster: Roster, m: Msg, slot: U32, cmd: WireCommand) {
    && m.MPropose? && m.p.slot == slot && m.p.cmd == cmd && m.p.leader in roster.members
    && s.verify(m.p.leader, ProposeMsg(slot, cmd), m.p.sig) && s.verify(m.p.cap.issuer, CapMsg(cmd), m.p.cap.sig)
  }

  /** A node neither proposes nor votes without the signatures: a submission whose capability is
      not its issuer's signature on the command, and a proposal that is for another slot, not a
      member's, not signed by it, or without such a capability, change nothing and get no answer. */
  lemma RefusesUnsigned(s: Scheme, seat: Seat, st: State, cmd: WireCommand, cap: Capability, p: Proposal)
    requires Shaped(seat, st)
    ensures !s.verify(cap.issuer, CapMsg(cmd), cap.sig) ==> Submitted(s, seat, st, cmd, cap) == (st, [])
    ensures (p.slot != st.NextSlot() || !OffersSigned(s, seat.roster, MPropose(p), p.slot, p.cmd)) ==>
      Handled(s, seat, st, MPropose(p)) == (st, [])
  {
    hide Recorded, CapMsg, ProposeMsg;
  }

  /** And it does with them: the leader broadcasts its proposal to its peers, with the capability
      it was given, and a node sends the leader its vote. */
  lemma AnswersSigned(s: Scheme, seat: Seat, st: State, cmd: WireCommand, cap: Capability, p: Proposal)
    requires Shaped(seat, st)
    ensures seat.IsLeader() && st.proposing.None? && s.verify(cap.issuer, CapMsg(cmd), cap.sig) ==>
      var outs := Submitted(s, seat, st, cmd, cap).1;
      && |outs| > 0 && outs[0] == Out(Peers, MPropose(Propose(s, seat.seed, st.NextSlot(), cmd, cap)))
      && forall i :: 0 < i < |outs| ==> outs[i].dest == Peers && outs[i].msg.MCommit?
    ensures p.slot == st.NextSlot() && OffersSigned(s, seat.roster, MPropose(p), p.slot, p.cmd) ==>
      Handled(s, seat, st, MPropose(p)) == (st, [Out(To(seat.leader), MVote(CastVote(s, seat.seed, p.slot, p.cmd)))])
  {
    hide CapMsg, ProposeMsg, CastVote, Propose, VerifyVote, DecidedBy;
  }

  /** Someone asked for the command with its issuer's signature on it. */
  ghost predicate Asked(s: Scheme, es: seq<Event>, cmd: WireCommand) {
    exists k: nat :: k < |es| && es[k].ESubmit? && es[k].cmd == cmd &&
      s.verify(es[k].cap.issuer, CapMsg(cmd), es[k].cap.sig)
  }

  /** A member proposed the command for the slot, with its issuer's signature on it. */
  ghost predicate Offered(s: Scheme, roster: Roster, es: seq<Event>, slot: U32, cmd: WireCommand) {
    exists k: nat :: k < |es| && es[k].EDeliver? && OffersSigned(s, roster, es[k].msg, slot, cmd)
  }

  /** Over any run: a node signs a vote only for what it was asked, or was offered by a member,
      with the signatures that go with it. */
  lemma {:induction false} VotesJustified(s: Scheme, seat: Seat, st: State, es: seq<Event>, slot: U32, cmd: WireCommand)
    requires Shaped(seat, st) && Voted(slot, cmd) in Acts(s, seat, st, es)
    ensures (seat.IsLeader() && Asked(s, es, cmd)) || Offered(s, seat.roster, es, slot, cmd)
  {
    hide CapMsg, ProposeMsg, RunNode, Acts;
    VotedTaken(s, seat, st, es, slot, cmd);
    var k: nat :| k < |es| && TakenAt(s, seat, st, es, k) == Some((slot, cmd));
    if es[k].EDeliver? { assert OffersSigned(s, seat.roster, es[k].msg, slot, cmd); }
  }

  /** So if the capabilities it was handed are not forged, their issuers issued it. */
  lemma {:induction false} VotesAuthorized(s: Scheme, seat: Seat, st: State, es: seq<Event>, slot: U32,
                                           cmd: WireCommand, issued: Bytes32 -> set<Act>)
    requires Shaped(seat, st) && Voted(slot, cmd) in Acts(s, seat, st, es)
    requires forall k: nat :: k < |es| ==> match es[k]
      case ESubmit(_, cap) => OnlySigned(s, cap.issuer, cap.sig, issued(cap.issuer))
      case EDeliver(MPropose(p)) => OnlySigned(s, p.cap.issuer, p.cap.sig, issued(p.cap.issuer))
      case EDeliver(_) => true
    ensures exists key :: Issued(cmd) in issued(key)
  {
    hide CapMsg, ProposeMsg, RunNode, Acts, OnlySigned;
    VotesJustified(s, seat, st, es, slot, cmd);
    if Offered(s, seat.roster, es, slot, cmd) {
      var k: nat :| k < |es| && es[k].EDeliver? && OffersSigned(s, seat.roster, es[k].msg, slot, cmd);
      var cap := es[k].msg.p.cap;
      AcceptedIssued(s, cap, cmd, issued(cap.issuer));
    } else {
      var k: nat :| k < |es| && es[k].ESubmit? && es[k].cmd == cmd
        && s.verify(es[k].cap.issuer, CapMsg(cmd), es[k].cap.sig);
      AcceptedIssued(s, es[k].cap, cmd, issued(es[k].cap.issuer));
    }
  }
}
