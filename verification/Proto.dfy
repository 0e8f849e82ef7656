/** The authenticated replication protocol: the byte strings its signatures cover, rosters
    and quorum thresholds, and the checks on capabilities, proposals, votes and commits.

    Signatures are those of an abstract scheme, given by its three functions. */
module Proto {
  import opened Syntax
  import opened Rsm
  import opened Wire

  /** A command whose payload has 32-bit indices, as every command of the program does. */
  type WireCommand = c: Command | Encodable(c.payload) ghost witness NoOp()

  ghost function NoOp(): (c: Command)
    ensures Encodable(c.payload)
  {
    Cmd(HOLE, None)
  }

  datatype Scheme = Scheme(
    publicKey: Bytes32 -> Bytes32,
    sign: (Bytes32, seq<U8>) -> Bytes64,
    verify: (Bytes32, seq<U8>, Bytes64) -> bool)

  /** What an honest signer produces verifies. */
  ghost predicate Correct(s: Scheme) {
    forall seed, m :: s.verify(s.publicKey(seed), m, s.sign(seed, m))
  }

  // ---------------------------------------------------------------------------
  // Signed byte strings
  // ---------------------------------------------------------------------------

  const DOM_CAP: seq<U8> := [100, 108, 99, 45, 100, 47, 99, 97, 112, 47, 118, 49]
  const DOM_PROPOSE: seq<U8> := [100, 108, 99, 45, 100, 47, 112, 114, 111, 112, 111, 115, 101, 47, 118, 49]
  const DOM_VOTE: seq<U8> := [100, 108, 99, 45, 100, 47, 118, 111, 116, 101, 47, 118, 49]

  function Ascii(text: string): seq<int> {
    seq(|text|, i requires 0 <= i < |text| => text[i] as int)
  }

  /** The domains in their own words. */
  lemma Domains()
    ensures DOM_CAP == Ascii("dlc-d/cap/v1") && DOM_PROPOSE == Ascii("dlc-d/propose/v1")
    ensures DOM_VOTE == Ascii("dlc-d/vote/v1")
  {
  }

  /** After its domain, a signed vote or proposal holds its slot, least significant byte first,
      and then the command. */
  lemma SignedFields(slot: U32, c: Command)
    ensures CapMsg(c) == DOM_CAP + CmdBytes(c)
    ensures VoteMsg(slot, c)[..13] == DOM_VOTE && ProposeMsg(slot, c)[..16] == DOM_PROPOSE
    ensures FromBytes(VoteMsg(slot, c)[13..17]) == FromBytes(ProposeMsg(slot, c)[16..20]) == slot
    ensures VoteMsg(slot, c)[17..] == ProposeMsg(slot, c)[20..] == CmdBytes(c)
  {
    hide CmdBytes, LittleEndian32;
    LittleEndianSum(slot);
    assert VoteMsg(slot, c)[13..17] == LittleEndian32(slot) == ProposeMsg(slot, c)[16..20];
  }

  function FromBytes(b: seq<int>): int
    requires |b| == 4
  {
    b[0] + 0x100 * b[1] + 0x1_0000 * b[2] + 0x100_0000 * b[3]
  }

  function CmdBytes(c: Command): seq<U8> {
    EncodeTerm(c.payload) + (match c.cap case Some(p) => [1] + EncodeProp(p) case None => [0])
  }

  function LittleEndian32(n: U32): (r: seq<U8>)
    ensures |r| == 4
  {
    [n % 0x100, n / 0x100 % 0x100, n / 0x1_0000 % 0x100, n / 0x100_0000]
  }

  function CapMsg(c: Command): seq<U8> { DOM_CAP + CmdBytes(c) }

  function ProposeMsg(slot: U32, c: Command): seq<U8> { DOM_PROPOSE + LittleEndian32(slot) + CmdBytes(c) }

  function VoteMsg(slot: U32, c: Command): seq<U8> { DOM_VOTE + LittleEndian32(slot) + CmdBytes(c) }

  /** What a key can be asked to sign. */
  datatype Act =
    | Issued(cmd: WireCommand)
    | Proposed(slot: U32, cmd: WireCommand)
    | Voted(slot: U32, cmd: WireCommand)

  function SignedBytes(a: Act): seq<U8> {
    match a
    case Issued(c) => CapMsg(c)
    case Proposed(slot, c) => ProposeMsg(slot, c)
    case Voted(slot, c) => VoteMsg(slot, c)
  }

  lemma {:induction false} CmdBytesInjective(c: WireCommand, d: WireCommand)
    requires CmdBytes(c) == CmdBytes(d)
    ensures c == d
  {
    hide EncodeTerm, EncodeProp, Encodable;
    var s := match c.cap case Some(p) => [1] + EncodeProp(p) case None => [0];
    var r := match d.cap case Some(p) => [1] + EncodeProp(p) case None => [0];
    TermBytesInjective(c.payload, d.payload, s, r);
    assert s[0] == r[0];
    if c.cap.Some? {
      assert s[1..] == EncodeProp(c.cap.value) + [] && r[1..] == EncodeProp(d.cap.value) + [];
      PropBytesInjective(c.cap.value, d.cap.value, [], []);
    }
  }

  lemma LittleEndianInjective(m: U32, n: U32)
    requires LittleEndian32(m) == LittleEndian32(n)
    ensures m == n
  {
    LittleEndianSum(m);
    LittleEndianSum(n);
  }

  lemma LittleEndianSum(n: U32)
    ensures FromBytes(LittleEndian32(n)) == n
  {
    var d, rest := n / 0x100_0000, n % 0x100_0000;
    var c, low := rest / 0x1_0000, rest % 0x1_0000;
    var b, a := low / 0x100, low % 0x100;
    Remainder(n, (d * 0x100 + c) * 0x100 + b, a);
    Remainder((d * 0x100 + c) * 0x100 + b, d * 0x100 + c, b);
    Remainder(d * 0x100 + c, d, c);
    ThirdByte(n, d * 0x100 + c, low);
  }

  lemma ThirdByte(n: int, k: int, b: int)
    requires n == 0x1_0000 * k + b && 0 <= b < 0x1_0000
    ensures n / 0x1_0000 == k
  {
  }

  /** Signed messages are unambiguous: across the three kinds, a byte string determines the
      kind, the slot and the command. */
  lemma {:induction false} Unambiguous(a: Act, b: Act)
    requires SignedBytes(a) == SignedBytes(b)
    ensures a == b
  {
    hide CmdBytes, LittleEndian32;
    var m, n := SignedBytes(a), SignedBytes(b);
    assert m[6] == n[6];
    match a {
      case Issued(c) =>
        assert m[12..] == CmdBytes(c) && n[12..] == CmdBytes(b.cmd);
      case Proposed(slot, c) =>
        assert m[16..20] == LittleEndian32(slot) && n[16..20] == LittleEndian32(b.slot);
        assert m[20..] == CmdBytes(c) && n[20..] == CmdBytes(b.cmd);
        LittleEndianInjective(slot, b.slot);
      case Voted(slot, c) =>
        assert m[13..17] == LittleEndian32(slot) && n[13..17] == LittleEndian32(b.slot);
        assert m[17..] == CmdBytes(c) && n[17..] == CmdBytes(b.cmd);
        LittleEndianInjective(slot, b.slot);
    }
    CmdBytesInjective(a.cmd, b.cmd);
  }

  // ---------------------------------------------------------------------------
  // Rosters
  // ---------------------------------------------------------------------------

  datatype Quorum = Crash | Byzantine {
    predicate Reached(distinct: nat, n: nat) {
      match this
      case Crash => 2 * distinct > n
      case Byzantine => 3 * distinct > 2 * n
    }
  }

  datatype Roster = Roster(members: seq<Bytes32>, quorum: Quorum)

  ghost predicate Distinct(members: seq<Bytes32>) {
    forall i, j :: 0 <= i < j < |members| ==> members[i] != members[j]
  }

  /** Build a roster, rejecting duplicate members. */
  method WithQuorum(members: seq<Bytes32>, quorum: Quorum) returns (r: Option<Roster>)
    ensures r == if Distinct(members) then Some(Roster(members, quorum)) else None
  {
    for i := 0 to |members|
      invariant forall a, b :: 0 <= a < i && a < b < |members| ==> members[a] != members[b]
    {
      for j := i + 1 to |members|
        invariant forall b :: i < b < j ==> members[i] != members[b]
      {
        if members[i] == members[j] { return None; }
      }
    }
    return Some(Roster(members, quorum));
  }

  /** The first position of a key. */
  function IndexOf(members: seq<Bytes32>, k: Bytes32): (r: Option<nat>)
    ensures r.Some? <==> k in members
    ensures r.Some? ==> r.value < |members| && members[r.value] == k
  {
    if members == [] then None
    else if members[0] == k then Some(0)
    else
      var i :- IndexOf(members[1..], k);
      Some(i + 1)
  }

  // ---------------------------------------------------------------------------
  // Messages and their checks
  // ---------------------------------------------------------------------------

  datatype Capability = Capability(issuer: Bytes32, sig: Bytes64)

  datatype Proposal = Proposal(leader: Bytes32, slot: U32, cmd: WireCommand, cap: Capability, sig: Bytes64)

  datatype Vote = Vote(voter: Bytes32, slot: U32, sig: Bytes64)

  datatype Commitment = Commitment(slot: U32, cmd: WireCommand, votes: seq<Vote>)

  function IssueCapability(s: Scheme, seed: Bytes32, cmd: WireCommand): Capability {
    Capability(s.publicKey(seed), s.sign(seed, CapMsg(cmd)))
  }

  predicate VerifyCapability(s: Scheme, cap: Capability, cmd: WireCommand) {
    s.verify(cap.issuer, CapMsg(cmd), cap.sig)
  }

  function Propose(s: Scheme, seed: Bytes32, slot: U32, cmd: WireCommand, cap: Capability): Proposal {
    Proposal(s.publicKey(seed), slot, cmd, cap, s.sign(seed, ProposeMsg(slot, cmd)))
  }

  predicate VerifyProposal(s: Scheme, p: Proposal, roster: Roster) {
    p.leader in roster.members
    && s.verify(p.leader, ProposeMsg(p.slot, p.cmd), p.sig)
    && VerifyCapability(s, p.cap, p.cmd)
  }

  function CastVote(s: Scheme, seed: Bytes32, slot: U32, cmd: WireCommand): Vote {
    Vote(s.publicKey(seed), slot, s.sign(seed, VoteMsg(slot, cmd)))
  }

  predicate VerifyVote(s: Scheme, v: Vote, slot: U32, cmd: WireCommand, roster: Roster) {
    v.slot == slot && v.voter in roster.members && s.verify(v.voter, VoteMsg(slot, cmd), v.sig)
  }

  ghost function Signers(votes: seq<Vote>): set<Bytes32> {
    set i | 0 <= i < |votes| :: votes[i].voter
  }

  /** A certificate: every vote is valid, and the distinct signers reach the threshold. */
  ghost predicate QcValid(s: Scheme, votes: seq<Vote>, slot: U32, cmd: WireCommand, roster: Roster) {
    && (forall i :: 0 <= i < |votes| ==> VerifyVote(s, votes[i], slot, cmd, roster))
    && roster.quorum.Reached(|Signers(votes)|, |roster.members|)
  }

  method VerifyQc(s: Scheme, votes: seq<Vote>, slot: U32, cmd: WireCommand, roster: Roster) returns (r: bool)
    ensures r == QcValid(s, votes, slot, cmd, roster)
  {
    hide VerifyVote;
    var signers: seq<Bytes32> := [];
    for i := 0 to |votes|
      invariant forall j :: 0 <= j < i ==> VerifyVote(s, votes[j], slot, cmd, roster)
      invariant |signers| == |Signers(votes[..i])|
      invariant forall k :: k in signers <==> k in Signers(votes[..i])
    {
      if !VerifyVote(s, votes[i], slot, cmd, roster) { return false; }
      SignersMore(votes, i);
      if votes[i].voter !in signers {
        signers := signers + [votes[i].voter];
      }
    }
    assert votes[..|votes|] == votes;
    return roster.quorum.Reached(|signers|, |roster.members|);
  }

  lemma SignersMore(votes: seq<Vote>, i: nat)
    requires i < |votes|
    ensures Signers(votes[..i + 1]) == Signers(votes[..i]) + {votes[i].voter}
  {
  }

  method VerifyCommit(s: Scheme, c: Commitment, roster: Roster) returns (r: bool)
    ensures r == QcValid(s, c.votes, c.slot, c.cmd, roster)
  {
    r := VerifyQc(s, c.votes, c.slot, c.cmd, roster);
  }

  // ---------------------------------------------------------------------------
  // Keys and seats
  // ---------------------------------------------------------------------------

  /** The seats whose keys are in `ks`. */
  ghost function SeatsOf(members: seq<Bytes32>, ks: set<Bytes32>): set<nat> {
    set i: nat | i < |members| && members[i] in ks
  }

  /** On a roster without duplicates, keys and seats count alike. */
  lemma {:induction false} SeatsCard(members: seq<Bytes32>, ks: set<Bytes32>)
    requires Distinct(members) && forall k :: k in ks ==> k in members
    ensures |SeatsOf(members, ks)| == |ks|
  {
    if members == [] {
      assert ks == {} && SeatsOf(members, ks) == {};
    } else {
      var n := |members| - 1;
      var last, rest, more := members[n], members[..n], ks - {members[n]};
      forall k | k in more
        ensures k in rest
      {
        var j :| 0 <= j < |members| && members[j] == k;
        assert rest[j] == k;
      }
      SeatsCard(rest, more);
      SeatsMore(members, ks);
    }
  }

  lemma SeatsMore(members: seq<Bytes32>, ks: set<Bytes32>)
    requires members != [] && Distinct(members)
    ensures var n := |members| - 1;
      |SeatsOf(members, ks)| == |SeatsOf(members[..n], ks - {members[n]})| + if members[n] in ks then 1 else 0
  {
    var n := |members| - 1;
    var s, r := SeatsOf(members, ks), SeatsOf(members[..n], ks - {members[n]});
    forall i: nat
      ensures i in s <==> i in r || (i == n && members[n] in ks)
    {
      if i < n { assert members[..n][i] == members[i]; }
    }
    if members[n] in ks { assert s == r + {n}; } else { assert s == r; }
  }
}
