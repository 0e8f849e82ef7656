/** The frame codec of the authenticated protocol: every message as a tagged CBOR value whose
    terms and propositions are carried as their own encodings. */
module Codec {
  import opened Syntax
  import opened Cbor
  import opened Wire
  import opened Rsm
  import opened Proto
  import opened Auth

  /** A command whose encoded parts have 64-bit lengths, as they do in memory. */
  ghost predicate Carried(c: WireCommand) {
    |EncodeTerm(c.payload)| < 0x1_0000_0000_0000_0000
    && (c.cap.Some? ==> |EncodeProp(c.cap.value)| < 0x1_0000_0000_0000_0000)
  }

  type CarriedCommand = c: WireCommand | Carried(c) ghost witness SmallCommand()

  ghost function SmallCommand(): (c: WireCommand)
    ensures Carried(c)
  {
    Cmd(HOLE, None)
  }

  ghost predicate Carriable(m: Msg) {
    match m
    case MPropose(p) => Carried(p.cmd)
    case MVote(_) => true
    case MCommit(c) => Carried(c.cmd) && |c.votes| < 0x1_0000_0000_0000_0000
  }

  type Frame = m: Msg | Carriable(m) ghost witness MVote(Vote(seq(32, _ => 0), 0, seq(64, _ => 0)))

  // ---------------------------------------------------------------------------
  // Encoders
  // ---------------------------------------------------------------------------

  function EncCommand(c: CarriedCommand): Value {
    Array([ByteString(EncodeTerm(c.payload)),
      match c.cap case Some(p) => ByteString(EncodeProp(p)) case None => Null])
  }

  function EncCapability(c: Capability): Value { Array([ByteString(c.issuer), ByteString(c.sig)]) }

  function EncVote(v: Vote): Value { Array([ByteString(v.voter), Integer(v.slot), ByteString(v.sig)]) }

  function EncMsg(m: Frame): Value {
    match m
    case MPropose(p) =>
      Array([Integer(0), Array([ByteString(p.leader), Integer(p.slot), EncCommand(p.cmd), EncCapability(p.cap),
          ByteString(p.sig)])])
    case MVote(v) => Array([Integer(1), EncVote(v)])
    case MCommit(c) =>
      Array([Integer(2), Array([Integer(c.slot), EncCommand(c.cmd),
        Array(seq(|c.votes|, i requires 0 <= i < |c.votes| => EncVote(c.votes[i])))])])
  }

  function EncodeMsg(m: Frame): seq<U8> { Encode(EncMsg(m)) }

  // ---------------------------------------------------------------------------
  // Decoders
  // ---------------------------------------------------------------------------

  /** An array of exactly `n` items. */
  function Items(v: Value, n: nat): (r: Decoded<seq<Value>>)
    ensures r.Ok? ==> |r.value| == n
  {
    if v.Array? && |v.items| == n then Ok(v.items) else Err
  }

  /** Unlike the term codec, an integer out of range is refused. */
  function DecU32(v: Value): Decoded<U32> { if v.Integer? && 0 <= v.n < TWO32 then Ok(v.n) else Err }

  function Dec32(v: Value): Decoded<Bytes32> { if v.ByteString? && |v.bytes| == 32 then Ok(v.bytes) else Err }

  function Dec64(v: Value): Decoded<Bytes64> { if v.ByteString? && |v.bytes| == 64 then Ok(v.bytes) else Err }

  function DecCommand(v: Value, limit: nat): Decoded<WireCommand> {
    var a :- Items(v, 2);
    var p :- BytesOf(a[0]);
    var payload :- DecodeTerm(p, limit);
    DecodedFits(ReadValue(p, limit).value);
    if a[1].Null? then Ok(Cmd(payload, None)) else
    var b :- BytesOf(a[1]);
    var cap :- DecodeProp(b, limit);
    Ok(Cmd(payload, Some(cap)))
  }

  function DecCapability(v: Value): Decoded<Capability> {
    var a :- Items(v, 2);
    var issuer :- Dec32(a[0]);
    var sig :- Dec64(a[1]);
    Ok(Capability(issuer, sig))
  }

  function DecProposal(v: Value, limit: nat): Decoded<Proposal> {
    var a :- Items(v, 5);
    var leader :- Dec32(a[0]);
    var slot :- DecU32(a[1]);
    var cmd :- DecCommand(a[2], limit);
    var cap :- DecCapability(a[3]);
    var sig :- Dec64(a[4]);
    Ok(Proposal(leader, slot, cmd, cap, sig))
  }

  function DecVote(v: Value): Decoded<Vote> {
    var a :- Items(v, 3);
    var voter :- Dec32(a[0]);
    var slot :- DecU32(a[1]);
    var sig :- Dec64(a[2]);
    Ok(Vote(voter, slot, sig))
  }

  function DecVotes(s: seq<Value>): Decoded<seq<Vote>> {
    if s == [] then Ok([]) else
    var v :- DecVote(s[0]);
    var rest :- DecVotes(s[1..]);
    Ok([v] + rest)
  }

  function DecCommit(v: Value, limit: nat): Decoded<Commitment> {
    var a :- Items(v, 3);
    if !a[2].Array? then Err else
    var votes :- DecVotes(a[2].items);
    var slot :- DecU32(a[0]);
    var cmd :- DecCommand(a[1], limit);
    Ok(Commitment(slot, cmd, votes))
  }

  function DecodeMsg(b: seq<U8>, limit: nat): Decoded<Msg> {
    var v :- ReadValue(b, limit);
    var a :- Items(v, 2);
    var tag :- DecU32(a[0]);
    match tag
    case 0 => var p :- DecProposal(a[1], limit); Ok(MPropose(p))
    case 1 => var v :- DecVote(a[1]); Ok(MVote(v))
    case 2 => var c :- DecCommit(a[1], limit); Ok(MCommit(c))
    case _ => Err
  }

  // ---------------------------------------------------------------------------
  // Round trip
  // ---------------------------------------------------------------------------

  /** The payload and the capability of a command are read by readers of their own. */
  predicate CommandWithin(c: WireCommand, limit: nat) {
    TermDepth(c.payload) <= limit && (c.cap.Some? ==> PropDepth(c.cap.value) <= limit)
  }

  lemma {:induction false} CommandRoundTrip(c: CarriedCommand, limit: nat)
    ensures DecCommand(EncCommand(c), limit) == if CommandWithin(c, limit) then Ok(c) else Err
    ensures Sized(EncCommand(c)) && Depth(EncCommand(c)) == 1
  {
    hide EncodeTerm, DecodeTerm, EncodeProp, DecodeProp, Encodable, TermDepth, PropDepth, DepthAll;
    TermBytesRoundTrip(c.payload, [], limit);
    assert EncodeTerm(c.payload) + [] == EncodeTerm(c.payload);
    if c.cap.Some? {
      PropBytesRoundTrip(c.cap.value, [], limit);
      assert EncodeProp(c.cap.value) + [] == EncodeProp(c.cap.value);
    }
    DepthOf(EncCommand(c).items, 0, 0);
  }

  lemma {:induction false} VotesRoundTrip(votes: seq<Vote>, s: seq<Value>)
    requires |s| == |votes| && forall i :: 0 <= i < |votes| ==> s[i] == EncVote(votes[i])
    ensures DecVotes(s) == Ok(votes)
  {
    if votes != [] {
      assert s[0] == EncVote(votes[0]);
      VotesRoundTrip(votes[1..], s[1..]);
      assert [votes[0]] + votes[1..] == votes;
    }
  }

  /** How deep a frame is nested. */
  function FrameDepth(m: Msg): nat {
    match m case MPropose(_) => 3 case MVote(_) => 2 case MCommit(c) => if c.votes == [] then 3 else 4
  }

  predicate Within(m: Msg, limit: nat) {
    FrameDepth(m) <= limit && match m
      case MPropose(p) => CommandWithin(p.cmd, limit)
      case MVote(_) => true
      case MCommit(c) => CommandWithin(c.cmd, limit)
  }

  /** A frame encodes a message, fits the byte layer and is as deep as stated. */
  lemma {:induction false} FrameFits(m: Frame)
    ensures Sized(EncMsg(m)) && Depth(EncMsg(m)) == FrameDepth(m)
  {
    hide EncCommand, DepthAll, Depth, Carried, Encodable, CommandWithin;
    var body := EncMsg(m).items[1];
    LeafDepths(body);
    match m {
      case MPropose(p) =>
        CommandRoundTrip(p.cmd, 0);
        PairDepth(p.cap);
        assert Depth(body.items[3]) == 1;
        DepthOf(body.items, 1, 2);
      case MVote(v) =>
        DepthOf(body.items, 0, 0);
      case MCommit(c) =>
        CommandRoundTrip(c.cmd, 0);
        VotesFit(c.votes, body.items[2].items);
        assert Depth(body.items[1]) == 1;
        DepthOf(body.items, Depth(body.items[2]), 2);
    }
    ArraySized(body.items);
    ArrayDepth(body.items);
    ArraySized(EncMsg(m).items);
    LeafDepth(EncMsg(m).items[0]);
    DepthOf(EncMsg(m).items, Depth(body), 1);
    ArrayDepth(EncMsg(m).items);
  }

  lemma LeafDepths(v: Value)
    requires v.Array?
    ensures forall i :: 0 <= i < |v.items| && !v.items[i].Array? ==> Depth(v.items[i]) == 0
  {
    hide DepthAll;
  }

  lemma PairDepth(c: Capability)
    ensures Depth(EncCapability(c)) == 1 && Sized(EncCapability(c))
  {
    hide DepthAll;
    DepthOf(EncCapability(c).items, 0, 0);
    ArraySized(EncCapability(c).items);
  }

  lemma VotesFit(votes: seq<Vote>, s: seq<Value>)
    requires |s| == |votes| < 0x1_0000_0000_0000_0000 && forall i :: 0 <= i < |votes| ==> s[i] == EncVote(votes[i])
    ensures Sized(Array(s)) && Depth(Array(s)) == if votes == [] then 1 else 2
  {
    hide DepthAll;
    forall i | 0 <= i < |s|
      ensures Sized(s[i]) && Depth(s[i]) == 1
    {
      ArraySized(s[i].items);
      DepthOf(s[i].items, 0, 0);
    }
    DepthOf(s, if votes == [] then 0 else 1, 0);
  }

  /** Every message survives the frame codec, exactly when the frame, and the terms in it, are not
      nested deeper than the readers allow; so what its signatures cover does too: a receiver
      makes the same checks on the same message its sender made. */
  lemma {:induction false} MsgRoundTrip(m: Frame, tail: seq<U8>, limit: nat)
    ensures DecodeMsg(EncodeMsg(m) + tail, limit) == if Within(m, limit) then Ok(m) else Err
  {
    hide Encode, Decode, EncCommand, DecCommand, DecVotes, Encodable, Carried, CommandWithin, Depth, Sized;
    FrameFits(m);
    match m {
      case MPropose(p) => CommandRoundTrip(p.cmd, limit);
      case MVote(v) =>
      case MCommit(c) =>
        CommandRoundTrip(c.cmd, limit);
        VotesRoundTrip(c.votes, EncMsg(m).items[1].items[2].items);
    }
    RoundTrip(EncMsg(m), tail, limit);
  }

  /** Distinct messages have distinct frames, and none is a proper prefix of another. */
  lemma {:induction false} FramesDistinct(m: Frame, n: Frame, s: seq<U8>, t: seq<U8>)
    requires EncodeMsg(m) + s == EncodeMsg(n) + t
    ensures m == n && s == t
  {
    hide Encode, Decode, EncMsg, DecodeMsg, Within, Sized;
    FrameFits(m);
    FrameFits(n);
    PrefixFree(EncMsg(m), EncMsg(n), s, t);
    var limit := DeepEnough(m, n);
    MsgRoundTrip(m, s, limit);
    MsgRoundTrip(n, t, limit);
  }

  /** A limit that two messages are within. */
  lemma DeepEnough(m: Msg, n: Msg) returns (limit: nat)
    ensures Within(m, limit) && Within(n, limit)
  {
    hide TermDepth, PropDepth;
    limit := 4 + CommandDepth(m) + CommandDepth(n);
  }

  function CommandDepth(m: Msg): nat {
    match m
    case MPropose(p) => TermDepth(p.cmd.payload) + if p.cmd.cap.Some? then PropDepth(p.cmd.cap.value) else 0
    case MVote(_) => 0
    case MCommit(c) => TermDepth(c.cmd.payload) + if c.cmd.cap.Some? then PropDepth(c.cmd.cap.value) else 0
  }

  /** The protocol structures are read strictly: a value decodes to a vote, or a capability, only
      if it is that one's encoding. */
  lemma {:induction false} VoteExactly(v: Value, w: Vote)
    ensures DecVote(v) == Ok(w) <==> v == EncVote(w)
  {
    if v.Array? && |v.items| == 3 { assert v.items == [v.items[0], v.items[1], v.items[2]]; }
  }

  lemma {:induction false} CapabilityExactly(v: Value, c: Capability)
    ensures DecCapability(v) == Ok(c) <==> v == EncCapability(c)
  {
    if v.Array? && |v.items| == 2 { assert v.items == [v.items[0], v.items[1]]; }
  }

  /** The integer in front of every frame, and the order of a proposal's and a commit's fields. */
  lemma FrameFields(m: Frame)
    ensures EncMsg(m).Array? && |EncMsg(m).items| == 2
    ensures EncMsg(m).items[0] == Integer(match m case MPropose(_) => 0 case MVote(_) => 1 case MCommit(_) => 2)
    ensures EncMsg(m).items[1].Array?
    ensures m.MPropose? ==>
      && |EncMsg(m).items[1].items| == 5
      && EncMsg(m).items[1].items[..2] == [ByteString(m.p.leader), Integer(m.p.slot)]
      && EncMsg(m).items[1].items[3..] ==
        [Array([ByteString(m.p.cap.issuer), ByteString(m.p.cap.sig)]), ByteString(m.p.sig)]
    ensures m.MCommit? ==> |EncMsg(m).items[1].items| == 3 && EncMsg(m).items[1].items[0] == Integer(m.c.slot)
  {
    hide EncCommand;
  }

  /** A frame carries the very bytes of a command's parts that signatures are computed over. */
  lemma CarriedVerbatim(c: CarriedCommand)
    ensures EncCommand(c).Array? && |EncCommand(c).items| == 2
    ensures var payload, cap := EncCommand(c).items[0], EncCommand(c).items[1];
      && payload.ByteString? && (cap.ByteString? || cap.Null?)
      && CmdBytes(c) == payload.bytes + if cap.Null? then [0] else [1] + cap.bytes
  {
    hide EncodeTerm, EncodeProp;
  }

  /** The frame of a vote, byte by byte. */
  lemma VoteFrame(v: Vote)
    ensures EncodeMsg(MVote(v)) ==
      [0x82, 0x01, 0x83, 0x58, 0x20] + v.voter + Head(0, v.slot) + [0x58, 0x40] + v.sig
  {
    hide Encode, EncodeAll, Head;
    VoteHeads();
    ArrayBytes([Integer(1), EncVote(v)]);
    TwoItems(Integer(1), EncVote(v));
    ArrayBytes([ByteString(v.voter), Integer(v.slot), ByteString(v.sig)]);
    ThreeItems(ByteString(v.voter), Integer(v.slot), ByteString(v.sig));
    LeafBytes(1, v.voter);
    LeafBytes(v.slot, v.sig);
  }

  lemma VoteHeads()
    ensures Head(4, 2) == [0x82] && Head(4, 3) == [0x83] && Head(0, 1) == [0x01]
    ensures Head(2, 32) == [0x58, 0x20] && Head(2, 64) == [0x58, 0x40]
  {
    hide BigEndian;
    OneByte(32, [32]);
    OneByte(64, [64]);
  }
}
