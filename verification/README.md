# A proof-carrying authorization calculus and its replicated state machine

This project models, in Dafny 4.11, three parts of the repository and proves properties of them.

**The calculus.** Proof terms with 26 constructors and de Bruijn variables; `shift` and
`subst_at`; the deterministic call-by-name `step` and the fuelled reducer; the bottom-up type
checker `infer` with its additive and linear contexts. `Syntax` gives every term a uniform view
(its node and its children), so that most proofs treat the 26 constructors at once.

**The replicated state machine and its nodes.** `apply_prefix`, `deliver`, `world_step` and
`commit`; the counting loops that decide a ballot; rosters, capabilities, proposals, votes and
certificates; the authenticated node and the crash-protocol node, each a class whose methods are
proved equal to a function on node states. What is proved about runs is proved about those
functions. A network is the set of all messages ever sent: a node may receive any of them, in any
order, any number of times, or never.

**The codecs.** CBOR heads and values (RFC 8949, sections 3 and 4.2.1), the tagged term codec, the
keyring codec, the frame codec of the protocol, the byte strings that signatures cover, and the
verifier that reads a term off the wire.

Modules, each in the file of its name:

| modules | contents |
|---|---|
| `Syntax`, `Substitution`, `MachineIndex` | terms; the algebra of shifting and substitution; the same operations on 32-bit indices |
| `Reduction` | `step`, the reducer, what every run keeps, how steps commute with substitution |
| `Typing`, `Derivation`, `Safety` | `infer`, weakening, substitution; the typing rules as a relation, which `infer` decides; preservation and progress with their exact conditions |
| `Normalization`, `Divergence` | a logical relation proving termination, and a typed term that runs forever without its hypothesis |
| `NonInterference`, `Soundness` | two-run non-interference; a Boolean model of what is provable |
| `Cbor`, `Wire`, `Codec` | bytes, terms and keyrings, protocol frames |
| `Rsm`, `MachineCounter`, `Consensus`, `Proto` | the transition core, and the same on 32-bit counters; quorums; signed messages, rosters and certificates |
| `Commands` | what applying commands computes, and when it reaches a normal form |
| `Auth`, `AuthSafety`, `AuthRound`, `Overtaking` | the authenticated node; when its certificates verify; when a round decides; a run where a certificate does not verify |
| `Credentials` | who signed what before a node proposes or votes |
| `Agreement`, `Disagreement`, `Cluster` | agreement under Byzantine faults and its exact condition; clusters with a static leader |
| `CrashNode`, `CrashCluster`, `CrashRound` | the crash-protocol node and its clusters; when a round decides |
| `Verifier` | exactly what the verifier accepts |

## What holds, and where it stops

Each of these is a theorem; where it states a limit, a counterexample is proved beside it.

- The redex a step fires keeps its type exactly when it is not a `SaysBind` (`RedexPreservation`);
  the whole term keeps its type when it is not one (`Preservation`), and may or may not when it is
  (`BindKeepsOuterType`, `TypingSaysBind`). `infer` types a bind `p says b`, but its redex reduces
  to a term of type `b`; a run that fires one can get stuck (`BindGetsStuck`) and can end on a
  classified input (`BindExposesInput`).
- `infer` pushes the two hypotheses of a `LetTensor` on the linear context, where a variable cannot
  reach them, while reduction binds indices 0 and 1. `TensorRedex` gives the two readings of the
  body, `TensorRedexChangesType` a body on which they differ, `LoopDiverges` a closed term of type
  `Top` on which the reducer spends any fuel, and `TensorExposesInput` a term of type `Top` that
  steps to a classified input. The preservation, normalization and non-interference theorems are
  therefore about terms without `LetTensor`; substitution, progress, the codec and Boolean
  soundness cover it.
- Normalization holds with binds allowed: the relation reads `p says a` as `a`.
- The comment at `Attenuate` in the type checker names a side condition that the code does not
  check. `AttenuationProvesAnything` shows that with it every proposition has a closed proof;
  without it every inferred proposition is true in the Boolean model (`Soundness`).
- The majority test in 32-bit arithmetic is the intended one exactly on fewer than 2^31 seats, and
  the two-thirds test exactly on at most 0x55555555 (`MajorityExactly`, `TwoThirdsExactly`). Above,
  the majority test only refuses more than it should, and so does the two-thirds test below 2^31
  seats (`NoWrap`); on 2^31 seats one vote passes it (`ByzantineWraps`).
- A leader's certificate verifies exactly when no commit was accepted since its proposal was begun
  (`LeaderCertificates`, over every run on logs shorter than 2^32). `OvertakenRun` is a run where
  one was: the certificate it broadcasts is invalid, and the leader has already appended the
  command it does not certify.
- Followers agree, whatever they are fed, exactly when no slot they can reach is backed for two
  commands by its honest voters and the faulty seats (`AgreementExactly`). With at most a third of
  the seats faulty and one vote per slot of every honest seat none is (`ByzantineAgreement`).
- A node keeps no record of its votes, and `verify_proposal` accepts a proposal of any member: a
  node votes once per slot exactly when it is handed acceptable proposals of one command only
  (`VotesOnceExactly`). One faulty seat of four can hand it two and split the followers
  (`OneFaultySplits`), although the documentation of the Byzantine threshold speaks of an honest
  seat as voting once. Under an honest leader running this code it is other members' conflicting
  proposals that must be kept out (`RivalsDecide`, `StaticLeaderAgreement`).
- `applied` is a 32-bit counter. With it the replicated state machine is the unbounded one exactly
  until a counter would reach 2^32 (`RunExactly`), and the drain after a commit ends exactly while
  the appended log is shorter than 2^32 (`CommitDrains`): with the next entry the counter wraps to
  0 (`CounterWraps`). No node therefore ever finishes handling a commit that makes its log 2^32
  entries long, and the bound in the cluster theorems excludes nothing a node reaches.
- The cluster theorem has no injected commits, because a node accepts a valid one from anyone
  (`InjectedCommit`); `AgreementExactly` says when followers agree with them.
- A round (a request, the proposal to every peer, the votes of the followers that respond, and the
  commit) decides exactly when the leader and those followers reach the threshold, in either
  protocol (`CrashRound.RoundExactly`, `AuthRound.RoundExactly`).
- The token format of the draft asks verifiers to reject bytes that are not in canonical form. The
  verifier does not look at the form: it gives any bytes the verdict of the canonical encoding of
  the term it reads in them (`JudgesTheTerm`), and `NonCanonicalAccepted` is a token it accepts
  although a head in it is not the shortest. Signatures cover the canonical bytes in any case.
- The reader's limit on nesting is a parameter of the codecs and of the verifier, and what they do
  is stated for every limit (`RoundTrip`, `MsgRoundTrip`, `AcceptsExactly`).

Signatures are an abstract scheme of three functions. No theorem assumes that it is unforgeable,
except those that state it of particular signatures: in `Agreement` and `Disagreement`, a valid
signature of an honest member on a vote that was seen, or that the member cast, is on something it
signed; in `Credentials` (and `Cluster.LogIssued`) the same of the capabilities and proposals a
node is handed, and in `Verifier.AcceptedBodies` of the signatures in a token.

## Model

| member | source | states |
|---|---|---|
| Syntax.Extensional | crates/dlc-core/src/syntax.rs:57-165 | a term is determined by its node (constructor and annotations) and its children, over all 26 constructors |
| Substitution.ShiftNode | crates/dlc-core/src/subst.rs:18-128 | shifting moves the free variables at or above the cutoff and nothing else, and raises the cutoff by exactly the binders of each child: one in `Lam`, `Case`, `SaysBind` and `LetSays`, two in `LetTensor` |
| Substitution.SubstNode | crates/dlc-core/src/subst.rs:137-233 | substitution replaces the index it aims at by the lifted value, lowers the indices above it, keeps those below, and follows the same binders |
| Substitution.ShiftMerge | crates/dlc-core/src/subst.rs:18-128 | two shifts are one when the second's cutoff lies in the gap the first opened |
| Substitution.ShiftCommute | crates/dlc-core/src/subst.rs:18-128 | two shifts at different cutoffs commute, the higher cutoff moving up |
| Substitution.ShiftSubstBelow | crates/dlc-core/src/subst.rs:137-233 | a shift below the substituted index moves that index |
| Substitution.ShiftSubstAbove | crates/dlc-core/src/subst.rs:137-233 | a shift above the substituted index shifts body and value |
| Substitution.SubstCancel | crates/dlc-core/src/subst.rs:137-233 | substituting into a gap opened by a shift only closes the gap by one: the value does not matter |
| Substitution.SubstCompose | crates/dlc-core/src/subst.rs:137-233 | the composition law of capture-avoiding substitution, for all depths j <= k and all 26 constructors |
| Substitution.SimultaneousCons | crates/dlc-core/src/subst.rs:133-233 | substituting one more term after a simultaneous substitution is the simultaneous substitution of one more term |
| Substitution.TensorContraction | crates/dlc-core/src/reduce.rs:70-84 | the two nested substitutions of a tensor contraction are the simultaneous substitution of the first component for index 0 and the second for index 1 |
| Substitution.SubstScoped | crates/dlc-core/src/subst.rs:137-233 | substituting a term of scope k for an index j of a term of scope j + k + 1 gives scope j + k: no variable escapes its binder |
| MachineIndex.ShiftAgrees | crates/dlc-core/src/subst.rs:18-128 | with u32 variables and cutoffs and an i32 delta, shifting is the natural-number operation when indices after the shift and depths stay within 32 bits |
| MachineIndex.SubstAgrees | crates/dlc-core/src/subst.rs:137-233 | so is `subst_at`, whose depth is cast to i32, when the depth reached stays below 2^31 and the value's indices at that depth within 32 bits |
| MachineIndex.MachineSubst | crates/dlc-core/src/subst.rs:133-233 | `subst` on machine indices equals `subst` on unbounded ones whenever the value's largest index and the binder depth of body and value together stay below 2^31 |
| MachineIndex.Parting | crates/dlc-core/src/subst.rs:24-33 | at the bounds the operations differ: an index wraps to 0, and a value placed at depth 2^31 is left unshifted by the fallback for negative shifts |
| MachineIndex.ShiftBack | crates/dlc-core/src/subst.rs:18-35 | a negative shift undoes a positive one, within the 32-bit bounds |
| Reduction.StepCases | crates/dlc-core/src/reduce.rs:36-190 | a step is a head rule if the evaluated position holds an introduction form, a step in that position otherwise, and none for every other term |
| Reduction.BindingRules | crates/dlc-core/src/reduce.rs:37-84 | what an application, a case and a tensor elimination step to when they meet the introduction form |
| Reduction.ModalRules | crates/dlc-core/src/reduce.rs:86-125 | a bind or an elimination under p opens a signature of p and of no other principal |
| Reduction.SignedRules | crates/dlc-core/src/reduce.rs:122-150 | a delegation re-attributes the second signature to the two principals acting together and drops the first; an extraction opens any signature |
| Reduction.ReduceWithFuel | crates/dlc-core/src/reduce.rs:196-205 | the loop returns the term reached and the steps taken, at most the fuel, and stops early only on a normal term |
| Reduction.ReduceMore | crates/dlc-core/src/reduce.rs:196-205 | fuel adds up: running out of fuel and going on is one run with the fuels added |
| Reduction.StepSubst | crates/dlc-core/src/reduce.rs:36-190 | a step commutes with substituting any term for any index, delegation and tensor contraction included |
| Reduction.StepEvery | crates/dlc-core/src/reduce.rs:36-190 | a step keeps every property of nodes that holds of the annotations reduction itself creates |
| Reduction.RunInventsNothing | crates/dlc-core/src/reduce.rs:196-205 | over any number of steps, the obligations and the signatures in the result all occur in the start term |
| Reduction.RunScoped | crates/dlc-core/src/reduce.rs:196-205 | over any number of steps, no free variable is introduced; closed terms stay closed |
| Typing.InferAlike | crates/dlc-core/src/decide.rs:47-335 | outside variables and tensor eliminations, a node's type is determined by the types of its children, under whatever hypothesis the node binds |
| Derivation.InferExactly | crates/dlc-core/src/decide.rs:47-335 | `infer` returns a proposition if and only if the typing rules, one per constructor and stated as a relation, derive it; so the delegation credential, the principal of `Verify` and `SfExtract`, the target of `Declassify` and the credential of `Command` are all checked, and a term has at most one type |
| Derivation.SplicedExactly | crates/dlc-core/src/decide.rs:108-135 | chains are not spliced: under a credential that q speaks for p, what r signed is delegated to p acting with r if and only if r is q |
| Derivation.DecidePure | crates/dlc-core/src/decide.rs:37-43 | the decision procedure answers yes if and only if the rules derive the proposition |
| Typing.Weakening | crates/dlc-core/src/decide.rs:47-335 | inserting hypotheses anywhere in the additive context leaves the type of the accordingly shifted term unchanged, in both directions |
| Typing.Substituting | crates/dlc-core/src/decide.rs:47-335 | replacing the hypothesis at any depth by a term of its type leaves the type unchanged, and untypability too |
| Safety.Preservation | crates/dlc-core/src/reduce.rs:36-190 | subject reduction: a step of a typed term free of tensor eliminations keeps the type, unless the redex it fires is a bind |
| Safety.TypingSaysBind | crates/dlc-core/src/reduce.rs:86-105 | a contracted bind goes from `p says b` to exactly `b` |
| Safety.RedexPreservation | crates/dlc-core/src/reduce.rs:36-190 | the redex a step fires is typed, and contracting it keeps its type if and only if it is not a bind |
| Safety.TensorRedex | crates/dlc-core/src/decide.rs:256-263 | a tensor redex is typed by reading its body with both hypotheses linear, and reduces to a term typed by reading it with both additive |
| Safety.TensorRedexChangesType | crates/dlc-core/src/decide.rs:256-263 | a tensor redex whose contraction has another type |
| Safety.CanonicalForms | crates/dlc-core/src/decide.rs:47-335 | a typed introduction form is the one its type calls for |
| Safety.Progress | crates/dlc-core/src/reduce.rs:36-190 | a typed term in any context is normal if and only if it is an introduction form or its evaluation waits on a variable or on a form that is never computed |
| Safety.ClosedProgress | crates/dlc-core/src/reduce.rs:36-190 | without hypotheses and without `Verify`, `Attenuate` and `Declassify`, a typed term (binds and tensor eliminations included) is normal if and only if it is an introduction form |
| Safety.BindGetsStuck | crates/dlc-core/src/reduce.rs:86-125 | a closed typed term that one bind step leads to a stuck term |
| Safety.BindKeepsOuterType | crates/dlc-core/src/reduce.rs:86-125 | a step that fires a bind and keeps the type of the whole term |
| Safety.RunPreservation | crates/dlc-core/src/reduce.rs:196-205 | runs of terms without binds and tensor eliminations keep types |
| Safety.TypeSafety | crates/dlc-core/src/reduce.rs:196-205 | a run of a closed computational term keeps its type, and one that stops before its fuel has reached the introduction form of that type |
| Normalization.RelExpand | crates/dlc-core/src/reduce.rs:36-190 | the logical relation is closed under expansion: a term that steps into it belongs to it |
| Normalization.Fundamental | crates/dlc-core/src/decide.rs:47-335 | every typed term free of tensor eliminations, binds included, under related substitutions for its hypotheses belongs to the relation at its type |
| Normalization.TypedHalts | crates/dlc-core/src/reduce.rs:36-190 | evaluation of a typed term free of tensor eliminations halts, in any additive context |
| Normalization.Normalization | crates/dlc-core/src/reduce.rs:196-205 | there are a number of steps n and a normal form v such that any fuel of at least n returns (v, n), and any less is used up |
| Normalization.Canonicity | crates/dlc-core/src/reduce.rs:196-205 | a closed computational term evaluates to the introduction form of its type, at that type |
| Normalization.Consistency | crates/dlc-core/src/decide.rs:47-335 | no closed computational term has type `Bot`, an atom, a speaks-for or a linear arrow |
| Divergence.LoopCycles | crates/dlc-core/src/reduce.rs:70-84 | five steps bring the looping term back to itself |
| Divergence.LoopDiverges | crates/dlc-core/src/reduce.rs:196-205 | a closed term that `infer` types `Top` and that uses up any fuel |
| NonInterference.StuckSubst | crates/dlc-core/src/decide.rs:170-184 | a stuck typed term other than the classified hypothesis stays stuck whatever replaces that hypothesis |
| NonInterference.Lockstep | crates/dlc-core/src/reduce.rs:196-205 | a core term whose type is not `@` runs in lockstep with its open form, whatever replaces its classified hypothesis |
| NonInterference.TwoRuns | crates/dlc-core/src/reduce.rs:196-205 | for any fuel, the runs on any two classified inputs take equally many steps and end at the same node |
| NonInterference.BindExposesInput | crates/dlc-core/src/reduce.rs:86-105 | with a bind, a term whose type is not `@` can run as the classified input itself |
| NonInterference.TensorExposesInput | crates/dlc-core/src/reduce.rs:70-84 | with a tensor elimination, a term of type `Top` can step to the classified input itself |
| Soundness.Soundness | crates/dlc-core/src/decide.rs:47-335 | what `infer` proves without `Attenuate`, from additive and linear hypotheses true in a valuation, is true in it |
| Soundness.Unprovable | crates/dlc-core/src/decide.rs:47-335 | so no closed attenuation-free term proves `Bot`, an atom or a speaks-for, nor anything some valuation falsifies |
| Soundness.AttenuationProvesAnything | crates/dlc-core/src/decide.rs:137-147 | the type checker accepts any target of an attenuation: with one, every proposition has a closed proof |
| Cbor.HeadRoundTrip | crates/dlc-protocol/src/wire.rs:530-548 | reading a shortest-form head gives back its major type and argument and leaves the bytes after it |
| Cbor.HeadShortest | crates/dlc-protocol/src/wire.rs:530-536 | no shorter byte string reads as the same major type and argument |
| Cbor.IntegerExamples | crates/dlc-protocol/src/wire.rs:530-536 | the encodings that RFC 8949, Appendix A gives for integers of every head width |
| Cbor.RoundTrip | crates/dlc-protocol/src/wire.rs:530-548 | decoding inverts encoding of every value kind used, whatever bytes follow, if and only if arrays are nested no deeper than the reader's limit |
| Cbor.PrefixFree | crates/dlc-protocol/src/wire.rs:530-548 | encodings are injective and none is a proper prefix of another |
| Wire.PrincipalRoundTrip | crates/dlc-protocol/src/wire.rs:293-319 | decoding inverts encoding for every principal |
| Wire.LabelRoundTrip | crates/dlc-protocol/src/wire.rs:321-325 | and for every label |
| Wire.ObligationRoundTrip | crates/dlc-protocol/src/wire.rs:341-362 | and for every obligation |
| Wire.PropRoundTrip | crates/dlc-protocol/src/wire.rs:364-410 | and for all 14 kinds of proposition |
| Wire.TermRoundTrip | crates/dlc-protocol/src/wire.rs:420-522 | and for all 26 kinds of term with 32-bit indices, through the narrowing casts |
| Wire.DecodedFits | crates/dlc-protocol/src/wire.rs:420-522 | any value that decodes at all gives a term whose indices fit 32 bits, so it can be encoded again |
| Wire.TermBytesRoundTrip | crates/dlc-protocol/src/wire.rs:530-548 | `decode` inverts `encode`, whatever bytes follow, if the term's encoding is within the reader's nesting limit, and returns an error otherwise |
| Wire.PropBytesRoundTrip | crates/dlc-protocol/src/wire.rs:559-570 | `decode_prop` inverts `encode_prop` likewise |
| Wire.TermBytesInjective | crates/dlc-protocol/src/wire.rs:552-557 | the canonical bytes of a term determine the term and where they end |
| Wire.PropBytesInjective | crates/dlc-protocol/src/wire.rs:559-565 | so do those of a proposition |
| Wire.TokenBytes | test-vectors/phase1-vectors.json:8 | the bytes of a token of one signature, for every principal and signature, are those of the first test vector |
| Wire.ClaimBytes | test-vectors/phase1-vectors.json:8 | so are those of its claim |
| Wire.TermTags | crates/dlc-protocol/src/wire.rs:152-252 | the integer in front of every kind of term, which must never be renumbered |
| Wire.SubtermsInOrder | crates/dlc-protocol/src/wire.rs:152-252 | the subterms of every term are encoded in the order of the syntax, at the end of the array but for a trailing signature, target or label |
| Wire.PropTags | crates/dlc-protocol/src/wire.rs:101-143 | the integer in front of every kind of proposition, and the order of two-sided ones |
| Wire.Narrowing | crates/dlc-protocol/src/wire.rs:265-284 | malformed input: integers are narrowed to their low-order bits, unknown kinds are refused, and an array too short for its kind is indexed out of bounds |
| Wire.RowExactly | crates/dlc-protocol/src/wire.rs:598-625 | a value is read as a keyring row if and only if it is that row's encoding: three fields, a 32-byte principal and an 8-bit algorithm |
| Wire.DecodeKeyRing | crates/dlc-protocol/src/wire.rs:592-627 | the loop decodes the rows in order and fails on the first bad one |
| Wire.KeyRingRoundTrip | crates/dlc-protocol/src/wire.rs:574-627 | an encoded keyring decodes to that keyring under every nesting limit of at least two, or one if it is empty, and to an error otherwise |
| Rsm.ApplyPrefix | crates/dlc-core/src/rsm.rs:203-209 | the loop computes the meaning of the log |
| Rsm.WorldStep | crates/dlc-core/src/rsm.rs:238-248 | the loop gives every replica its next delivery, in place and order, and leaves log and budget alone |
| Rsm.RunConsistent | crates/dlc-core/src/rsm.rs:203-265 | with counters that do not wrap, as on logs shorter than 2^32 (`MachineCounter.RunExactly`): every interleaving of commits and world steps keeps `applied` at most the log length and `store = apply_prefix(init, log[..applied])`, keeps identities, only appends to the log and never lowers `applied` |
| Rsm.Convergence | crates/dlc-core/src/rsm.rs:203-265 | with counters that do not wrap, as on logs shorter than 2^32: at every point of every run, replicas with equal `applied` hold equal stores, and one that is ahead has applied the missing commands to the other's store |
| MachineCounter.RunExactly | crates/dlc-core/src/rsm.rs:217-265 | with the 32-bit `applied` counter, a run is the unbounded run if and only if no counter of the latter reaches 2^32; in particular while the log is shorter than 2^32 |
| MachineCounter.Convergence32 | crates/dlc-core/src/rsm.rs:217-265 | on machine counters and logs shorter than 2^32, every replica holds the meaning of the prefix it counts, counters never fall, and equal counters mean equal stores |
| MachineCounter.DrainEndsExactly | crates/dlc-d-node/src/auth.rs:318-323 | the drain loop ends if and only if the log is shorter than 2^32 |
| MachineCounter.CommitDrains | crates/dlc-d-node/src/lib.rs:300-306 | the drain of a commit on a caught-up node ends if and only if the appended log is shorter than 2^32, and then after one round in the view the unbounded model gives |
| MachineCounter.CounterWraps | crates/dlc-core/src/rsm.rs:217-226 | delivering the entry that makes the log 2^32 long applies it and sets the counter to 0 |
| Rsm.AppliedSplit | crates/dlc-core/src/rsm.rs:203-209 | the meaning of a log is compositional |
| Commands.ApplyFunction | crates/dlc-core/src/rsm.rs:186-189 | a payload that is a function takes the store to its body with the store in place of the parameter, run on the 1023 steps that are left |
| Commands.AppliedTyped | crates/dlc-core/src/rsm.rs:186-209 | over any log of core payloads that map stores of a type to stores of that type, the store keeps that type |
| Commands.ApplyExactly | crates/dlc-core/src/rsm.rs:186-189 | applying such a command reaches a normal form if and only if evaluation takes at most 1024 steps, and then the one any more fuel reaches |
| Commands.ApplyCanonical | crates/dlc-core/src/rsm.rs:186-189 | without hypotheses and frozen forms the new store is normal if and only if it is the introduction form of its type |
| Rsm.AppliedScoped | crates/dlc-core/src/rsm.rs:186-209 | closed payloads and a closed initial store give a closed store |
| Rsm.CommitOnLog | crates/dlc-core/src/rsm.rs:217-265 | a commit followed by one world step leaves a caught-up view caught up, one entry longer and consistent |
| Rsm.Assemble | crates/dlc-d-node/src/lib.rs:322-334 | the nested loops concatenate the replicas of all views and take log and budget of the first |
| Rsm.AssembledNodes | crates/dlc-d-node/src/lib.rs:322-334 | assembling one view per node gives each node's replica at its place |
| Rsm.AllReplicasConcat | crates/dlc-d-node/src/lib.rs:322-334 | assembling two groups of views in a row puts the replicas of the second after those of the first |
| Rsm.AssembleCommutes | crates/dlc-d-node/src/lib.rs:310-334 | when the views share their log, stepping the nodes one by one is the world step of their assembly |
| Consensus.Count | crates/dlc-d-rsm/src/consensus.rs:56-67 | the counting loop returns the number of seats that voted for the command, in wrapping 32-bit arithmetic |
| Consensus.Decided | crates/dlc-d-rsm/src/consensus.rs:56-68 | `decided` is the majority test of that number |
| Consensus.ByzDecided | crates/dlc-d-rsm/src/consensus.rs:79-92 | `byz_decided` is its two-thirds test |
| Consensus.NoWrap | crates/dlc-d-rsm/src/consensus.rs:23-41 | the wrapping thresholds are a majority whose double fits 32 bits and, on fewer than 2^31 seats, a two-thirds majority whose triple does |
| Consensus.MajorityExactly | crates/dlc-d-rsm/src/consensus.rs:23-25 | the majority test is the intended one if and only if there are fewer than 2^31 seats |
| Consensus.TwoThirdsExactly | crates/dlc-d-rsm/src/consensus.rs:39-41 | the two-thirds test is the intended one if and only if there are at most 0x55555555 seats |
| Consensus.ByzantineWraps | crates/dlc-d-rsm/src/consensus.rs:39-41 | on 2^31 seats one vote passes the Byzantine test |
| Consensus.DecidedMeansQuorum | crates/dlc-d-rsm/src/consensus.rs:56-92 | a decision holds if and only if all seats of some majority, or two-thirds majority, voted for the command and the multiplied tally fits 32 bits |
| Consensus.QuorumsIntersect | crates/dlc-d-rsm/src/consensus.rs:28-41 | majorities intersect; two-thirds majorities share more than a third of the seats, hence a seat outside any set of at most a third |
| Consensus.OneDecision | crates/dlc-d-rsm/src/consensus.rs:56-92 | at most one command is decided on a ballot, under either threshold |
| Proto.CmdBytesInjective | crates/dlc-d-node/src/proto.rs:54-64 | the bytes of a command determine its payload and its capability slot |
| Proto.Unambiguous | crates/dlc-d-node/src/proto.rs:43-84 | across capability, proposal and vote messages, the signed bytes determine the kind, the slot and the command |
| Proto.Domains | crates/dlc-d-node/src/proto.rs:45-47 | the three domain strings |
| Proto.SignedFields | crates/dlc-d-node/src/proto.rs:54-84 | after its domain a signed vote or proposal holds its slot, least significant byte first, and then the command; a capability the command at once |
| Proto.WithQuorum | crates/dlc-d-node/src/proto.rs:145-154 | a roster is built if and only if no member is listed twice |
| Proto.IndexOf | crates/dlc-d-node/src/proto.rs:184-186 | a key has a seat if and only if it is a member, and the seat holds that key |
| Proto.VerifyQc | crates/dlc-d-node/src/proto.rs:336-364 | the loop accepts if and only if every vote is valid for slot and command and the distinct signers reach the roster's threshold |
| Proto.VerifyCommit | crates/dlc-d-node/src/proto.rs:372-374 | a commit is accepted if and only if its certificate is valid for its slot and command |
| Proto.SeatsCard | crates/dlc-d-node/src/proto.rs:125-186 | on a roster without duplicates, a set of member keys and the set of their seats have the same size |
| Credentials.IssuedAccepted | crates/dlc-d-node/src/proto.rs:256-266 | with a correct scheme a capability is accepted for the command it was issued for |
| Credentials.AcceptedIssued | crates/dlc-d-node/src/proto.rs:264-266 | and, if its signature is not forged, for no other: an accepted capability was issued by its issuer for that very command |
| Credentials.AcceptedProposed | crates/dlc-d-node/src/proto.rs:283-297 | an accepted proposal whose signatures are not forged is a member's, who proposed that command for that slot, with a capability issued for that command |
| Auth.AuthNode.New | crates/dlc-d-node/src/auth.rs:105-138 | a node is made if and only if its seed is its seat's key, and starts with an empty log, an empty ballot and nothing in flight |
| Auth.AuthNode.Submit | crates/dlc-d-node/src/auth.rs:188-211 | new state and messages of a submission: ignored unless leader, idle and capable; otherwise proposed, with the leader's own vote recorded |
| Auth.AuthNode.Handle | crates/dlc-d-node/src/auth.rs:214-252 | new state and messages of each kind of message, with its slot and validity checks |
| Auth.AuthNode.RecordVote | crates/dlc-d-node/src/auth.rs:256-314 | new state and messages of a vote: the ballot and the vote list grow together, and a decision clears both, extends the log and broadcasts the certificate |
| Auth.AuthNode.ApplyCommit | crates/dlc-d-node/src/auth.rs:318-323 | the drain loop ends with the command appended and the whole log applied, as it does exactly while the appended log is shorter than 2^32 (`MachineCounter.CommitDrains`) |
| Credentials.RefusesUnsigned | crates/dlc-d-node/src/auth.rs:188-228 | a submission without the issuer's signature on the command, and a proposal for another slot, of a non-member, or without its or the issuer's signature, change nothing and get no answer |
| Credentials.AnswersSigned | crates/dlc-d-node/src/auth.rs:188-228 | with them an idle leader broadcasts its proposal to its peers, and a node sends its vote to the leader |
| Credentials.VotesJustified | crates/dlc-d-node/src/auth.rs:188-228 | over any run a node signs a vote only for what it was asked for, or offered by a member, with the signatures that go with it |
| Credentials.VotesAuthorized | crates/dlc-d-node/src/auth.rs:188-228 | so if the capabilities it was handed are not forged, some issuer issued that command |
| AuthRound.TakesVote | crates/dlc-d-node/src/auth.rs:256-314 | the vote of one more seat decides if and only if the voters with it reach the threshold; else the leader waits with it added |
| AuthRound.RoundExactly | crates/dlc-d-node/src/auth.rs:188-323 | a round with any set of responding followers, on any roster of at most 0x55555555 seats, decides if and only if the leader and they reach the threshold; then the leader and they have the command appended and applied, otherwise no log changes |
| AuthSafety.RunKeeps | crates/dlc-d-node/src/auth.rs:188-323 | over any run a node keeps its identity and its failure budget |
| AuthSafety.TalliesAgree | crates/dlc-d-node/src/auth.rs:275-295 | the index tally that decides and the distinct-signer tally of the certificate agree |
| AuthSafety.RecordMatches | crates/dlc-d-node/src/auth.rs:275-283 | recording a vote keeps exactly one collected vote per filled ballot seat; a repeated signer changes nothing |
| AuthSafety.RecordedSafe | crates/dlc-d-node/src/auth.rs:256-314 | a recorded vote keeps the proposal in flight sound, or decides exactly that proposal for the next slot with a valid certificate |
| AuthSafety.DecidesExactly | crates/dlc-d-node/src/auth.rs:285-295 | a valid vote decides the proposal in flight, overtaken or not, if and only if the distinct signers, with the new one, reach the roster's threshold |
| AuthSafety.SoloDecides | crates/dlc-d-node/src/auth.rs:185-211 | with a correct scheme, a committee of one decides on submission: log extended, proposal and a valid commit sent |
| AuthSafety.QuietCertificates | crates/dlc-d-node/src/auth.rs:188-314 | over every sequence of submissions and arbitrary proposals and votes, with no commit delivered, the votes in flight are valid, one per filled seat, and every commit sent passes `verify_commit`, under either threshold |
| AuthSafety.LeaderCertificates | crates/dlc-d-node/src/auth.rs:188-323 | over every sequence of events, commits included: a commit sent passes `verify_commit` if no commit was accepted since its proposal was begun, and, for a node `new` accepts and a log shorter than 2^32, only then; its command is appended either way |
| AuthSafety.OvertakenCertificate | crates/dlc-d-node/src/auth.rs:256-314 | a recorded vote keeps the proposal begun at log length n, whatever slots its votes are for, or decides and appends it; the certificate is valid if and only if n is still the length of the log |
| AuthSafety.CommitOvertakes | crates/dlc-d-node/src/auth.rs:244-250 | accepting a commit moves the slot on and leaves a proposal in flight with votes for the old slot |
| Overtaking.OvertakenRun | crates/dlc-d-node/src/auth.rs:244-309 | a run of a leader of five (a submission, a valid commit for its slot, two votes for the next slot) that appends the submitted command and broadcasts a certificate that mixes the slots and is invalid |
| Agreement.SentIsSigned | crates/dlc-d-node/src/auth.rs:188-252 | every proposal and vote a node sends carries its own signature on what it is recorded to have signed |
| Agreement.FollowerLog | crates/dlc-d-node/src/auth.rs:214-252 | after any events, every log entry of a non-leader has a valid certificate for its slot made of votes it was sent, and its store is the meaning of its log |
| Agreement.HonestVoted | crates/dlc-d-node/src/proto.rs:309-347 | an honest seat whose vote is in a certificate did vote for the certified command at that slot |
| Agreement.CertifiedBacked | crates/dlc-d-node/src/proto.rs:309-347 | a command certified with unforged votes is backed: the honest seats that voted for it and the faulty seats together reach the threshold |
| Agreement.OneBacked | crates/dlc-d-node/src/proto.rs:92-118 | with tolerable faults and one vote per honest seat, at most one command is backed for a slot |
| Agreement.NoConflict | crates/dlc-d-node/src/proto.rs:336-374 | two valid certificates for one slot certify one command, within the faults the roster tolerates and with one vote per honest seat |
| Agreement.UncontestedAgreement | crates/dlc-d-node/src/auth.rs:214-252 | where no position of the shorter log can be filled with two backed commands, two non-leader nodes fed arbitrary messages without forged votes have agreeing logs and stores; no bound on faults and no assumption on votes |
| Agreement.ByzantineAgreement | crates/dlc-d-node/src/auth.rs:214-252 | in particular with at most a third of the seats faulty and honest seats voting once per slot: logs agree on their common length, stores at equal length |
| Agreement.VotedTaken | crates/dlc-d-node/src/auth.rs:188-228 | over a run, a node signs a vote if and only if it takes up that submission, or is handed that acceptable proposal for its next slot |
| Agreement.VotesOnceExactly | crates/dlc-d-node/src/auth.rs:188-228 | a node votes once per slot if and only if the proposals it takes for one slot are for one command |
| Agreement.CommitteeAgreement | crates/dlc-d-node/src/auth.rs:188-323 | agreement where honest seats run this code and what they sign is what their runs sign: it is enough that none takes proposals of two commands for one slot |
| Agreement.VotesForEveryProposal | crates/dlc-d-node/src/auth.rs:219-228 | handed two acceptable proposals for its next slot, a node signs votes for both |
| Agreement.ProposesOnce | crates/dlc-d-node/src/auth.rs:188-211 | a node proposes at most one command per slot, whatever it is handed |
| Agreement.VotesFollowLeader | crates/dlc-d-node/src/auth.rs:219-228 | a node handed only the leader's proposals votes only for what the leader proposed |
| Agreement.OnlyLeaderConcur | crates/dlc-d-node/src/auth.rs:219-228 | so what is handed to such a node meets the condition of `StaticLeaderAgreement` |
| Agreement.RivalsDecide | crates/dlc-d-node/src/auth.rs:219-228 | when the leader proposes once per slot, a node takes one command per slot if and only if no proposal of another member that it takes conflicts with one it takes for that slot |
| Agreement.StaticLeaderAgreement | crates/dlc-d-node/src/auth.rs:188-323 | with an honest leader running this code, followers agree if no honest seat takes another member's proposal that conflicts with one it takes for that slot; other members may propose |
| Disagreement.BackedCertified | crates/dlc-d-node/src/proto.rs:299-364 | what is backed can be certified, with the votes of its backers |
| Disagreement.AgreementExactly | crates/dlc-d-node/src/auth.rs:214-252 | given what the honest seats signed, two followers agree whatever they are fed without forged votes, on logs shorter than 2^32, if and only if no position such a log can fill has two backed commands |
| Disagreement.OneFaultySplits | crates/dlc-d-node/src/auth.rs:219-250 | four seats, the two-thirds threshold, an honest leader and one faulty seat that proposes two commands: the three honest seats vote for both in their runs, and two followers end with different logs |
| Cluster.InvNext | crates/dlc-d-node/src/auth.rs:188-323 | every move of the cluster (a client request, a delivery, an injected proposal or vote) keeps its invariant |
| Cluster.ClusterSafety | crates/dlc-d-node/src/auth.rs:188-323 | at every point of every run: each log is a prefix of the leader's, each store the meaning of its log, and each logged command was requested with a capability whose signature is its issuer's on the capability message of that very command, and is certified by a quorum of distinct seats |
| Cluster.LogIssued | crates/dlc-d-node/src/auth.rs:188-323 | if the capabilities handed in are not forged, every logged command was issued by the issuer of one of them |
| Cluster.InjectedCommit | crates/dlc-d-node/src/auth.rs:244-250 | a valid commit that the leader never sent puts a follower one entry ahead of the leader, which is why the cluster theorem excludes injected commits |
| CrashNode.Node.Submit | crates/dlc-d-node/src/lib.rs:208-227 | new state and messages of a submission to the crash-protocol node |
| CrashNode.Node.Handle | crates/dlc-d-node/src/lib.rs:230-270 | new state and messages of each kind of message |
| CrashNode.Node.DecideIfQuorum | crates/dlc-d-node/src/lib.rs:278-292 | decides exactly when the ballot holds a quorum for the command, clearing ballot and proposal and broadcasting the commit |
| CrashNode.Node.ApplyCommit | crates/dlc-d-node/src/lib.rs:300-306 | the drain loop ends with `applied` equal to the log length, as it does exactly while the appended log is shorter than 2^32 (`MachineCounter.CommitDrains`) |
| CrashRound.HandledExactly | crates/dlc-d-node/src/lib.rs:230-270 | a follower handed a proposal for its next slot sends the leader its vote; a node handed a commit for it has the log one entry longer, all applied; anything for another slot changes nothing |
| CrashRound.TallyDecides | crates/dlc-d-node/src/lib.rs:278-292 | the seats that voted for the command in flight decide it if and only if they are a majority |
| CrashRound.VoteAnswered | crates/dlc-d-node/src/lib.rs:242-260 | a vote decides if and only if the distinct seats that voted, its own included, are a majority |
| CrashRound.RoundExactly | crates/dlc-d-node/src/lib.rs:208-306 | a round with any set of responding followers decides if and only if the leader and they are a majority; then the leader and they have the command appended and applied, otherwise no log changes |
| CrashCluster.DecidedElects | crates/dlc-d-node/src/lib.rs:278-292 | a decided ballot names a majority of seats that voted, for the command in flight |
| CrashCluster.InvRequest | crates/dlc-d-node/src/lib.rs:208-227 | a submission keeps the cluster invariant |
| CrashCluster.InvReceive | crates/dlc-d-node/src/lib.rs:230-306 | a delivery keeps the cluster invariant |
| CrashCluster.CrashSafety | crates/dlc-d-node/src/lib.rs:208-306 | at every point of every run: all messages ever sent for a slot are for the one command decided or in flight there, no two proposals for a slot differ, every log is a wholly applied prefix of the leader's, and every command in it was voted for by a majority |
| Codec.CommandRoundTrip | crates/dlc-d-node/src/codec.rs:88-111 | a command survives being carried as the bytes of its payload and capability, if and only if both are within the readers' nesting limit |
| Codec.MsgRoundTrip | crates/dlc-d-node/src/codec.rs:210-234 | `decode_msg` inverts `encode_msg` if frame, payload and capability are within the readers' nesting limit, so a receiver checks the message that was sent, and returns an error otherwise |
| Codec.FramesDistinct | crates/dlc-d-node/src/codec.rs:210-219 | distinct messages have distinct frames, and none is a proper prefix of another |
| Codec.VoteExactly | crates/dlc-d-node/src/codec.rs:159-177 | a value is read as a vote if and only if it is that vote's encoding |
| Codec.CapabilityExactly | crates/dlc-d-node/src/codec.rs:117-133 | and as a capability likewise |
| Codec.FrameFields | crates/dlc-d-node/src/codec.rs:117-219 | the integer in front of every kind of frame, and the order of the fields of a proposal and a commit |
| Codec.CarriedVerbatim | crates/dlc-d-node/src/codec.rs:85-96 | a frame carries the very bytes of payload and capability that signatures are computed over |
| Codec.VoteFrame | crates/dlc-d-node/src/codec.rs:159-219 | the frame of a vote, byte by byte |
| Verifier.RowOf | crates/dlc-crypto/src/signed_term.rs:35-39 | the row found is one of the principal's, and none is found only if there is none |
| Verifier.SignedExactly | crates/dlc-crypto/src/signed_term.rs:24-44 | a signing node verifies if and only if its principal is atomic, the first ring row of it has algorithm 0 and a 32-byte key, the signature has algorithm 0 and 64 bytes, and the scheme verifies it under that key over the encoding of the body |
| Verifier.WalkMeansSigned | crates/dlc-verifier/src/check.rs:82-152 | the walk succeeds if and only if at every signing node of every position, under binders and in evidence, policies and credentials, the scheme verifies the signature over the encoding of its body under the first ring key of its atomic principal, with the right algorithms and lengths |
| Verifier.AcceptsExactly | crates/dlc-verifier/src/check.rs:33-75 | the verifier accepts the encoding of a term if and only if it is within the reader's nesting limit, the typing rules derive the claim and the scheme verifies the signature of every signing node over the encoding of its body; it always answers, and bytes after the term do not matter |
| Verifier.AcceptedBodies | crates/dlc-verifier/src/check.rs:82-87 | so if the signatures in it are not forged, the holder of the first ring key of each signing principal signed that body and no other |
| Verifier.AbortsExactly | crates/dlc-protocol/src/wire.rs:256-522 | it fails to answer if and only if decoding indexes an array out of bounds, as on the bytes of an empty array; bytes that do not decode are refused |
| Verifier.JudgesTheTerm | crates/dlc-verifier/src/check.rs:33-75 | bytes that read as a term get the verdict of its canonical encoding |
| Verifier.NonCanonicalAccepted | draft-ietf/draft-crisp-dlc-token-00.xml:167-175 | a token not in canonical form that the verifier accepts, against the draft |
| Verifier.AcceptedIsTrue | crates/dlc-verifier/src/check.rs:33-75 | whatever bytes are accepted, if the term in them attenuates nothing the claim is true wherever the assumptions are |

## Left out

- `shift` with a negative delta: modelled only in `MachineIndex.Shift32`; the algebra takes delta as a natural number, as every caller in the reducer does.
- Preservation and normalization through `LetTensor`, and preservation through `SaysBind`: false of the code, as the counterexamples above show. Contexts with exactly one linear hypothesis are excluded from the typed metatheory, because there a variable changes meaning when the additive context grows.
- Signature validity under reduction: a delegation re-labels a signature with a composite principal, and a substitution changes signed bodies; only that no signature is invented is proved.
- The reducer's fuel and step counts are natural numbers, not 32-bit ones; so is `applied` outside `MachineCounter`.
- Auth.AuthNode.ApplyCommit: counts in natural numbers, so its loop ends for every log; on the 32-bit counter it ends exactly while the appended log is shorter than 2^32 (`MachineCounter.CommitDrains`), and the counter's overflow check in debug builds is not modelled.
- CrashNode.Node.ApplyCommit: the same.
- Reduction of terms whose indices outgrow 32 bits: `MachineIndex` relates single substitutions, not whole runs.
- Consensus.DecidedMeansQuorum: says nothing of ballots of 2^32 seats or more, whose length the code truncates, nor of `byz_decided` on 2^31 or more, where the threshold itself has wrapped; overflow checks of debug builds are not modelled.
- AuthSafety.LeaderCertificates: that an overtaken certificate is invalid is stated for logs shorter than 2^32, the only ones with which a node of the program answers at all. Nothing is stated of a node with 2^32 applied entries, a state its 32-bit counter cannot hold.
- Ed25519, SHA-256 and COSE: an abstract scheme stands for them. `debug_assert!` on a freshly built certificate holds when `LeaderCertificates` says so; that a debug build stops otherwise is not modelled.
- CBOR items the codecs never write (floats, tags, text, maps, indefinite lengths): this reader refuses them. The library's own nesting limit is not part of this model; it is a parameter.
- Wire.Narrowing: gives examples of malformed input and what becomes of them, not the exact set of inputs that index an array out of bounds; error texts are not modelled.
- Agreement.ByzantineAgreement: assumes one vote per slot of every honest seat, which the code does not enforce; without it agreement fails (`Disagreement.OneFaultySplits`), and `Disagreement.AgreementExactly` gives the exact condition.
- Agreement.CommitteeAgreement: assumes that no honest seat takes proposals of two commands for one slot, for the same reason; by `VotesOnceExactly` that is one vote per slot.
- Codec.MsgRoundTrip: for commands whose encodings, and vote lists, are shorter than 2^64, as in memory.
- `DpBudget`, `Label::join` and the budget arithmetic of `FailureBudget`: saturating additions and small lattice laws.
- `verify` without assumptions and the accessors of the nodes: one-line wrappers of what is modelled.
- `capability` membership by 32-bit hash, time anchors, transparency and replay stubs, the procedural macros and phantom types: easy or unimplemented.
- The tokio and network layers, the command line, the demos, the WebAssembly wrapper and the benchmarks: input and output.
- Liveness beyond a single round, and leader rotation: the code has no view change and sends nothing again.
