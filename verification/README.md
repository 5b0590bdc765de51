# The wire codec and the worker pool, verified

This project models two parts of the repository and proves what they are for.

**The protobuf codec of the generated Go files.**  Every message has a size pass, a marshaller that fills a
buffer from its end towards its front, and a decoder loop that merges into its receiver and skips what it
does not know.  `Wire.dfy` gives the meaning of that format on byte sequences: varints, tags, payloads, the
skip loop, and one decoding loop that takes the `switch` of a message as a parameter (`Codec`).
`WireCode.dfy` holds the loops themselves, over arrays and with 64-bit wrap-around, and ties each to its
meaning.  `Varints`, `Decoding`, `Groups` and `Fields` prove the theorems that hold for every message:
minimality and round trip of varints, concatenation is merge, encoded fields decode to themselves, skipping
is parsing a recursive grammar, and what keeps re-encoding from growing.  `Occurrences` says what a decoded
message owes to the fields of its input, without running the decoder; each message has a lemma `...Reads` of
that kind, for every input and every receiver.  `Layouts` says which bytes are written, tag byte by tag byte.
`Conformance` compares the skip function with a reader that checks group numbers.  The other files
instantiate them, values first and the mutable Go structs after (`...Objects.dfy`):

| file | messages |
|---|---|
| `Proofs`, `ProofObjects` | `Proof`, `ValueOp`, `ProofOp`, `ProofOps` |
| `StateSync`, `StateSyncObjects` | the oneof `Message` with its four members, `Wrap` and `Unwrap` |
| `Consensus`, `ConsensusObjects` | `NewRoundStep`, `HasVote`, over the 32-bit fields of `Int32` |
| `Canonical`, `CanonicalObjects`, `CanonicalGrowth` | the sign-bytes messages |
| `Keys` | `PublicKey`: order, equality, oneof codec |
| `Params` | `ValidatorParams` and the generator of unknown fields |

**The benchmark's worker pool.**  `WorkerPool.dfy` is a state machine over first-in-first-out mailboxes, with
the pool's own class beside it; which worker computes or delivers next is left open, and a worker may lose
its mailboxes.  `PoolProofs.dfy` proves conservation, accounting of promises and fairness for every run;
`PoolSafety.dfy` says exactly in which states, and `PoolCalls.dfy` for which calls, matching replies by id
settles every promise with its own verdict.

The reading guide for a method: its `ensures` equates the new state with a function of the old one
(`Decode(codec, receiver, input)`, `Put(buffer, end, encoding)`, `Next(state, action)`), and the lemmas named
below say what those functions mean.

## Findings

- Decoding and writing again can make a message longer, for three reasons, each with its exact condition.
  A negative `int32` may be sent in five bytes and is written in ten (`Consensus.NewRoundStepGrowsIff`,
  `HasVoteGrowsIff`, witness `NewRoundStepCanGrow`).  The header of a `CanonicalBlockID` is a struct and is
  written even when it is empty (`CanonicalGrowth.BlockIDGrowsIff`).  The timestamp of a `CanonicalVote` or
  `CanonicalProposal` is always written; these also have an `int32` and a block id
  (`CanonicalGrowth.VoteGrowsIff`, `ProposalGrowsIff`).  No other message modelled here can grow: the proof
  messages, the part set header, the vote extension, the state sync messages, `PublicKey` and
  `ValidatorParams` (the lemmas named `...Reencodes`).
- `PublicKey` payloads nil and empty are equal for `Compare` and `Equal`, but only the empty one is encoded.
- The generator of unknown fields cuts the field number to 29 bits.  What is left decides: 0 makes a field
  that decoders refuse, and a number the message knows makes one that they read (`Params.RandFieldIgnoredIff`,
  witnesses in `UnknownFieldsNotIgnored`).
- With two workers, calls under one id with payloads of different verdicts may be answered with each other's
  verdict (`PoolSafety.SameIdGoesWrong`).  `PoolSafety.SafeIff` gives the exact condition on a state, and
  `PoolCalls.CallsRightIffUnambiguous` the one on the calls.
- The skip function closes a group under any field number, and accepts field number 0 inside a group
  (`Conformance.UnmatchedGroupsAreSkipped`); `Conformance.StackAgreesIffMatched` says exactly which records
  a stricter reader would refuse.

## Model

| member | source | states |
|---|---|---|
| `Bits.GroupsOfSeven` | proto/tendermint/crypto/proof.pb.go:569-578 | masking with 0x7f, shifting by 7 and setting the continuation bit of a 64-bit word are remainder, quotient and an addition of 128 |
| `Bits.OrIsAddition` | proto/tendermint/crypto/proof.pb.go:702 | for every shift the decoder reaches, or-ing a group of seven bits into what was read so far is an addition modulo 2^64, the tenth group included |
| `Bits.OrIsAddition32` | proto/tendermint/consensus/types.pb.go:1867 | the same for a 32-bit variable: up to bit 31 the or is an addition modulo 2^32 |
| `Bits.GroupsBeyond32` | proto/tendermint/consensus/types.pb.go:1867 | a group shifted beyond bit 31 has no low bits, so it leaves a 32-bit variable as it is |
| `Bits.TagParts` | proto/tendermint/crypto/proof.pb.go:705-706 | `wire >> 3` and `wire & 0x7` are quotient and remainder by 8 |
| `Varints.SovIsVarintLength` | proto/tendermint/crypto/proof.pb.go:679-681 | the formula built on `Len64` is the number of bytes the encoder writes, for every number |
| `Varints.VarintLength64` | proto/tendermint/crypto/proof.pb.go:569-579 | a 64-bit value takes between 1 and 10 bytes |
| `Varints.VarintRoundTrip` | proto/tendermint/crypto/proof.pb.go:689-704 | reading what the encoder wrote gives the value back and stops right behind it, whatever bytes follow |
| `Varints.SovIsMinimal` | proto/tendermint/crypto/proof.pb.go:679-681 | no accepted spelling of a value, overlong or truncated at 64 bits, is shorter than the reserved size |
| `Varints.VarintRejected` | proto/tendermint/crypto/proof.pb.go:690-703 | a varint overflows exactly when ten bytes in a row have the continuation bit, and is cut short exactly when the slice ends before a byte without it; it is refused in no other case |
| `Varints.VarintMeaning` | proto/tendermint/crypto/proof.pb.go:689-704 | a varint is read exactly when one of the first ten bytes is the first without the continuation bit, and means the sum of the seven-bit groups up to there modulo 2^64, in any spelling |
| `Layouts.VarintDigits` | proto/tendermint/crypto/proof.pb.go:569-579 | byte i of a written varint is group i of the number, the lowest first, with the continuation bit on all but the last |
| `Layouts.LittleDigits` | proto/tendermint/types/canonical.pb.go:669-680 | byte i of a written fixed64 is byte i of the number, the lowest first |
| `Varints.LittleOfBytes` | proto/tendermint/types/canonical.pb.go:1503-1512 | any eight bytes are the little-endian bytes of the number read from them |
| `Varints.Fixed64RoundTrip` | proto/tendermint/types/canonical.pb.go:669-674 | the eight little-endian bytes of a fixed64 read back to the value |
| `Wire.Next` | proto/tendermint/crypto/proof.pb.go:686-713 | every round of a decoding loop that succeeds moves by at least one byte and stays inside the slice, and a known field has the wire type its case insists on |
| `Wire.SkipOne` | proto/tendermint/crypto/proof.pb.go:1343-1407 | every round of the skip loop that succeeds moves forward |
| `WireCode.PutMeans` | proto/tendermint/crypto/proof.pb.go:368-400 | what it means to put bytes in front of an index: they end there, and nothing else in the buffer changes |
| `WireCode.EncodeVarint` | proto/tendermint/crypto/proof.pb.go:569-579 | the in-place writer puts exactly the encoding in front of `offset`, returns where it starts, and touches nothing else |
| `WireCode.WriteVarint` | proto/tendermint/crypto/proof.pb.go:389-398 | a non-zero integer is written as tag and two's-complement varint, zero as nothing, in front of `i` |
| `WireCode.WriteBytes` | proto/tendermint/crypto/proof.pb.go:382-388 | a non-empty bytes field is written as tag, length and contents in front of `i`, an empty one not at all |
| `WireCode.WriteRepeated` | proto/tendermint/crypto/proof.pb.go:373-381 | walking the list from its end writes the elements in list order, empty ones included |
| `WireCode.WriteFixed` | proto/tendermint/types/canonical.pb.go:669-680 | a non-zero sfixed64 is written as tag and eight bytes, negative values included |
| `WireCode.WriteBool` | proto/tendermint/statesync/types.pb.go:673-682 | true is written as tag and 1, false as nothing |
| `WireCode.DecodeVarint` | proto/tendermint/crypto/proof.pb.go:689-704 | the shift loop, accumulating in 64 or 32 bits, computes the varint reader: same value modulo the width, same next index, same error |
| `WireCode.DecodeTag` | proto/tendermint/crypto/proof.pb.go:690-713 | reads the tag, refuses an end group first and then a field number that `int32` makes 0 or negative |
| `WireCode.DecodeLength` | proto/tendermint/crypto/proof.pb.go:756-780 | under 64-bit wrap-around the two sign checks and the bound accept a payload exactly when it lies inside the slice |
| `WireCode.DecodeFixed64` | proto/tendermint/types/canonical.pb.go:1503-1512 | reads eight little-endian bytes or reports that they are not there |
| `WireCode.SkipRecord` | proto/tendermint/crypto/proof.pb.go:1339-1416 | the loop with the depth counter computes `Skip`, for every byte string, and refuses an end beyond the range of `int` |
| `WireCode.OneStride` | proto/tendermint/crypto/proof.pb.go:1343-1410 | one round of that loop, with its 64-bit wrap-around and the negative-index check |
| `WireCode.SkipCase` | proto/tendermint/crypto/proof.pb.go:818-830 | the default case skips the whole record from its tag on, or fails, with the bounds check of the caller |
| `WireCode.VarintCase` | proto/tendermint/crypto/proof.pb.go:714-732 | a varint case: wire type checked first, then the value, next index, or the error |
| `WireCode.Varint32Case` | proto/tendermint/consensus/types.pb.go:1853-1871 | the same into a 32-bit variable, which keeps the low 32 bits |
| `WireCode.BytesCase` | proto/tendermint/crypto/proof.pb.go:752-785 | a length-delimited case: wire type checked first, then exactly the payload and the index behind it |
| `WireCode.FixedCase` | proto/tendermint/types/canonical.pb.go:1503-1512 | a fixed64 case |
| `Decoding.NextStable` | proto/tendermint/crypto/proof.pb.go:686-831 | a round that does not run out of input answers the same when more bytes follow |
| `Decoding.SkipStable` | proto/tendermint/crypto/proof.pb.go:1339-1416 | neither does the skip function depend on what follows a complete record |
| `Decoding.TagRefused` | proto/tendermint/crypto/proof.pb.go:707-717 | which tags are refused, in which order and with which error, by every decoder, whatever follows |
| `Decoding.LengthRefused` | proto/tendermint/crypto/proof.pb.go:768-780 | a length is refused as negative exactly when it is so as an `int`, and as too long exactly when bytes are missing |
| `Decoding.DecodeConcat` | proto/tendermint/crypto/proof.pb.go:685-838 | for every message: if `a` decodes, decoding `a ++ b` into a receiver is decoding `a` and then `b` into the result |
| `Decoding.DecodeErrorStays` | proto/tendermint/crypto/proof.pb.go:685-838 | every error but running out of input is final: no continuation is accepted |
| `Decoding.ReceiverDoesNotMatter` | proto/tendermint/crypto/proof.pb.go:685-838 | if no case of the switch looks at the receiver to refuse its field, an input is accepted by all receivers or refused by all with the same error |
| `Decoding.ConcatOfFresh` | proto/tendermint/crypto/proof.pb.go:685-838 | then inputs that each decode into a fresh message decode one behind the other into any receiver, as if decoded in turn |
| `Decoding.RecordRoundTrip` | proto/tendermint/crypto/proof.pb.go:686-831 | a round reads back exactly the field that was written, behind any receiver and before any bytes |
| `Decoding.DecodeEncode` | proto/tendermint/crypto/proof.pb.go:685-838 | decoding encoded fields followed by anything runs the switch over those fields in order and then goes on |
| `Decoding.NextNotShorter` | proto/tendermint/crypto/proof.pb.go:686-831 | no spelling of a field is shorter than the one the marshaller writes |
| `Decoding.DecodeDoesNotGrow` | proto/tendermint/crypto/proof.pb.go:685-838 | if no case of the switch adds more to the message than its field was long, no input decodes to more than its own length |
| `Occurrences.DecodeIsFold` | proto/tendermint/crypto/proof.pb.go:685-838 | an input is accepted exactly when its known fields can be listed and the switch accepts them all, and the result is what the switch makes of the list |
| `Occurrences.ParseConcat` | proto/tendermint/crypto/proof.pb.go:685-838 | the fields of a concatenation are those of its parts |
| `Occurrences.LastOneWins` | proto/tendermint/crypto/proof.pb.go:685-838 | one more field behind an accepted input is the last of its number; every other number keeps the last it had |
| `Occurrences.OthersCommute` | proto/tendermint/crypto/proof.pb.go:839-958 | accepted fields other than a merged one leave it alone and do not depend on it |
| `Occurrences.OccurrencesMerge` | proto/tendermint/crypto/proof.pb.go:931-936 | for every decoder that merges a nested message: two occurrences, however spelled, with other fields between and behind, decode like one occurrence of the concatenated payloads in place of the first |
| `Groups.SkipTree` | proto/tendermint/crypto/proof.pb.go:1339-1416 | a record of the recursive grammar is consumed whole at any open depth |
| `Groups.SkipIffRecord` | proto/tendermint/crypto/proof.pb.go:1339-1416 | the iterative depth counter stops at `n` exactly when the first `n` bytes are one record of the recursive grammar: varint, 8 bytes, length-delimited, 4 bytes, or a group of records closed under any number |
| `Groups.RecordIsUnique` | proto/tendermint/crypto/proof.pb.go:1339-1416 | a slice starts with at most one record |
| `Conformance.TreeIsUnique` | proto/tendermint/crypto/proof.pb.go:1339-1416 | the grammar is unambiguous: two records with the same bytes are the same record |
| `Conformance.TreePrefix` | proto/tendermint/crypto/proof.pb.go:1339-1416 | and two records that start the same slice are the same |
| `Conformance.StackAgreesIffMatched` | proto/tendermint/crypto/proof.pb.go:1396-1402 | on every record the depth counter and a reader with a stack of the open groups' numbers agree if and only if all numbers are positive and every group ends under its own number; otherwise the counter takes the record and the stack refuses it |
| `Conformance.StackIffMatchedRecord` | proto/tendermint/crypto/proof.pb.go:1339-1416 | the stack reader stops at `n` exactly when the first `n` bytes are such a matched record |
| `Conformance.StackIsStricter` | proto/tendermint/crypto/proof.pb.go:1396-1402 | whatever the stack reader takes, at any nesting, the counter takes |
| `Conformance.UnmatchedGroupsAreSkipped` | proto/tendermint/crypto/proof.pb.go:1396-1402 | two inputs that are skipped although their numbers do not match: a group opened as 1 and closed as 2, and a field number 0 inside a group |
| `Groups.SkipOfRecord` | proto/tendermint/crypto/proof.pb.go:1339-1416 | a record is skipped whatever follows |
| `Groups.UnknownRecordIsTransparent` | proto/tendermint/crypto/proof.pb.go:818-831 | splicing a record of an unknown field, nested groups included, at a field boundary of an accepted prefix changes nothing, whatever message and whatever follows |
| `Fields.SignedRoundTrip` | proto/tendermint/crypto/proof.pb.go:728 | an int64 comes back from its two's-complement varint, and an int32 from its sign-extended one |
| `Fields.Conversions` | proto/tendermint/crypto/proof.pb.go:705 | the conversions of the model change a number by a multiple of the width only |
| `Fields.Narrowing` | proto/tendermint/consensus/types.pb.go:1867 | an int32 variable ends up with the low 32 bits read as signed, a uint32 with the low 32 bits |
| `Proofs.ProofReads` | proto/tendermint/crypto/proof.pb.go:685-838 | for every input and receiver: total, index and leaf hash are those of the last field of their number, explicit zeros and empty bytes (then empty, not nil) included, or else stay; aunts are appended in order; the input is refused exactly for its first field that cannot be read |
| `Proofs.ValueOpReads` | proto/tendermint/crypto/proof.pb.go:839-958 | accepted exactly when the fields can be read and every `Proof` payload is accepted by itself; the key is the last one, and all payloads are decoded as one into the sub-message that was there or a new one |
| `Proofs.ProofOpReads` | proto/tendermint/crypto/proof.pb.go:1105-1254 | every field is the last one of its number, or else stays |
| `Proofs.ProofOpsReads` | proto/tendermint/crypto/proof.pb.go:1255-1338 | accepted exactly when the fields can be read and every op is accepted; the ops are appended in order, each decoded afresh |
| `Layouts.ProofLayout` | proto/tendermint/crypto/proof.pb.go:368-400 | the bytes written: fields ascending, tags 0x08, 0x10, 0x1a, 0x22, zeros and empty bytes left out, empty aunts not |
| `Layouts.ValueOpLayout` | proto/tendermint/crypto/proof.pb.go:417-442 | tags 0x0a and 0x12, an absent `Proof` left out, an empty one not |
| `Layouts.ProofOpLayout` | proto/tendermint/crypto/proof.pb.go:503-530 | tags 0x0a, 0x12, 0x1a |
| `Layouts.ProofOpsLayout` | proto/tendermint/crypto/proof.pb.go:547-567 | tag 0x0a for every op |
| `Proofs.ProofMergesInto` | proto/tendermint/crypto/proof.pb.go:685-838 | decoding an encoded Proof into any receiver merges it: set scalars and a non-empty leaf hash win, aunts are appended in order |
| `Proofs.ProofRoundTrip` | proto/tendermint/crypto/proof.pb.go:368-400 | every Proof, any aunts, empty ones included, decodes from its own bytes, up to nil against empty leaf hash |
| `Proofs.ValueOpMergesInto` | proto/tendermint/crypto/proof.pb.go:839-958 | an encoded ValueOp is merged too, its Proof into the sub-message already there |
| `Proofs.ValueOpRoundTrip` | proto/tendermint/crypto/proof.pb.go:417-442 | every ValueOp decodes from its own bytes, an absent Proof staying absent and an empty one present |
| `Proofs.ProofOccurrencesMerge` | proto/tendermint/crypto/proof.pb.go:931-936 | in any input, two occurrences of the `Proof` field, however spelled, with other accepted fields between them and anything behind, decode like one occurrence of the concatenated payloads in place of the first, even if the second is malformed |
| `Proofs.ValueOpIsBlind` | proto/tendermint/crypto/proof.pb.go:839-958 | whether a ValueOp input is accepted does not depend on the receiver, nor on the sub-message it is merged into |
| `Proofs.ProofOpsIsBlind` | proto/tendermint/crypto/proof.pb.go:1255-1338 | the same for lists of ops |
| `Proofs.ProofOpMergesInto` | proto/tendermint/crypto/proof.pb.go:1105-1254 | decoding an encoded ProofOp into any receiver merges it |
| `Proofs.ProofOpRoundTrip` | proto/tendermint/crypto/proof.pb.go:503-530 | every ProofOp decodes from its own bytes |
| `Proofs.ProofOpsMergesInto` | proto/tendermint/crypto/proof.pb.go:1255-1338 | decoding an encoded list appends its ops in order |
| `Proofs.ProofOpsRoundTrip` | proto/tendermint/crypto/proof.pb.go:547-567 | every list of ops decodes from its own bytes, order kept |
| `Proofs.ProofSizeIsLength` | proto/tendermint/crypto/proof.pb.go:580-603 | the size pass counts exactly the bytes of the encoding |
| `Proofs.ValueOpSizeIsLength` | proto/tendermint/crypto/proof.pb.go:605-620 | the same for ValueOp |
| `Proofs.ProofOpSizeIsLength` | proto/tendermint/crypto/proof.pb.go:643-662 | the same for ProofOp |
| `Proofs.ProofReencodes` | proto/tendermint/crypto/proof.pb.go:685-838 | whatever input decodes to a Proof, the Proof's own encoding is no longer and decodes to the same Proof, up to nil against empty leaf hash |
| `Proofs.ValueOpReencodes` | proto/tendermint/crypto/proof.pb.go:839-958 | the same for ValueOp, merged sub-messages included |
| `Proofs.ProofOpsReencodes` | proto/tendermint/crypto/proof.pb.go:1255-1338 | the same for a list of ops |
| `ProofObjects.Proof.Size` | proto/tendermint/crypto/proof.pb.go:580-603 | returns the exact length of the encoding of the object's value |
| `ProofObjects.Proof.MarshalToSizedBuffer` | proto/tendermint/crypto/proof.pb.go:368-400 | fills exactly the last Size() bytes of the slice with the encoding, leaves every other byte of the buffer as it was, and returns their number |
| `ProofObjects.Proof.Marshal` | proto/tendermint/crypto/proof.pb.go:353-361 | the new buffer is exactly the encoding, from index 0 |
| `ProofObjects.Proof.Unmarshal` | proto/tendermint/crypto/proof.pb.go:685-838 | terminates on every input and agrees with the merging decoder: same receiver on success, same error |
| `ProofObjects.ValueOp.Size` | proto/tendermint/crypto/proof.pb.go:605-620 | returns the exact length of the encoding of the object's value |
| `ProofObjects.ValueOp.MarshalToSizedBuffer` | proto/tendermint/crypto/proof.pb.go:417-442 | fills exactly the last Size() bytes of the slice with the encoding, leaves every other byte of the buffer as it was, and returns their number |
| `ProofObjects.ValueOp.Marshal` | proto/tendermint/crypto/proof.pb.go:402-410 | the new buffer is exactly the encoding, from index 0 |
| `ProofObjects.ValueOp.Unmarshal` | proto/tendermint/crypto/proof.pb.go:839-958 | terminates on every input and agrees with the merging decoder: same receiver on success, same error |
| `ProofObjects.ProofOp.Size` | proto/tendermint/crypto/proof.pb.go:643-662 | returns the exact length of the encoding of the object's value |
| `ProofObjects.ProofOp.MarshalToSizedBuffer` | proto/tendermint/crypto/proof.pb.go:503-530 | fills exactly the last Size() bytes of the slice with the encoding, leaves every other byte of the buffer as it was, and returns their number |
| `ProofObjects.ProofOp.Unmarshal` | proto/tendermint/crypto/proof.pb.go:1105-1254 | terminates on every input and agrees with the merging decoder: same receiver on success, same error |
| `ProofObjects.ProofOps.Size` | proto/tendermint/crypto/proof.pb.go:664-677 | returns the exact length of the encoding of the object's value |
| `ProofObjects.ProofOps.MarshalToSizedBuffer` | proto/tendermint/crypto/proof.pb.go:547-567 | fills exactly the last Size() bytes of the slice with the encoding, leaves every other byte of the buffer as it was, and returns their number |
| `ProofObjects.ProofOps.Marshal` | proto/tendermint/crypto/proof.pb.go:532-540 | the new buffer is exactly the encoding, from index 0 |
| `ProofObjects.ProofOps.Unmarshal` | proto/tendermint/crypto/proof.pb.go:1255-1338 | terminates on every input and agrees with the merging decoder: same receiver on success, same error |
| `ProofObjects.ValueOp.UnmarshalField` | proto/tendermint/crypto/proof.pb.go:845-950 | one round of the loop is one step of the merging decoder: receiver, next index, error |
| `ProofObjects.ValueOp.UnmarshalProof` | proto/tendermint/crypto/proof.pb.go:931-936 | allocates the sub-message only if it is nil, and otherwise decodes into the one that is there |
| `StateSync.SnapshotsResponseReads` | proto/tendermint/statesync/types.pb.go:1103-1277 | for every input and receiver, every field is the last one of its number, explicit zeros and empty bytes included, or else stays |
| `StateSync.ChunkRequestReads` | proto/tendermint/statesync/types.pb.go:1278-1384 | the same for ChunkRequest |
| `StateSync.ChunkResponseReads` | proto/tendermint/statesync/types.pb.go:1385-1545 | the same for ChunkResponse; `missing` is whether the last number under 5 is not 0 |
| `StateSync.MessageReads` | proto/tendermint/statesync/types.pb.go:863-1051 | accepted exactly when every member is accepted by itself, replaced ones too; what is left is the last member, decoded afresh |
| `Layouts.SnapshotsResponseLayout` | proto/tendermint/statesync/types.pb.go:578-613 | the bytes written: fields ascending, tags 0x08, 0x10, 0x18, 0x22, 0x2a |
| `Layouts.ChunkRequestLayout` | proto/tendermint/statesync/types.pb.go:630-651 | tags 0x08, 0x10, 0x18 |
| `Layouts.ChunkResponseLayout` | proto/tendermint/statesync/types.pb.go:668-706 | tags 0x08, 0x10, 0x18, 0x22, and the two bytes 0x28 0x01 for a missing chunk |
| `Layouts.MessageLayout` | proto/tendermint/statesync/types.pb.go:461-538 | the tag of the kind, the length and the member, an empty member included |
| `StateSync.SnapshotsResponseRoundTrip` | proto/tendermint/statesync/types.pb.go:578-613 | every SnapshotsResponse decodes from its own bytes, up to nil against empty bytes |
| `StateSync.ChunkRequestRoundTrip` | proto/tendermint/statesync/types.pb.go:630-651 | every ChunkRequest decodes from its own bytes |
| `StateSync.ChunkResponseRoundTrip` | proto/tendermint/statesync/types.pb.go:668-706 | every ChunkResponse decodes from its own bytes, the bool included |
| `StateSync.BodyRoundTrip` | proto/tendermint/statesync/types.pb.go:863-1051 | each of the four kinds decodes from its own bytes under its own field number |
| `StateSync.WrappedReplaces` | proto/tendermint/statesync/types.pb.go:891-1031 | an encoded oneof member overwrites the member of the receiver: nothing is merged |
| `StateSync.WrapUnwrap` | proto/tendermint/statesync/message.go:16-59 | wrap, marshal, unmarshal, unwrap returns the message for all four kinds; a nil pointer, and nothing else, comes back as "unknown message" |
| `StateSync.LastMemberWins` | proto/tendermint/statesync/types.pb.go:863-1051 | a concatenation of any number of encoded members decodes to the last one, into any receiver |
| `StateSync.BodyReencodes` | proto/tendermint/statesync/types.pb.go:1103-1545 | none of the four members grows when decoded and written again, a bool in any spelling included |
| `StateSync.MessageReencodes` | proto/tendermint/statesync/types.pb.go:863-1051 | nor does the message around them |
| `StateSync.CodecsAreBlind` | proto/tendermint/statesync/types.pb.go:863-1545 | whether an input is accepted does not depend on the receiver, for the message and its four members |
| `StateSync.MessageBytesInjective` | proto/tendermint/statesync/types.pb.go:439-538 | two messages have the same bytes if and only if they differ at most in nil against empty bytes and in which nil member they hold |
| `StateSyncObjects.SnapshotsRequest.Size` | proto/tendermint/statesync/types.pb.go:779-786 | the exact length of the encoding |
| `StateSyncObjects.SnapshotsRequest.MarshalToSizedBuffer` | proto/tendermint/statesync/types.pb.go:555-561 | writes the encoding at the end of the slice and nothing else |
| `StateSyncObjects.SnapshotsRequest.Unmarshal` | proto/tendermint/statesync/types.pb.go:1053-1102 | agrees with the decoder of its message on every input |
| `StateSyncObjects.SnapshotsResponse.Size` | proto/tendermint/statesync/types.pb.go:788-812 | the exact length of the encoding |
| `StateSyncObjects.SnapshotsResponse.MarshalToSizedBuffer` | proto/tendermint/statesync/types.pb.go:578-613 | writes the encoding at the end of the slice and nothing else |
| `StateSyncObjects.SnapshotsResponse.Unmarshal` | proto/tendermint/statesync/types.pb.go:1103-1277 | agrees with the decoder of its message on every input |
| `StateSyncObjects.ChunkRequest.Size` | proto/tendermint/statesync/types.pb.go:814-830 | the exact length of the encoding |
| `StateSyncObjects.ChunkRequest.MarshalToSizedBuffer` | proto/tendermint/statesync/types.pb.go:630-651 | writes the encoding at the end of the slice and nothing else |
| `StateSyncObjects.ChunkRequest.Unmarshal` | proto/tendermint/statesync/types.pb.go:1278-1384 | agrees with the decoder of its message on every input |
| `StateSyncObjects.ChunkResponse.Size` | proto/tendermint/statesync/types.pb.go:832-855 | the exact length of the encoding |
| `StateSyncObjects.ChunkResponse.MarshalToSizedBuffer` | proto/tendermint/statesync/types.pb.go:668-706 | writes the encoding at the end of the slice and nothing else |
| `StateSyncObjects.ChunkResponse.Unmarshal` | proto/tendermint/statesync/types.pb.go:1385-1545 | agrees with the decoder of its message on every input |
| `StateSyncObjects.Message.Size` | proto/tendermint/statesync/types.pb.go:719-777 | the exact length of the encoding; 0 for no member, for a nil member and for a nil wrapper |
| `StateSyncObjects.Message.MarshalWrapper` | proto/tendermint/statesync/types.pb.go:461-538 | the wrapper's own marshaller writes member, length and tag at the end of the slice it is given |
| `StateSyncObjects.Message.SumMarshalTo` | proto/tendermint/statesync/types.pb.go:456-460 | called on a suffix slice, it re-slices to Size() and so fills that suffix from its start |
| `StateSyncObjects.Message.MarshalToSizedBuffer` | proto/tendermint/statesync/types.pb.go:439-455 | the path through `dAtA[i:]` and `[:size]` puts the encoding exactly at the end of the slice and returns its length |
| `StateSyncObjects.Message.Marshal` | proto/tendermint/statesync/types.pb.go:424-432 | the new buffer is exactly the encoding |
| `StateSyncObjects.Message.FreshMember` | proto/tendermint/statesync/types.pb.go:921-925 | a member is decoded into a new object and only then stored |
| `StateSyncObjects.Message.Unmarshal` | proto/tendermint/statesync/types.pb.go:863-1051 | agrees with the decoder in which every member replaces the one before |
| `Consensus.NewRoundStepReads` | proto/tendermint/consensus/types.pb.go:1805-1949 | for every input and receiver, every field is the last one of its number, an explicit 0 included, in the low bits its type keeps, or else stays |
| `Consensus.HasVoteReads` | proto/tendermint/consensus/types.pb.go:2538-2663 | the same for HasVote |
| `Layouts.NewRoundStepLayout` | proto/tendermint/consensus/types.pb.go:876-907 | the bytes written: fields ascending, tags 0x08, 0x10, 0x18, 0x20, 0x28, int32s in 64-bit two's complement |
| `Layouts.HasVoteLayout` | proto/tendermint/consensus/types.pb.go:1143-1169 | tags 0x08, 0x10, 0x18, 0x20 |
| `Consensus.NewRoundStepRoundTrip` | proto/tendermint/consensus/types.pb.go:876-907 | every NewRoundStep, negative rounds included, takes at most 55 bytes and decodes from them |
| `Consensus.HasVoteRoundTrip` | proto/tendermint/consensus/types.pb.go:1143-1169 | every HasVote, with its int64, int32s and enum, takes at most 44 bytes and decodes from them |
| `Int32.Int32GrowsIff` | proto/tendermint/consensus/types.pb.go:1853-1871 | a varint read into an int32 becomes longer when written again if and only if its low 32 bits are negative and it was spelled with fewer than ten bytes |
| `Int32.LowWord` | proto/tendermint/consensus/types.pb.go:1867 | the low 32 bits of an int32 are a spelling of it, in five bytes if it is negative |
| `Consensus.ShortestStepIsLeast` | proto/tendermint/consensus/types.pb.go:1805-1949 | no input that decodes to a NewRoundStep is shorter than the sum of its fields' shortest spellings |
| `Consensus.ShortestStepIsReached` | proto/tendermint/consensus/types.pb.go:1805-1949 | and some input for it is exactly that short, for every NewRoundStep |
| `Consensus.NewRoundStepReencodes` | proto/tendermint/consensus/types.pb.go:1805-1949 | the encoding of a decoded NewRoundStep is longer than the input by at most five bytes for each negative int32 in it |
| `Consensus.NewRoundStepGrowsIff` | proto/tendermint/consensus/types.pb.go:1805-1949 | that bound is reached for every message; a message has an input that grows when it is written again if and only if one of its two int32s is negative |
| `Consensus.NewRoundStepCanGrow` | proto/tendermint/consensus/types.pb.go:1805-1949 | an input at hand: six bytes whose message takes eleven |
| `Consensus.ShortestVoteIsLeast` | proto/tendermint/consensus/types.pb.go:2538-2663 | no input that decodes to a HasVote is shorter than the sum of its fields' shortest spellings |
| `Consensus.HasVoteReencodes` | proto/tendermint/consensus/types.pb.go:2538-2663 | the encoding of a decoded HasVote is longer than the input by at most five bytes for each negative int32 in it |
| `Consensus.HasVoteGrowsIff` | proto/tendermint/consensus/types.pb.go:2538-2663 | that bound is reached for every message; growth is possible if and only if one of the three int32s is negative |
| `Consensus.CodecsAreBlind` | proto/tendermint/consensus/types.pb.go:1805-1949 | whether an input is accepted does not depend on the receiver, for NewRoundStep and HasVote |
| `Consensus.NewRoundStepSizeIsLength` | proto/tendermint/consensus/types.pb.go:1509-1531 | the size pass counts exactly the bytes of the encoding |
| `Consensus.HasVoteSizeIsLength` | proto/tendermint/consensus/types.pb.go:1615-1634 | the same for HasVote |
| `ConsensusObjects.NewRoundStep.Size` | proto/tendermint/consensus/types.pb.go:1509-1531 | the exact length of the encoding |
| `ConsensusObjects.NewRoundStep.MarshalToSizedBuffer` | proto/tendermint/consensus/types.pb.go:876-907 | writes the encoding at the end of the slice and nothing else |
| `ConsensusObjects.NewRoundStep.Unmarshal` | proto/tendermint/consensus/types.pb.go:1805-1949 | agrees with the decoder that keeps the low 32 bits of each varint |
| `ConsensusObjects.HasVote.Size` | proto/tendermint/consensus/types.pb.go:1615-1634 | the exact length of the encoding |
| `ConsensusObjects.HasVote.MarshalToSizedBuffer` | proto/tendermint/consensus/types.pb.go:1143-1169 | writes the encoding at the end of the slice and nothing else |
| `ConsensusObjects.HasVote.Unmarshal` | proto/tendermint/consensus/types.pb.go:2538-2663 | agrees with the decoder that keeps the low 32 bits of each varint |
| `Canonical.PartSetHeaderReads` | proto/tendermint/types/canonical.pb.go:938-1040 | for every input and receiver, every field is the last one of its number, an explicit 0 and empty bytes included, or else stays |
| `Canonical.VoteExtensionReads` | proto/tendermint/types/canonical.pb.go:1440-1575 | the same for a vote extension |
| `Canonical.BlockIDReads` | proto/tendermint/types/canonical.pb.go:821-937 | accepted exactly when every header payload is accepted by itself; the hash is the last one, and all header payloads are decoded as one into the header that is there |
| `Canonical.VoteReads` | proto/tendermint/types/canonical.pb.go:1250-1439 | the same with the block id payloads, decoded as one into the block id that was there or a new one; the other fields are the last of their number |
| `Canonical.ProposalReads` | proto/tendermint/types/canonical.pb.go:1041-1249 | the same for a proposal |
| `Canonical.HeaderOccurrencesMerge` | proto/tendermint/types/canonical.pb.go:884-916 | two occurrences of the header in a block id decode like one of the concatenated payloads, with other fields between and behind |
| `Canonical.VoteOccurrencesMerge` | proto/tendermint/types/canonical.pb.go:1318-1353 | the same for the block id of a vote, allocated only if there was none |
| `Canonical.ProposalOccurrencesMerge` | proto/tendermint/types/canonical.pb.go:1128-1163 | the same for the block id of a proposal |
| `Layouts.PartSetHeaderLayout` | proto/tendermint/types/canonical.pb.go:483-501 | the bytes written: fields ascending, tags 0x08, 0x12 |
| `Layouts.BlockIDLayout` | proto/tendermint/types/canonical.pb.go:443-466 | tags 0x0a and 0x12, the header even if it is empty |
| `Layouts.VoteExtensionLayout` | proto/tendermint/types/canonical.pb.go:657-689 | the bytes that are signed: tags 0x0a, 0x11, 0x19, 0x22 in this order, absent fields left out |
| `Layouts.VoteLayout` | proto/tendermint/types/canonical.pb.go:590-640 | the bytes that are signed: tags 0x08, 0x11, 0x19, 0x22, 0x2a, 0x32, the timestamp always |
| `Layouts.ProposalLayout` | proto/tendermint/types/canonical.pb.go:518-573 | the bytes that are signed: tags 0x08, 0x11, 0x19, 0x20, 0x2a, 0x32, 0x3a, the timestamp always |
| `Canonical.HeaderRoundTrip` | proto/tendermint/types/canonical.pb.go:483-501 | every part set header decodes from its own bytes, up to nil against empty hash |
| `Canonical.BlockIDRoundTrip` | proto/tendermint/types/canonical.pb.go:443-466 | every block id decodes from its own bytes |
| `Canonical.VoteExtensionRoundTrip` | proto/tendermint/types/canonical.pb.go:657-689 | every vote extension decodes from its own bytes, negative fixed64 heights and rounds included |
| `Canonical.VoteRoundTrip` | proto/tendermint/types/canonical.pb.go:590-640 | every vote decodes from its own bytes, whatever the receiver's timestamp |
| `Canonical.ProposalRoundTrip` | proto/tendermint/types/canonical.pb.go:518-573 | every proposal decodes from its own bytes, whatever the receiver's timestamp |
| `Canonical.BlockIDIsBlind` | proto/tendermint/types/canonical.pb.go:821-937 | whether a block id input is accepted does not depend on the receiver, nor on the header it is merged into |
| `Canonical.VoteIsBlind` | proto/tendermint/types/canonical.pb.go:1250-1439 | the same for votes, with the block id they merge into |
| `Canonical.ProposalIsBlind` | proto/tendermint/types/canonical.pb.go:1041-1249 | the same for proposals |
| `CanonicalGrowth.HeaderReencodes` | proto/tendermint/types/canonical.pb.go:938-1040 | a part set header does not grow when decoded and written again |
| `CanonicalGrowth.VoteExtensionReencodes` | proto/tendermint/types/canonical.pb.go:1440-1575 | nor does a vote extension |
| `CanonicalGrowth.BlockIDIsLeast` | proto/tendermint/types/canonical.pb.go:821-937 | no input that decodes to a block id is shorter than the sum of the fields the receiver did not hold |
| `CanonicalGrowth.BlockIDIsReached` | proto/tendermint/types/canonical.pb.go:821-937 | and some input is that short, for every block id |
| `CanonicalGrowth.BlockIDGrowsIff` | proto/tendermint/types/canonical.pb.go:443-466 | a block id can grow if and only if its header is empty, which the marshaller writes all the same, and its hash is not an empty one that is there |
| `CanonicalGrowth.BlockIDReencodes` | proto/tendermint/types/canonical.pb.go:443-466 | it grows by at most two bytes, and the empty input by exactly two |
| `CanonicalGrowth.VoteReencodes` | proto/tendermint/types/canonical.pb.go:590-640 | a vote grows by at most five bytes for a negative type, three for a block id with an empty header, and its whole timestamp if the input did not change it |
| `CanonicalGrowth.VoteGrowsIff` | proto/tendermint/types/canonical.pb.go:590-640 | the exact condition for every vote and receiver; without bytes that are there but empty it is: negative type, unchanged timestamp, or block id with an empty header |
| `CanonicalGrowth.ProposalReencodes` | proto/tendermint/types/canonical.pb.go:518-573 | the same bound for proposals |
| `CanonicalGrowth.ProposalGrowsIff` | proto/tendermint/types/canonical.pb.go:518-573 | the same condition for proposals |
| `Canonical.BlockIDBytesInjective` | proto/tendermint/types/canonical.pb.go:443-466 | two block ids have the same bytes if and only if they differ at most in nil against empty hashes |
| `Canonical.VoteExtensionBytesInjective` | proto/tendermint/types/canonical.pb.go:657-689 | the same for vote extensions: the sign bytes determine extension, height, round and chain id |
| `Canonical.VoteBytesInjective` | proto/tendermint/types/canonical.pb.go:590-640 | the same for votes, the timestamp counting as its payload |
| `Canonical.ProposalBytesInjective` | proto/tendermint/types/canonical.pb.go:518-573 | the same for proposals |
| `CanonicalObjects.Vote.UnmarshalNumber` | proto/tendermint/types/canonical.pb.go:1278-1317 | the cases of type, height and round set the field the decoder sets, or give its error |
| `CanonicalObjects.Vote.UnmarshalField` | proto/tendermint/types/canonical.pb.go:1254-1432 | one round of the loop is one step of the decoder: receiver, next index, error |
| `CanonicalObjects.PartSetHeader.Size` | proto/tendermint/types/canonical.pb.go:717-731 | the exact length of the encoding |
| `CanonicalObjects.PartSetHeader.MarshalToSizedBuffer` | proto/tendermint/types/canonical.pb.go:483-501 | writes the encoding at the end of the slice and nothing else |
| `CanonicalObjects.PartSetHeader.Unmarshal` | proto/tendermint/types/canonical.pb.go:938-1040 | agrees with the decoder of its message on every input |
| `CanonicalObjects.BlockID.Size` | proto/tendermint/types/canonical.pb.go:702-715 | the exact length of the encoding |
| `CanonicalObjects.BlockID.MarshalToSizedBuffer` | proto/tendermint/types/canonical.pb.go:443-466 | writes the encoding at the end of the slice and nothing else |
| `CanonicalObjects.BlockID.Unmarshal` | proto/tendermint/types/canonical.pb.go:821-937 | agrees with the decoder of its message on every input |
| `CanonicalObjects.VoteExtension.Size` | proto/tendermint/types/canonical.pb.go:792-813 | the exact length of the encoding |
| `CanonicalObjects.VoteExtension.MarshalToSizedBuffer` | proto/tendermint/types/canonical.pb.go:657-689 | writes the encoding at the end of the slice and nothing else |
| `CanonicalObjects.VoteExtension.Unmarshal` | proto/tendermint/types/canonical.pb.go:1440-1575 | agrees with the decoder of its message on every input |
| `CanonicalObjects.Vote.Size` | proto/tendermint/types/canonical.pb.go:764-790 | the exact length of the encoding |
| `CanonicalObjects.Vote.MarshalToSizedBuffer` | proto/tendermint/types/canonical.pb.go:590-640 | writes the encoding at the end of the slice and nothing else |
| `CanonicalObjects.Vote.Unmarshal` | proto/tendermint/types/canonical.pb.go:1250-1439 | agrees with the decoder of its message on every input |
| `Keys.BytesAntisymmetric` | proto/tendermint/crypto/keys.pb.go:201-260 | the byte order the wrappers use is antisymmetric and answers 0 for equal contents only |
| `Keys.CompareAntisymmetric` | proto/tendermint/crypto/keys.pb.go:139-200 | swapping the operands negates the answer, for nil pointers, no key, both key types, nil wrappers and nil bytes |
| `Keys.CompareTransitive` | proto/tendermint/crypto/keys.pb.go:139-260 | the order is transitive over the same values |
| `Keys.BytesOrder` | proto/tendermint/crypto/keys.pb.go:201-260 | a payload is below another exactly when it comes first in the dictionary |
| `Keys.CompareIsRankOrder` | proto/tendermint/crypto/keys.pb.go:139-200 | which order it is: nil pointer, no key, Ed25519, Secp256K1, nil wrappers first within a type, then payloads by dictionary |
| `Keys.CompareZeroIffEqual` | proto/tendermint/crypto/keys.pb.go:139-337 | Compare is 0 if and only if Equal is true, whatever the argument's dynamic type; a value compares like the pointer to it and a nil interface like a nil pointer |
| `Keys.KeyReads` | proto/tendermint/crypto/keys.pb.go:457-572 | for every input and receiver, the key is the last one of either type, there even if it came empty, or else stays |
| `Layouts.PublicKeyLayout` | proto/tendermint/crypto/keys.pb.go:376-402 | the bytes written: tag 0x0a or 0x12, nothing for a nil payload |
| `Keys.KeyRoundTrip` | proto/tendermint/crypto/keys.pb.go:354-402 | an encoded key replaces the receiver's, unless its payload is nil, which leaves no trace on the wire |
| `Keys.SameBytesIffCompareZero` | proto/tendermint/crypto/keys.pb.go:354-402 | two keys with payloads have the same bytes if and only if Compare is 0, and a key without payload shares its bytes exactly with the others without |
| `Keys.KeyReencodes` | proto/tendermint/crypto/keys.pb.go:457-572 | a key does not grow when decoded and written again, and acceptance does not depend on the receiver |
| `Keys.NilAndEmptyKeysDiffer` | proto/tendermint/crypto/keys.pb.go:376-386 | nil and empty payload compare as equal but are encoded differently |
| `Keys.PublicKey.Size` | proto/tendermint/crypto/keys.pb.go:414-449 | the exact length of the encoding, and 0 for a nil wrapper |
| `Keys.PublicKey.MarshalWrapper` | proto/tendermint/crypto/keys.pb.go:376-402 | a nil payload writes nothing, an empty one a tag and a zero length |
| `Keys.PublicKey.MarshalToSizedBuffer` | proto/tendermint/crypto/keys.pb.go:354-370 | writes the encoding at the end of the slice and nothing else |
| `Keys.PublicKey.Unmarshal` | proto/tendermint/crypto/keys.pb.go:457-572 | agrees with the decoder in which a key replaces the one before |
| `Params.ValidatorParamsReads` | proto/tendermint/types/params.pb.go:1628-1709 | for every input and receiver, the key types are appended in order, the empty ones too |
| `Layouts.ValidatorParamsLayout` | proto/tendermint/types/params.pb.go:859-875 | the bytes written: tag 0x0a for every key type |
| `Params.ValidatorParamsMerge` | proto/tendermint/types/params.pb.go:1628-1709 | decoding appends the encoded key types to the receiver's, any number of them, empty ones included |
| `Params.Equal` | proto/tendermint/types/params.pb.go:583-611 | answers true exactly when the argument stands for the receiver: nil receivers, a nil interface, nil pointers, values and other dynamic types included |
| `Params.ValidatorParamsBytesInjective` | proto/tendermint/types/params.pb.go:859-875 | equal lists and no others have equal bytes |
| `Params.ValidatorParams.MarshalToSizedBuffer` | proto/tendermint/types/params.pb.go:859-875 | writes the encoding at the end of the slice and nothing else |
| `Params.ValidatorParams.Unmarshal` | proto/tendermint/types/params.pb.go:1628-1709 | agrees with the appending decoder on every input |
| `Params.EncodeVarintPopulate` | proto/tendermint/types/params.pb.go:1060-1067 | the appending writer appends exactly the bytes that the in-place writer of lines 965-975 puts into its buffer |
| `Params.RandField` | proto/tendermint/types/params.pb.go:1034-1059 | appends the key, cut to 32 bits, and the body of its wire type |
| `Params.RandUnrecognized` | proto/tendermint/types/params.pb.go:1022-1033 | appends one field for each choice |
| `Params.KeyParts` | proto/tendermint/types/params.pb.go:1035 | of the field number only its remainder modulo 2^29 survives in the key |
| `Params.RandFieldIsRecord` | proto/tendermint/types/params.pb.go:1034-1059 | for any draws and any field number the emitted field is one record of the grammar |
| `Params.RandFieldSkipped` | proto/tendermint/types/params.pb.go:1936-2013 | so the skip function consumes it whole and stops there |
| `Params.UnrecognizedIsTransparent` | proto/tendermint/types/params.pb.go:1022-1033 | any run of emitted fields is ignored by every decoder that knows none of the numbers after the cut to 32 bits |
| `Params.DrawnValue` | proto/tendermint/types/params.pb.go:1039-1043 | an emitted number is the one drawn, negated or not |
| `Params.RandFieldRead` | proto/tendermint/types/params.pb.go:1034-1059 | what any decoder makes of a single emitted field, for every field number: cut to 0 it is an illegal tag, cut to a number the decoder knows it is read as that field or refused for its wire type, and otherwise it is skipped whole |
| `Params.RandFieldIgnoredIff` | proto/tendermint/types/params.pb.go:1034-1059 | a single emitted field is ignored if and only if the cut of its number to 29 bits leaves a number that is not 0 and that the decoder does not know |
| `Params.UnknownFieldsNotIgnored` | proto/tendermint/types/params.pb.go:1034-1059 | the two failures at an input, for numbers ValidatorParams does not know: 2^29 is an illegal tag; 2^29 + 1 adds a key type, or is refused for its wire type |
| `Params.ValidatorParamsReencodes` | proto/tendermint/types/params.pb.go:1628-1709 | ValidatorParams do not grow when decoded and written again, and acceptance does not depend on the receiver |
| `Pool.VerdictIsParityOfSum` | benchmark/SignatureWorker.ts:13-19 | the xor verdict is true exactly when the arithmetic sum of the bytes is even |
| `Pool.FakeVerifySignature` | benchmark/SignatureWorker.ts:13-19 | the loop computes that verdict |
| `Pool.FindIndex` | benchmark/WorkerPool.ts:20 | finds the first task under the id, or none |
| `Pool.WorkerPool.constructor` | benchmark/WorkerPool.ts:16-29 | starts with an empty queue and empty mailboxes |
| `Pool.WorkerPool.VerifySignature` | benchmark/WorkerPool.ts:31-40 | queues the call, posts the request to the worker whose turn it is, and passes the turn on |
| `Pool.WorkerPool.WorkerStep` | benchmark/SignatureWorker.ts:7-11 | takes the oldest request and posts the reply with its verdict |
| `Pool.WorkerPool.OnMessage` | benchmark/WorkerPool.ts:19-25 | takes out the first task under the reply's id, if any, and resolves its promise |
| `PoolProofs.SettleTakesOne` | benchmark/WorkerPool.ts:19-25 | a reply under a pending id settles exactly one task and removes exactly that one |
| `PoolProofs.StepConserves` | benchmark/WorkerPool.ts:16-40 | every step keeps "what is in flight is pending" by id, crashes included, and "equally many" otherwise; a delivered reply always finds a task |
| `PoolProofs.Conservation` | benchmark/WorkerPool.ts:16-40 | so does every run, under every interleaving of submit, compute, deliver and crash |
| `PoolProofs.PoolConserves` | benchmark/WorkerPool.ts:16-40 | the same said of every run of a new pool; a reply that is ready to be delivered always finds its task |
| `PoolProofs.DrainedMeansSettled` | benchmark/WorkerPool.ts:16-40 | in a crash-free run, drained mailboxes mean an empty queue |
| `PoolProofs.PromisesAccounted` | benchmark/WorkerPool.ts:16-40 | in every run each call's promise is pending or settled, once: none is lost, doubled or settled twice |
| `PoolProofs.PoolAccounts` | benchmark/WorkerPool.ts:16-40 | after a run of a new pool with k calls, pending and settled promises are exactly the k of them |
| `PoolProofs.RoundRobinIsFair` | benchmark/WorkerPool.ts:36-37 | every run keeps the turn and the workers' shares tied to the number of calls |
| `PoolProofs.PoolIsFair` | benchmark/WorkerPool.ts:36-37 | after a run of a new pool with k submissions `roundRobin` is k modulo the number of workers, every worker was posted its exact share, and any two differ by at most one |
| `PoolSafety.AlignedPop` | benchmark/WorkerPool.ts:19-25 | under one id: if one worker alone answers in queue order, or all verdicts involved agree, the next verdict delivered is the one due and the condition still holds |
| `PoolSafety.AgreeIsAligned` | benchmark/WorkerPool.ts:19-25 | and only then can every order of delivery be right: a purely combinatorial converse |
| `PoolSafety.DeliverPops` | benchmark/WorkerPool.ts:19-25 | a delivery pops the head of one worker's verdicts and the head of the queue under its id, and leaves all other ids alone |
| `PoolSafety.SafeIff` | benchmark/WorkerPool.ts:16-40 | in every reachable state, crashes included: whatever the workers do next, every promise is settled with the verdict on its own payload, if and only if for each id one worker alone answers in queue order or all verdicts involved agree; crashes still to come make no difference |
| `PoolSafety.SubmitAppends` | benchmark/WorkerPool.ts:33-38 | a submission appends its verdict to what is due under its id and to what its worker will answer, and to nothing else |
| `PoolCalls.VerdictsAreComing` | benchmark/WorkerPool.ts:36-38 | with a list of calls submitted, the verdict of each is on its way from the worker its number selects |
| `PoolCalls.CallsRightIffUnambiguous` | benchmark/WorkerPool.ts:16-40 | decidable by the caller beforehand: `n` workers answer a list of calls right in every interleaving if and only if for each id all calls under it have the same verdict or their numbers are congruent modulo `n`; the same condition is exact for runs without crashes and for runs in which workers die, are never heard of again and are sent further calls |
| `PoolCalls.OneWorkerIsUnambiguous` | benchmark/WorkerPool.ts:16-40 | so a pool of one answers every list of calls right, even if its worker dies |
| `PoolSafety.GuardedPoolSettlesRight` | benchmark/WorkerPool.ts:19-39 | if callers reuse a pending id only for payloads with the same verdict, in particular for the same payload, every promise of every run is settled right, crashes included |
| `PoolSafety.OneWorkerSettlesRight` | benchmark/WorkerPool.ts:16-40 | a single worker that does not crash settles every promise right, whatever ids are reused |
| `PoolSafety.SameIdGoesWrong` | benchmark/WorkerPool.ts:19-39 | two workers and two payloads under one id: a run that settles the wrong promise |
| `PoolSafety.RunsAreFinite` | benchmark/WorkerPool.ts:16-40 | without new calls and crashes a run takes exactly as many steps as there is work in the mailboxes |
| `PoolSafety.CanGoOn` | benchmark/WorkerPool.ts:16-40 | some worker can make a step exactly when there is work left |
| `PoolSafety.EveryCallIsAnswered` | benchmark/WorkerPool.ts:16-40 | so when no worker can make a step in a crash-free pool, every promise has been settled exactly once |

## Left out

- ProofObjects.Proof.Unmarshal: like every `Unmarshal` here, says nothing about the receiver after an error; the code leaves it half filled.
- ProofObjects.Proof.MarshalToSizedBuffer: like every marshaller here, requires that the encoding has at most 2^63 - 8 bytes, so that an `int` counts it; decoders require the same of their input. No Go slice reaches that length.
- ProofObjects.Proof.Size: counts in unbounded integers; a total beyond 2^63 would wrap around in Go.
- ProofObjects.ProofOps.Unmarshal: list elements are values in the Go struct; here each is an object that only the list refers to.
- Canonical.VoteRoundTrip: the timestamp is its payload bytes; `StdTime` encoding and decoding are library code that is not part of this model.
- Canonical.ProposalRoundTrip: the same.
- Canonical.VoteBytesInjective: tells votes apart by the timestamp's payload, not by the time it stands for, for the same reason.
- Canonical.ProposalBytesInjective: the same.
- CanonicalGrowth.VoteGrowsIff: a timestamp counts as its payload, which the code would spell anew; the same for `ProposalGrowsIff`, `VoteReencodes` and `ProposalReencodes`.
- CanonicalObjects.Vote.Size: counts the payload's length where the code calls `SizeOfStdTime`.
- CanonicalObjects.Vote.MarshalToSizedBuffer: writes the given timestamp payload where the code calls `StdTimeMarshalTo`, whose error is left out.
- CanonicalObjects.Vote.Unmarshal: takes over any timestamp payload where `StdTimeUnmarshal` would refuse a malformed one.
- Keys.PublicKey.MarshalToSizedBuffer: requires that the wrapper pointer is not nil, where the code would dereference it.
- StateSyncObjects.Message.MarshalToSizedBuffer: requires the same, and so do `Unwrap` and the other marshallers of `Message`.
- Params.RandField: the numbers drawn from the random source are inputs; `NewPopulatedValidatorParams` and the string generators are not modelled.
- Pool.WorkerPool.OnMessage: promises are entries of a log; their scheduling, `reject` and the error handler, which only logs, are not modelled.
- Pool.WorkerPool.WorkerStep: a crash empties the worker's mailboxes and leaves open whether it is heard of again, which covers both a worker that stays dead and one that is replaced; the number of workers is a parameter of at least 1.
- Errors: the code's error values are reduced to seven kinds. `Truncated` stands for `io.ErrUnexpectedEOF` and for the length error that the code gives where the end of a record does not fit an `int`; exact texts are left out.
- Bit operations are written as arithmetic; `Bits` proves the two equal on 64-bit words, the link between words and integers is by reading.
- `CanonicalProposal` is modelled on values only: its methods take the same steps as those of `CanonicalVote`.
- `MarshalTo`, and `Marshal` where it is not listed: they call the size pass and the buffer marshaller as the listed ones do.
- Messages are values: capacity and sharing of the backing arrays in `append(m.X[:0], ...)` are not modelled.
- `ValidatorParams.Size`, `DominoOp`, `ConsensusParams` and the remaining messages and `.pb.go` files: output of the same generator with the same helpers, easy instances of the same theorems.
- Descriptors, registration, getters, `XXX_` methods and text output: boilerplate or library code.
- The node application, its configuration and scripts: input and output, wiring and calls into other packages.
