# A verified model of the solo-mining stack

This project models the path a block takes through the stack, byte for byte, and proves that its ends meet.
The pool turns a node's template into a job (a coinbase cut in two, a Merkle branch, bits and time). The
miner rebuilds a header from that job, sweeps nonces over a midstate hasher, and answers with a share. The
pool rebuilds everything from its own copy and hands a block to the node. Around that path stand the
concurrent state the miner's threads and the pool's poller share, and the tools that scan, join and summarise
block files.

The main results:

- **The pipeline agrees with itself** (`EndToEnd`): a nonce the search reports always comes back as a block
  on the very header that was searched, through both wire encodings, for every job the pool can install; in every
  interleaving of miner and poller (`Session`), every share is answered with that block until eight jobs were
  installed after its own. What is handed to the node always has valid
  proof of work and reads back as the template's own transactions (`Submission`).
- **The fast hash is the slow hash** (`Sha256`, `Neon`, `Midstate`): the four-lane ring-buffer compression
  computes the 64-round function, and the midstate hasher computes padded double SHA-256. Word operations are
  defined bit by bit in `Words`; the four Arm instructions are defined as their architecture manual gives them.
- **Transactions parse back, and only so** (`Reader`, `Varint`, `Transactions`, `TransactionCodec`): round trip,
  append stability, prefix-freeness, and exactly which inputs re-serialise to themselves.
- **Merkle loops are a tree** (`Merkle`): against an independent recursive tree, with branch laws and the
  general duplication collision, for any combining function.
- **256-bit arithmetic and search** (`Hash256`, `Target`, `Header`, `Search`): compact targets by value,
  comparisons by value, the first solution, the minimum, and batches that tile the nonce space.
- **Concurrent machines** (`Worker`, `Stats`, `Pool`, `Delivery`): each atomic or lock operation is one step, and
  the theorems hold for every sequence of steps.
- **Block files** (`BlockFile`, `Writing`, `Joining`, `Chain`): position-keyed XOR, the scanner against an
  independent writer, the concatenator and what a scan of its output finds, the chain walk.

The functions the specifications are made of are pinned in turn: word operations bit by bit, constants by the roots
they come from, byte layouts by offsets and by worked examples.

A method with a loop or a mutable object is proved against a specification function; the laws are then lemmas
about that function. A byte buffer that the source passes as `&mut Vec<u8>` is a value handed in and out.

Where the code and its documentation differ, the model follows the code:

- Hex decoding is documented to reject all but hex digits; `from_str_radix` also accepts a plus sign in front of a
  single digit (`Hex.DecodedIff`, `Hex.PlusIsAccepted`).
- The best hash of the miner's statistics is described as the lowest seen; which of the hashes with the most
  leading zeros it ends on depends on the interleaving, and hashes without leading zeros are never kept
  (`Stats.PossibleBests`, `Stats.BestIsLowestIff`, `Stats.LowestCanBeMissed`).
- A work snapshot pairs work with its own generation only under an exact condition on what comes between its two
  loads (`Worker.SnapshotIsExactIff`, `Worker.SnapshotCanBeTorn`), and a late solver can un-retire a solved
  generation (`Worker.UnretiredOnlyByALateSolver`, `Worker.SolvedCanBeUnretired`).
- A refresh is sent without the clean flag because it only adds transactions; with the minimum-difficulty override
  it can also change the bits (`Pool.RefreshKeepsTheBitsIff`, `Pool.RefreshCanChangeTheBits`).
- The current job sent on authorising can arrive after a newer one (`Delivery.ArriveInOrderIff`).
- Parsing a serialised transaction gives it back only if it has an input (`TransactionCodec.RoundTripIff`).
- Joining block files loses the bytes of a record that lie beyond its declared size; the record is found again
  only if the files after it happen to begin with those bytes (`Joining.WindowsSurviveIff`,
  `Joining.RecordsSurviveIff`, `Joining.CutRecordKeptAndLost`).

## Model

| member | source | states |
|---|---|---|
| EndToEnd.SolutionReachesTheNode | crates/solo-pool/src/validate.rs:73-125 | for every job whose target, branch and split belong together (every installed job is one), every 4-byte extranonce1 and every claimed counter: a nonce found on the header the miner builds from the decoded notification comes back through the submit encoding as a share on which the pool rebuilds that very header, and the outcome is always the block on that header with its hash, never a mere share, a failed rebuild or a coinbase mismatch |
| EndToEnd.IssuedJobReachesTheNode | crates/solo-pool/src/validate.rs:73-125 | the same for every template a job can be built from, with or without the minimum-difficulty override |
| Session.EveryShareIsAnswered | crates/solo-pool/src/session.rs:172-196 | pool and miner together: over every poller run and every interleaving of a miner whose work came from that run's notifications, any share sent names the one install its work was made from, and the session's answer is the block on the solved header while fewer than eight jobs were installed after that one, and that the job was not found from then on |
| Session.ShareComesFromAnInstall | crates/mac-miner/src/worker.rs:82-164 | the work behind every share ever sent was one of the pool's installs |
| Session.JudgedIff | crates/solo-pool/src/session.rs:172-196 | a submission is judged exactly when the session is authorised, the share reads and names a job in the history, and its extranonce can be pushed |
| EndToEnd.EveryShareSentIsABlock | crates/mac-miner/src/worker.rs:82-164 | in every interleaving of the miner's threads and the network thread, every share sent for such a job is a block when it is checked against that job |
| EndToEnd.CoherentJobExists | crates/solo-pool/src/job_builder.rs:75-84 | a job that meets the hypothesis of the pipeline theorems exists |
| EndToEnd.SubmittedBlockIsValidWork | crates/solo-pool/src/validate.rs:97-125 | conversely, bytes handed to the node begin with a header that hashes to the reported hash, passes its own proof-of-work test, has the job's version, parent and bits and the share's time and nonce, and commits to the rebuilt coinbase and the job's txids |
| Submission.SubmittedBlockIsTheTemplates | crates/solo-pool/src/validate.rs:97-125 | for a template that describes transactions truthfully (their bytes in hex, their ids as displayed), the submitted bytes read back as the rebuilt coinbase and exactly those transactions, under a header whose root is the top node of the tree over the double hashes of their legacy forms |
| Submission.BlockReads | crates/mining/src/block.rs:75-90 | a serialised block parses back, transaction by transaction, as its header, its coinbase and the others |
| EndToEnd.OtherWidthsAreRejected | crates/solo-pool/src/validate.rs:79-95 | for such a job, extranonces of any total width but 8 (up to 520) are answered with an error, never a verdict |
| EndToEnd.SameHeader | crates/solo-pool/src/validate.rs:97-110 | the header the miner assembles by splicing and folding equals the header the pool rebuilds from the transactions, for every 8 extranonce bytes, time and nonce |
| EndToEnd.SameMerkleRoot | crates/stratum/src/job.rs:103-106 | folding the notified branch over the spliced coinbase gives the Merkle root over the coinbase and all txids |
| EndToEnd.VerdictOnMinersHeader | crates/solo-pool/src/validate.rs:73-125 | with 8 extranonce bytes the pool's answer is the judgement of the miner's own header |
| EndToEnd.JudgedCases | crates/solo-pool/src/validate.rs:112-125 | the header is sent as a block exactly when its hash meets the network target, and is a share otherwise; block assembly cannot fail |
| EndToEnd.JobReachesTheMiner | crates/stratum/src/job.rs:131-193 | the job is decoded by the miner unchanged, and the target of its bits is the pool's network target |
| EndToEnd.IssuedIsCoherent | crates/solo-pool/src/job_builder.rs:86-163 | every issued job carries the target of its own bits, the branch of its own txids and a split that reproduces |
| EndToEnd.MinimumDifficultyDecodes | crates/solo-pool/src/main.rs:202-215 | the override's bits always decode, to 0xFFFF * 256^26 |
| Validate.Check | crates/solo-pool/src/validate.rs:73-125 | rebuilds, cross-checks, tests and assembles in the source's order, with each of its error results; its specification is what the end-to-end theorems are about |
| JobBuilder.SplitSound | crates/solo-pool/src/job_builder.rs:179-202 | when the split succeeds, prefix ++ e ++ suffix is the rebuilt, legacy-serialised coinbase for every 8-byte e |
| JobBuilder.SplitAtStructure | crates/solo-pool/src/job_builder.rs:179-202 | a successful search cut at the structural offset: the halves are the fields before and after the extranonce push |
| JobBuilder.SplitSucceedsIff | crates/solo-pool/src/job_builder.rs:186-197 | the split is refused exactly when the sentinel also stands at another offset |
| JobBuilder.WrongWidthFails | crates/solo-pool/src/validate.rs:79-95 | any other extranonce width (up to 520) fails the rebuild or the byte comparison |
| JobBuilder.EightBytesRebuild | crates/solo-pool/src/job_builder.rs:75-84 | for 8 extranonce bytes the coinbase can always be rebuilt, at every height |
| JobBuilder.Layout | crates/solo-pool/src/job_builder.rs:179-202 | the serialised coinbase is a front that depends only on the extranonce's width, the extranonce, and a back that never changes |
| JobBuilder.BuildSucceedsIff | crates/solo-pool/src/job_builder.rs:86-163 | a template becomes a job exactly when its fields parse, its time fits 32 bits, its bits stand for a target, its commitment (if sent) is the computed one, and the sentinel is unique in the coinbase |
| JobBuilder.BuiltHalves | crates/solo-pool/src/job_builder.rs:126-163 | the job built is the template's fields with everything before and after the extranonce as its halves |
| JobBuilder.BuildReadsTheTemplate | crates/solo-pool/src/job_builder.rs:86-151 | field by field: each txid is what the template's `txid` parses to, each raw transaction its `data`, the commitment is over its `hash` fields, and parent, bits, target, time, version, height and value are the template's own |
| JobBuilder.CommitmentParts | crates/mining/src/witness.rs:53-87 | the commitment script is OP_RETURN, a 36-byte push of the marker of BIP 141, and the double hash of the top node over a zero leaf and the witness ids, followed by 32 zeros |
| JobBuilder.BuildIgnoresIdAndFlag | crates/solo-pool/src/job_builder.rs:86-163 | whether a template builds does not depend on the job id or the clean flag |
| JobBuilder.OverrideQualifies | crates/solo-pool/src/min_difficulty.rs:84-92 | the override's timestamp is the least one more than twenty minutes past the parent's, its hold ends two hours before that, its bits are the minimum's, and everything else stays |
| JobBuilder.TagText | crates/solo-pool/src/job_builder.rs:75-83 | the coinbase tag is the text `solo-mac-miner` |
| JobBuilder.ClearIsUnique | crates/solo-pool/src/job_builder.rs:181-197 | a coinbase free of the sentinel's first byte keeps the sentinel unique |
| JobBuilder.CoinbaseBranch | crates/solo-pool/src/job_builder.rs:170-176 | the branch computed with a zero placeholder in slot 0 |
| Stratum.NotifyRoundTrip | crates/stratum/src/job.rs:131-193 | decoding a notification gives back the job it was made from, for every job |
| Stratum.SubmitRoundTrip | crates/stratum/src/share.rs:39-71 | decoding a submission gives back the share it was made from, for every share |
| Stratum.NotifyShape | crates/stratum/src/job.rs:131-151 | the nine notify parameters in their documented order: the word-swapped previous hash, hex halves and branch, numbers as eight hex digits |
| Stratum.SubmitShape | crates/stratum/src/share.rs:39-48 | the five submit parameters in their documented order |
| ByteOrder.SwapIsGroupReversal | crates/stratum/src/byte_order.rs:45-56 | the word-swapped previous hash in hex is the display string with its eight 8-character groups in opposite order |
| ByteOrder.SwapTwice | crates/stratum/src/byte_order.rs:45-61 | the wire form and its inverse are one involution |
| ByteOrder.SwapWords | crates/stratum/src/byte_order.rs:45-51 | the in-place chunk reversal computes that permutation |
| ByteOrder.DisplayReadsBack | crates/btc-primitives/src/hash.rs:154-167 | a hash's display form parses back to the hash |
| Hex.DecodeEncoded | crates/btc-primitives/src/hex.rs:11-46 | decoding undoes encoding, with and without a fixed length |
| Hex.DecodedIff | crates/btc-primitives/src/hex.rs:22-37 | exactly which texts decode: even length, and every pair two hex digits or a plus sign and one digit |
| Hex.PlusIsAccepted | crates/btc-primitives/src/hex.rs:22-37 | two different texts, one with a plus sign, decode to the same byte, so decoding is not injective |
| Hex.U32TextInverse | crates/stratum/src/job.rs:131-193 | numeric fields written as eight hex digits read back |
| Hex.Encode | crates/btc-primitives/src/hex.rs:11-19 | the encoding loop produces the text that decoding is proved to undo |
| Coinbase.ScriptSigReadsBack | crates/mining/src/coinbase.rs:93-109 | for every builder, an independent script reader finds the height, then exactly those of extranonce and tag that are not empty, and nothing after |
| Coinbase.ScriptSigLengthInRange | crates/mining/src/coinbase.rs:113-126 | for 8-byte extranonces the script length is within 2..=100, and the build succeeds, exactly when height prefix and tag take at most 89 bytes together: for every height if the tag has at most 83 |
| Coinbase.Build | crates/mining/src/coinbase.rs:113-155 | the transaction, or the length error, that the split and read-back theorems are about |
| Coinbase.RewardGoesToPayout | crates/mining/src/coinbase.rs:113-155 | a built coinbase spends nothing, pays the whole value to the payout script in its first output and nothing elsewhere, and has a commitment output and a witness exactly when it was given a commitment |
| Coinbase.BuildFailsIff | crates/mining/src/coinbase.rs:113-122 | the build fails exactly outside 2..=100 script bytes and reports the length |
| Script.NumberInverse | crates/mining/src/script.rs:90-108 | a script number reads back as its non-negative value (sign bit clear) |
| Script.NumberIsMinimal | crates/mining/src/script.rs:90-108 | no shorter byte string reads as the same script number |
| Script.ReadPushInverse | crates/mining/src/script.rs:24-42 | a push of up to 520 bytes reads back in every length class, whatever follows |
| Script.ReadHeightInverse | crates/mining/src/script.rs:64-78 | a height script reads back as the height, through all three opcode forms (section 'Specification' of BIP 34) |
| Script.EncodeScriptNumber | crates/mining/src/script.rs:90-108 | the shifting loop yields the digits whose value and minimality are proved |
| Script.PushData | crates/mining/src/script.rs:24-42 | appends the push that the reader inverts |
| Script.KnownHeights | crates/mining/src/script.rs:64-78 | heights 0 to 16 are one opcode, 17 and 100000 are the pushes Bitcoin Core builds, byte for byte |
| Script.KnownNumbers | crates/mining/src/script.rs:90-108 | script numbers at the sign-byte boundaries, byte for byte |
| Script.KnownPushes | crates/mining/src/script.rs:24-42 | the three push forms and their opcodes |
| Block.BlockReadsBack | crates/mining/src/block.rs:75-90 | a serialised block reads back as its header, count, coinbase and then the transactions' bytes |
| Block.Serialize | crates/mining/src/block.rs:75-90 | the appending loop writes those block bytes |
| Block.NewIff | crates/mining/src/block.rs:38-58 | a block needs exactly one id for every transaction |
| Neon.CompressBlockNeon | crates/sha256d/src/neon.rs:39-94 | sixteen groups over a four-slot ring rewritten in place, with pre-summed W+K and the saved abcd, leave the same state as 64 rounds over the 64-word schedule, for every state and block (section 6.2.2 of FIPS 180-4) |
| Neon.HashIsFourRounds | crates/sha256d/src/neon.rs:66-74 | SHA256H and SHA256H2, from the same inputs, together perform four rounds |
| Neon.Su1IsSchedule | crates/sha256d/src/neon.rs:80-86 | SHA256SU0 and SHA256SU1 extend the schedule by four words |
| Neon.RingStep | crates/sha256d/src/neon.rs:61-87 | rewriting one slot keeps the ring holding the next four groups of the schedule |
| Neon.ChooseIsCh | crates/sha256d/src/reference.rs:25-27 | the instruction's choice formula agrees with the standard's |
| Neon.MajorityIsMaj | crates/sha256d/src/reference.rs:31-33 | the instruction's majority formula agrees with the standard's |
| Words.RotateRightAt | crates/sha256d/src/reference.rs:36-56 | rotating by n moves bit (i + n) mod 32 to place i |
| Words.RotateRightValue | crates/sha256d/src/reference.rs:36-56 | rotation as arithmetic: x / 2^n plus the remainder times 2^(32 - n) |
| Words.ShiftRightAt | crates/sha256d/src/reference.rs:49-56 | shifting by n moves bit i + n to place i and zeros in at the top |
| Words.ShiftRightValue | crates/sha256d/src/reference.rs:49-56 | shifting by n divides by 2^n |
| Words.OperatorsAt | crates/sha256d/src/reference.rs:25-56 | and, or, xor and not act on each bit by themselves |
| Words.AddValue | crates/sha256d/src/reference.rs:67-128 | addition is modulo 2^32 |
| Sha256.BigSigma0At | crates/sha256d/src/reference.rs:36-38 | bit i is the parity of bits i+2, i+13 and i+22, modulo 32 (section 4.1.2 of FIPS 180-4) |
| Sha256.BigSigma1At | crates/sha256d/src/reference.rs:41-43 | bit i is the parity of bits i+6, i+11 and i+25, modulo 32 |
| Sha256.SmallSigma0At | crates/sha256d/src/reference.rs:49-51 | bit i is the parity of bits i+7 and i+18, modulo 32, and of bit i+3 where there is one |
| Sha256.SmallSigma1At | crates/sha256d/src/reference.rs:54-56 | bit i is the parity of bits i+17 and i+19, modulo 32, and of bit i+10 where there is one |
| Sha256.ChMajAt | crates/sha256d/src/reference.rs:25-33 | Ch chooses by its first word and Maj takes the value of at least two, bit by bit |
| Sha256.RoundConstantsAreRoots | crates/sha256d/src/constants.rs:24-41 | each round constant is the first 32 bits of the fractional part of the cube root of its prime |
| Sha256.InitialStateIsRoots | crates/sha256d/src/constants.rs:14-17 | each initial word is that of the square root of its prime |
| Sha256.RoundSums | crates/sha256d/src/reference.rs:92-118 | one round as sums modulo 2^32, with the other six variables moving along |
| Sha256.ScheduleSums | crates/sha256d/src/reference.rs:67-91 | the schedule as big-endian words of the block and then sums modulo 2^32 |
| Sha256.CompressedSums | crates/sha256d/src/reference.rs:67-128 | 64 rounds, one constant and one schedule word each, then the feed-forward sums |
| Sha256.CompressBlock | crates/sha256d/src/reference.rs:67-128 | schedule loop, 64 rounds and feed-forward in place equal the schedule recurrence and the round function |
| Sha256.Sha256 | crates/sha256d/src/reference.rs:131-146 | absorbing the padded blocks gives the digest |
| Sha256.Pad | crates/sha256d/src/padding.rs:29-50 | the pushing loop yields message, 0x80, zeros and bit length (section 5.1.1 of FIPS 180-4) |
| Sha256.PaddedInjective | crates/sha256d/src/padding.rs:29-50 | different messages never pad alike |
| Sha256.PaddedLenAgrees | crates/sha256d/src/padding.rs:56-58 | the length formula is the padded length at every length |
| Sha256.PaddedParts | crates/sha256d/src/padding.rs:29-50 | where message, marker and zeros stand in the padding, and that its last eight bytes count the message's bits |
| Midstate.MidstateIsSha256d | crates/sha256d/src/midstate.rs:68-119 | for every header and nonce, the midstate hasher gives double SHA-256 of the header with bytes 76..80 replaced |
| Midstate.MidstateIgnoresNonce | crates/sha256d/src/midstate.rs:68-83 | headers that differ only in their own nonce give the same hashes |
| Midstate.SecondHashIsDigest | crates/sha256d/src/midstate.rs:102-119 | the single pre-padded block is SHA-256 of the first digest |
| Midstate.HashNonce | crates/sha256d/src/midstate.rs:85-96 | filling the tail and compressing computes that hash, with either compression function |
| Midstate.HardwareSha256 | crates/sha256d/src/neon.rs:100-116 | the hardware path computes the same digest as the reference |
| Header.DeserializeSerialized | crates/btc-primitives/src/header.rs:54-87 | a header reads back from its 80 bytes |
| Header.SerializeDeserialized | crates/btc-primitives/src/header.rs:54-87 | any 80 bytes are the serialisation of what they read as |
| Header.HasherGivesBlockHash | crates/btc-primitives/src/header.rs:90-93 | the midstate hash for a nonce is the block hash of the header with that nonce |
| Header.IsValidProofOfWork | crates/btc-primitives/src/header.rs:103-105 | decodes the header's own bits, passes on the error, and compares |
| Header.HeaderFields | crates/btc-primitives/src/header.rs:54-66 | where each field stands in the 80 bytes and in which byte order |
| Header.ProofOfWorkIff | crates/btc-primitives/src/header.rs:95-105 | the test holds exactly when the bits stand for a number below 2^256 and the little-endian value of the double hash is at most it; the two errors exactly for a set sign bit and for a larger number |
| Search.Search | crates/mining/src/search.rs:62-99 | reports the first solving nonce if there is one, the number of nonces tried, and the numeric minimum of the hashes tried (all 0xFF when the range is empty), also when it returns early |
| Search.FirstSolutionIsFirst | crates/mining/src/search.rs:74-91 | a reported nonce is in range, meets the target, and no earlier one does; none reported means none exists |
| Search.SolutionIsMinimum | crates/mining/src/search.rs:78-90 | on the early return, the solving hash is the minimum of all hashes tried |
| Search.BatchesTile | crates/mac-miner/src/worker.rs:188-190 | from any start the batches follow one another without gap, overlap or overflow and end at 2^32 - 1 |
| Search.BatchSize | crates/mac-miner/src/worker.rs:37-190 | a batch is 2^20 nonces, and the last ends at 2^32 - 1 |
| Search.Sweep | crates/mac-miner/src/worker.rs:106-130 | batched searches find the same first solution after the same number of hashes as one search over all 2^32 nonces |
| Search.FirstSolutionSplits | crates/mac-miner/src/worker.rs:106-130 | the first solution of a range is that of its first part or else of its second |
| Target.FromCompact | crates/btc-primitives/src/target.rs:53-91 | placing the three mantissa bytes one by one gives mantissa * 256^(exponent - 3), floored; negative iff the sign bit is set; overflow iff that value reaches 2^256 |
| Target.DecodedValue | crates/btc-primitives/src/target.rs:53-91 | a decoded target's big-endian value is exactly that number |
| Target.CompactParts | crates/btc-primitives/src/target.rs:53-62 | exponent, sign and mantissa make up the 32 bits, with the sign at bit 23 |
| Target.ContributionsSum | crates/btc-primitives/src/target.rs:66-88 | the three byte contributions, dropped below byte 0, sum to the floored value |
| Target.IsMetBy | crates/btc-primitives/src/target.rs:113-125 | the opposite-endian byte comparison holds exactly when the hash's little-endian value is at most the target's big-endian value |
| Target.ZeroBitsAreNecessary | crates/btc-primitives/src/target.rs:127-150 | a hash that meets a target has at least the target's leading zero bits |
| Hash256.NumericCmp | crates/btc-primitives/src/hash.rs:98-106 | the bytewise comparison from the far end orders the 256-bit values |
| Hash256.MoreZerosIsSmaller | crates/btc-primitives/src/hash.rs:118-130 | more leading zero bits means a numerically smaller hash |
| Hash256.LeadingZeroBits | crates/btc-primitives/src/hash.rs:118-130 | the counting loop with its early stop counts the leading zero bits of the display form |
| Hash256.ZerosBoundValue | crates/btc-primitives/src/hash.rs:118-130 | a string with z leading zero bits is a number of exactly bits - z bits |
| TransactionCodec.RoundTrip | crates/btc-primitives/src/transaction.rs:115-224 | a serialised transaction with an input parses back to itself, with or without witnesses, whatever bytes follow (section 'Serialization' of BIP 144) |
| TransactionCodec.RoundTripIff | crates/btc-primitives/src/transaction.rs:179-198 | without trailing bytes the round trip holds exactly when there is an input, because a zero count reads as the marker |
| TransactionCodec.StrictPrefixFails | crates/btc-primitives/src/transaction.rs:175-224 | no strict prefix of a serialised transaction parses |
| TransactionCodec.AppendStable | crates/btc-primitives/src/reader.rs:38-97 | a successful parse is unchanged by appended bytes and leaves them all unread |
| TransactionCodec.ReserializesIff | crates/btc-primitives/src/transaction.rs:175-224 | input consumed whole re-serialises to itself exactly when it is legacy, or has flag 1 and a non-empty witness |
| TransactionCodec.WireSound | crates/btc-primitives/src/transaction.rs:175-224 | whatever parses was the wire form of the result, followed by what is left unread |
| TransactionCodec.KnownTransaction | crates/btc-primitives/src/transaction.rs:115-173 | one transaction with every field different, written out byte for byte |
| TransactionCodec.SegwitInsertsTwice | crates/btc-primitives/src/transaction.rs:115-142 | the SegWit form is the legacy form with marker and flag after the version and the witnesses before the lock time |
| TransactionCodec.LegacyIgnoresWitness | crates/btc-primitives/src/transaction.rs:101-110 | the legacy form, and with it the txid, ignores every witness |
| Transactions.Deserialize | crates/btc-primitives/src/transaction.rs:175-224 | the cursor-driven parser computes the parse the theorems are about, errors included |
| Transactions.Serialize | crates/btc-primitives/src/transaction.rs:115-142 | the buffer-appending printer writes that wire form |
| Transactions.SerializeLegacy | crates/btc-primitives/src/transaction.rs:101-110 | the printer that leaves witnesses out |
| Reader.Reader.ReadBytes | crates/btc-primitives/src/reader.rs:38-51 | returns the next bytes and moves past them, or reports the early end and stays where it is |
| Reader.Reader.ReadVarBytes | crates/btc-primitives/src/reader.rs:92-97 | a counted byte string, or the count's or the bytes' error |
| Varint.DecodeEncoding | crates/btc-primitives/src/varint.rs:21-99 | every encoding decodes to its value and length, whatever follows |
| Varint.DecodeIsCanonical | crates/btc-primitives/src/varint.rs:61-99 | decoding accepts only the encoder's own output |
| Varint.DecodeErrors | crates/btc-primitives/src/varint.rs:61-99 | exactly which inputs are truncated; the others fail exactly when no encoding is a prefix of them |
| Varint.Encode | crates/btc-primitives/src/varint.rs:21-40 | appends the encoding, in the shortest of the four forms |
| Varint.Boundaries | crates/btc-primitives/src/varint.rs:21-40 | the one- and two-byte classes at their boundaries, byte for byte |
| Varint.WideBoundaries | crates/btc-primitives/src/varint.rs:21-40 | the four- and eight-byte classes at theirs |
| Merkle.MerkleRoot | crates/btc-primitives/src/merkle.rs:41-58 | rewriting the level until one node is left gives the root; no leaves give none |
| Merkle.RootIsTopNode | crates/btc-primitives/src/merkle.rs:41-58 | the level loop's root is the top node of an independently defined recursive tree whose missing right children repeat the left |
| Merkle.CoinbaseBranch | crates/btc-primitives/src/merkle.rs:81-100 | collecting each level's second node gives the branch |
| Merkle.BranchRebuildsRoot | crates/btc-primitives/src/merkle.rs:81-106 | folding the branch from leaf 0 gives the root, for non-empty leaves of any number |
| Merkle.BranchIgnoresFirst | crates/solo-pool/src/job_builder.rs:165-175 | the branch does not depend on leaf 0 |
| Merkle.BranchLength | crates/btc-primitives/src/merkle.rs:81-100 | the branch has ceil(log2 n) entries |
| Merkle.DuplicationCollides | crates/btc-primitives/src/merkle.rs:48-55 | for n = m * 2^k leaves, m odd and above 1, appending a copy of the last 2^k leaves keeps the root (the CVE-2012-2459 collision in general) |
| Merkle.LeftThenRight | crates/btc-primitives/src/merkle.rs:64-69 | a parent is the double hash of its left child's bytes followed by its right child's |
| Worker.StepKeepsInv | crates/mac-miner/src/worker.rs:82-132 | every atomic step of every thread keeps the machine's invariant: pairing of work and generation, claims handed out once, solutions that really solve |
| Worker.RunKeepsInv | crates/mac-miner/src/worker.rs:82-132 | so does every interleaving |
| Worker.SupersededForGood | crates/mac-miner/src/work.rs:60-63 | generations only grow: a superseded one is never current again |
| Worker.AtMostOneLateBatch | crates/mac-miner/src/worker.rs:106-130 | a thread whose generation was superseded completes at most one more batch, and its next operation ends the sweep |
| Worker.StaleWorkIff | crates/mac-miner/src/worker.rs:83-130 | in every run, a sweep's batches on superseded work stay within one exactly when its snapshot did not pair the work with a newer generation (or it has run at most one batch); otherwise every batch is one, and the next follows as long as the generation stands |
| Worker.StaleSweepGoesOn | crates/mac-miner/src/worker.rs:106-130 | from such a snapshot a thread runs any number of batches on the old work, up to the end of its sweep, while nothing new is published and they find nothing |
| Worker.SolvedIsRetired | crates/mac-miner/src/worker.rs:91-130 | from any state in which a generation is marked solved, and any further steps in which no holder of another generation overwrites the mark, each thread runs at most the one batch, and claims at most the one counter, whose checks it had already passed |
| Worker.SweepTriesEveryNonce | crates/mac-miner/src/worker.rs:105-130 | a sweep that nothing interrupts ends at the first solving nonce of all that are left, or with none solving takes a new snapshot |
| Worker.SweepGivesUp | crates/mac-miner/src/worker.rs:106-130 | a sweep whose work was superseded or solved goes back for a new snapshot |
| Worker.SolutionIsSent | crates/mac-miner/src/worker.rs:112-164 | a solution is marked and sent once, as a share of the held job, claimed extranonce, job time and found nonce, and the thread then waits |
| Worker.WaitsForNewWork | crates/mac-miner/src/worker.rs:171-180 | a waiting thread stays while its generation stands and its timeout does not fire, whatever else happens, and leaves when it is superseded |
| Worker.SharesMeetTheirTarget | crates/mac-miner/src/worker.rs:107-123 | every share ever sent meets the target of the very job it was built from, on that job's header |
| Worker.SweepsNeverShareACounter | crates/mac-miner/src/worker.rs:97-99 | a counter one thread sweeps at any moment of a run is swept by no other thread then or later, and by nobody once its share is sent |
| Worker.CountersAreSentOnce | crates/mac-miner/src/worker.rs:97-123 | no counter is ever submitted twice |
| Worker.ClaimsDiffer | crates/mac-miner/src/worker.rs:197-206 | two counters give equal extranonces exactly when they agree modulo 256^size, so distinct ones below that differ |
| Worker.ClaimsBuildDifferentCoinbases | crates/mac-miner/src/worker.rs:97-103 | two such claims on one job build different coinbase bytes |
| Worker.SnapshotIsExactIff | crates/mac-miner/src/work.rs:69-73 | whatever runs between a thread's two loads, the generation it reads belongs to the work it read exactly when the generation was bumped once meanwhile if the setter was in the middle of publishing that work, and not at all otherwise |
| Worker.SnapshotPairing | crates/mac-miner/src/work.rs:69-73 | in every state of every run, a snapshot holds the v-th work with a generation of at least v - 1 and at most the present one |
| Worker.SnapshotCanBeTorn | crates/mac-miner/src/work.rs:69-73 | a concrete run in which old work is paired with the newer, current generation: the lock is dropped before the generation is loaded |
| Worker.UnretiredOnlyByALateSolver | crates/mac-miner/src/work.rs:88-101 | a solved generation becomes workable again exactly when a thread holding an older one performs its own solved-mark |
| Worker.SolvedCanBeUnretired | crates/mac-miner/src/work.rs:88-101 | a concrete two-thread run in which that happens: generation 2 is solved and retired, and the late mark for generation 1 makes it current again |
| Worker.EncodeExtranonce2 | crates/mac-miner/src/worker.rs:197-206 | the buffer copy yields the counter's low bytes, big-endian, in exactly the assigned width |
| Worker.ExtranonceValue | crates/mac-miner/src/worker.rs:197-206 | the claimed bytes, read most significant first, are the counter modulo 256^size |
| Worker.WorkState.Set | crates/mac-miner/src/work.rs:60-63 | leaves the cells as the machine's store followed by its bump does, from every state with the same cells |
| Worker.WorkState.Snapshot | crates/mac-miner/src/work.rs:69-73 | returns the pair a thread of the machine takes when nothing comes between its two loads |
| Worker.WorkState.MarkSolved | crates/mac-miner/src/work.rs:88-90 | leaves the cells as the machine's solved-mark does |
| Worker.WorkState.IsCurrent | crates/mac-miner/src/work.rs:97-101 | answers yes exactly when the machine's two checks, made without interruption, let the thread go on to claim |
| Stats.RunKeepsInv | crates/mac-miner/src/stats.rs:46-62 | every interleaving of the atomic steps of `record` keeps the counters consistent with the calls in flight |
| Stats.QuietTotals | crates/mac-miner/src/stats.rs:46-62 | once none is in flight, the total is the sum of all batches (as a 64-bit counter), the zero count is that of the best hash, and it is the largest recorded |
| Stats.PossibleBests | crates/mac-miner/src/stats.rs:46-62 | exactly which hashes some interleaving of a session's calls can end on: every recorded hash with the most leading zeros, and the initial all-ones when no hash has any |
| Stats.BestIsLowestIff | crates/mac-miner/src/stats.rs:46-62 | every interleaving ends on the lowest hash recorded exactly when that hash has leading zeros (or is all ones) and every different hash has strictly fewer |
| Stats.LowestCanBeMissed | crates/mac-miner/src/stats.rs:46-62 | two batches that tie, one order of whose calls ends on the lower hash and another on the higher |
| Stats.Counters.Record | crates/mac-miner/src/stats.rs:46-62 | the object's cells end where a run of the machine's own steps with this one call leads |
| Pool.PollTemplates | crates/solo-pool/src/main.rs:160-271 | the polling loop over every finite run of node replies: history, id counter and every subscriber's deliveries |
| Pool.TurnInstallsIff | crates/solo-pool/src/main.rs:160-271 | exactly when a turn installs a job, over every run: a template that builds, and news (another tip or other bits than the last install) or a due refresh; the entry is for that template, in front, clean exactly when it is news, with the override's time and bits exactly on the test network with the parent served; any other turn changes nothing |
| Pool.ServedTemplateIsInstalled | crates/solo-pool/src/main.rs:162-271 | after any turn that served a template that builds, the last install has that template's tip and bits |
| Pool.FrontBuildsOnLastTip | crates/solo-pool/src/main.rs:160-271 | after every run the front job's parent is the parsed last tip |
| Pool.RefreshKeepsTheWork | crates/solo-pool/src/main.rs:165-191 | a job announced without the clean flag has the parent and the template bits of the job installed before it |
| Pool.RefreshKeepsTheBitsIff | crates/solo-pool/src/main.rs:193-230 | such a refresh keeps the installed job's own bits, and with them its target, exactly when both jobs were overridden or neither was, or the template's bits are the minimum's |
| Pool.RefreshCanChangeTheBits | crates/solo-pool/src/main.rs:193-230 | from any template that builds, a run whose refresh changes the bits without the clean flag: the parent header is served for the first job only |
| Pool.HistoryIdsDecrease | crates/solo-pool/src/state.rs:88-101 | ids fall strictly from the front of the history to its back |
| Pool.JobFoundUntilEightLater | crates/solo-pool/src/state.rs:93-122 | a job is found under its id exactly until eight later installs, and then nothing is |
| Pool.HistoryIsIssued | crates/solo-pool/src/main.rs:193-230 | every job a share can name was issued by the pool, and its network target is that of its own bits |
| Pool.SubscriberHearsEveryJob | crates/solo-pool/src/main.rs:230-254 | a subscriber whose channel stays open is sent every installed job, once, in order |
| Pool.HexNumberInjective | crates/solo-pool/src/state.rs:88-90 | different counters give different job ids |
| Pool.HexNumberReadsBack | crates/solo-pool/src/state.rs:88-90 | a job id reads back in base 16 as the counter, without leading zeros |
| Pool.LogIdsDiffer | crates/solo-pool/src/state.rs:88-101 | over every run, no two installs share a job id |
| Pool.PoolState.SetCurrentJob | crates/solo-pool/src/state.rs:93-101 | pushes in front and keeps at most eight |
| Pool.PoolState.JobById | crates/solo-pool/src/state.rs:114-122 | the first job in the history with that id |
| Pool.PoolState.Broadcast | crates/solo-pool/src/state.rs:147-152 | one pass over the subscribers sends to every open one and drops those whose channel is closed |
| Pool.PoolState.Unsubscribe | crates/solo-pool/src/state.rs:134-140 | one pass drops every entry of the connection and keeps the others in order |
| Pool.DeliveredOnlyToOpen | crates/solo-pool/src/state.rs:147-152 | after a broadcast every entry is an earlier one with an open channel and one more line |
| Pool.WithoutIff | crates/solo-pool/src/state.rs:134-140 | after unsubscribing exactly the entries of other connections are left |
| Delivery.ArriveInOrderIff | crates/solo-pool/src/session.rs:239-258 | in every interleaving of the poller's set and announce with a session's subscribing, reading and sending, a miner's notifications arrive in install order exactly when no job was overtaken, between its read and its send, by the announcement of a newer one |
| Delivery.OvertakenIff | crates/solo-pool/src/session.rs:239-258 | a read is overtaken exactly when the connection is subscribed and more announcements fall between read and send than were owed at the read |
| Delivery.CanArriveOutOfOrder | crates/solo-pool/src/session.rs:239-258 | a concrete run in which job 1 is sent after job 2 was announced |
| Delivery.CurrentIsLastInstall | crates/solo-pool/src/state.rs:104-110 | the job a session reads is the last one installed, after every run of the poller |
| Writing.ScanReadsBack | crates/blk-scan/src/scan.rs:73-121 | for any blocks of 80 to 2^32 - 1 bytes stored by an independent writer under any key: one record per block, in order, at its own offset, with its length, the double hash of its first 80 bytes and the parent in bytes 4..36; the scan stops where the blocks end, with the reason that what follows gives |
| Writing.PaddedFileReadsBack | crates/blk-scan/src/scan.rs:77-121 | in particular with `Padding` before 88 zero bytes or more, and `EndOfFile` before fewer |
| Writing.RecordedAt | crates/blk-scan/src/scan.rs:99-120 | record i stands where the first i frames end, and describes block i |
| BlockFile.ScanFile | crates/blk-scan/src/scan.rs:73-121 | reading 88 bytes a record from the stored file finds what a scan of the decoded file defines, with each stop reason |
| BlockFile.Concatenate | crates/blk-scan/src/bin/concat.rs:51-98 | the chunked copy writes the joined payloads keyed at their new offsets, for any chunk size; it fails exactly when there is no input or a payload runs past its file |
| Writing.JoinOfWritten | crates/blk-scan/src/bin/concat.rs:51-98 | joining block files gives the block file of all their blocks, in order, without the padding between |
| Joining.WindowsSurviveIff | crates/blk-scan/src/bin/concat.rs:60-96 | for any inputs and key: scanning the output finds every record again, in order, at shifted offsets, from the same 88 bytes, exactly when what follows each input begins with whatever its payload's end cut off its records |
| Joining.RecordsSurviveIff | crates/blk-scan/src/bin/concat.rs:60-96 | the same condition decides the records themselves, unless two different headers share a hash |
| Joining.ScanOfConcatenation | crates/blk-scan/src/bin/concat.rs:60-96 | under that condition the scan of the output is the inputs' records with shifted offsets, ending at end of file at the total length, for any join offset |
| Joining.WholeFilesSurvive | crates/blk-scan/src/bin/concat.rs:60-96 | in particular when no record's first 88 bytes run past its payload |
| Joining.CutRecordKeptAndLost | crates/blk-scan/src/bin/concat.rs:60-96 | one concrete cut-off record that survives in front of one file and is lost when nothing follows |
| Joining.LastMustBeWhole | crates/blk-scan/src/bin/concat.rs:60-96 | a record cut off at the end of the last input is always lost, whatever the hash function does |
| Joining.WellSizedIsWhole | crates/blk-scan/src/scan.rs:99-120 | declared sizes of at least 80 keep every record whole |
| BlockFile.Apply | crates/blk-scan/src/obfuscation.rs:53-62 | the in-place XOR keys each byte by its absolute position; an all-zero key changes nothing |
| BlockFile.KeyedTwice | crates/blk-scan/src/obfuscation.rs:53-62 | applying the key twice at one position restores the data |
| Writing.ZerosShowTheKey | crates/blk-scan/src/obfuscation.rs:53-62 | stored zeros show the key: byte p of the file is byte p mod 8 of the key |
| BlockFile.KeyedSlice | crates/blk-scan/src/obfuscation.rs:53-62 | any slice decodes on its own, given its position |
| BlockFile.KeyedConcat | crates/blk-scan/src/bin/concat.rs:81-95 | keying a joined text is joining what is keyed piece by piece at running offsets |
| Chain.Summarise | crates/blk-scan/src/scan.rs:149-197 | indexes first children and walks from genesis; terminates and summarises the unique complete walk |
| Chain.FirstChildIsFirst | crates/blk-scan/src/scan.rs:159-162 | the walk follows the first record that names the parent, and there is a child exactly if some record does |
| Chain.OrphansCounted | crates/blk-scan/src/scan.rs:164-167 | the orphan count is that of the records other than genesis whose parent is not present |
| Chain.GenesisDisplayed | crates/blk-scan/src/scan.rs:146-152 | the genesis hash is displayed as the constant's text |
| Chain.WalkEndsIff | crates/blk-scan/src/scan.rs:182-188 | with genesis present the walk ends exactly when it never returns to a block |
| Chain.AcyclicNeverReturns | crates/blk-scan/src/scan.rs:159-162 | acyclic parent links are enough for that |
| Chain.SummaryIsSound | crates/blk-scan/src/scan.rs:156-197 | connected blocks are distinct present blocks, so at most `blocks`; the tip is present and no record's parent is the tip |
| Chain.SummaryIsUnique | crates/blk-scan/src/scan.rs:149-197 | the records determine the summary |
| Chain.ConnectedIsReachable | crates/blk-scan/src/scan.rs:156-197 | for any records, `connected` is at most the number of blocks reachable from genesis, and equals it when no reachable block has two different children |
| Chain.ConnectedIsReachableIff | crates/blk-scan/src/scan.rs:156-197 | with acyclic links and one parent to a hash, only then |

## Left out

- Worker.RunKeepsInv: steps interleave one at a time; weaker memory orderings of the atomics are not modelled.
- Worker.ClaimsDiffer: the generation, extranonce and job-id counters are unbounded here; their wrap after 2^64 steps is not modelled, and the "nothing solved" sentinel of the solved cell is an absent value.
- Worker.AtMostOneLateBatch: a batch and a snapshot's load are one step each; sleeping and its two-second timeout are a step that may happen at any time; `submit`'s printing and a closed channel are not modelled.
- Pool.PollTemplates: a turn's node reply, refresh timer, parent header and open channels are inputs; the outage and readiness exits only cut a run short, and connections that arrive during the run are the subject of `Delivery`, with the numbers of the jobs in place of their text.
- Delivery.ArriveInOrderIff: a connection while it lasts; disconnecting, and the difficulty line sent before the job, are not modelled.
- Validate.Check: stops at handing over the block; the submission itself, the wait before it and the reading of the node's answer are not modelled, and error messages carry no text.
- Script.PushData: a push above 520 bytes panics in the source; here such data is outside the type of an element.
- Chain.Summarise: on records whose walk returns to a block the source loops for ever; the method asks that it does not (`Chain.WalkEndsIff` says when), and the genesis hash is given as bytes (`Chain.GenesisDisplayed` gives its text).
- BlockFile.Concatenate: files are byte sequences; on an error the partly written output is not modelled.
- Midstate.HardwareSha256: which compression is used is a flag, not a CPU feature check; the unsafe pointer loads are plain reads.
- Hex.DecodedIff: text is taken as one-byte characters; slicing inside a longer character, which panics in the source, is not modelled.
- Stratum.NotifyRoundTrip: parameters are a small datatype of strings, booleans and arrays, not JSON text.
- JobBuilder.BuildSucceedsIff: says when a template becomes a job; no template is worked through, since that would mean evaluating its commitment's hash (`EndToEnd.CoherentJobExists` gives a job that meets the pipeline's conditions).
- Sha256.RoundConstantsAreRoots: the table of the first 64 primes is taken as given.
- Session.EveryShareIsAnswered: an authorised session; replies, the refresh request and connection handling are not modelled, and an extranonce too long to push is an answer of its own where the source panics.
- Sockets, HTTP, JSON-RPC, cookies, sessions, channels and their threads: plumbing around the modelled values.
- Readiness checks, network selection, base64, argument parsing, configuration and scripts: short straight-line code.
- Difficulty and hash rate in floating point, printing and the lifetime file: display only.
- No hardness or collision resistance of SHA-256 is assumed anywhere; disjointness of work is stated on coinbase bytes.
