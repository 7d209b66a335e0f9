# Verification of the cross-chain escrow programs

A Dafny model of a pair of programs that swap assets between two chains by hashed time
locks. On the source chain a maker creates an *order*; whitelisted resolvers fill it, whole
or in parts, and each fill makes an *escrow* locked by a hash. On the destination chain the
resolver locks the agreed amount in an escrow of its own. Whoever withdraws reveals the
secret; if nobody does, both sides are cancelled after their time.

`dafny verify dfyconfig.toml` checks the project.

## How the model is laid out

| files | what they hold |
|---|---|
| `Wrappers`, `Sequences`, `Arithmetic`, `Bits`, `Numerals` | results and errors, the ends of sequences, division, shifts and masks, positional numerals |
| `Timelocks`, `Packed24`, `Encoding` | the packed timelock word, three-byte integers, the bytes hashed into an order's identity and an auction's commitment |
| `Auction`, `DstAmount` | the Dutch auction, the cancellation premium, the destination amount |
| `Merkle`, `MerkleProofs` | the tree of secrets: verifier, builder, prover, and why they agree |
| `PartialFill` | which secret a partial fill must use |
| `Accounts`, `Payouts`, `Ledger` | balances as values, the shared payouts as functions on them, and a ledger object that performs them in place |
| `SourceSpec`, `Source` | the source program: its state and steps as values, and its handlers as methods on mutable accounts proved to perform those steps |
| `SourceInvariant`, `SourceEffects` | what every step keeps, when each instruction succeeds, and exactly what it moves |
| `SourceRuns`, `OrderBook`, `OrderProperties`, `EscrowLog` | runs of the source program, the record of an order's fills, and the life of an escrow |
| `DestinationSpec`, `Destination`, `DestinationInvariant`, `DestinationRuns` | the same for the destination program |
| `AnyState`, `Refusals` | what the instructions take in states where something was rescued, and with which errors they refuse what they do not accept |
| `CrossChain` | both programs interleaved in any order under one clock |

## How the programs are modelled

- An instruction that fails leaves the state as it was. Checked arithmetic that would
  overflow or underflow is such a failure.
- A run starts with no orders and no escrows and is any sequence of instructions, successful
  or not, clock ticks, and outside interference. Outsiders may donate to any account and do
  as they like with their own, but they cannot debit an account the programs own.
- The hash function is a parameter. Where a theorem needs it free of collisions, it asks for
  that on the finite set of inputs the run in question hashed, and on the last 30 bytes
  where the program compares only those.
- Addresses are terms built from their seeds, so different seeds give different addresses.
- Rent-exempt minimums and the native mint are constants of a chain. The clock never runs
  back.
- The order of the stages is enforced nowhere. That each escrow closes once needs no order;
  when public execution waits for the private stages is proved as an exact condition on the
  instructions, for refunds and for payments; elsewhere an order of stages is a hypothesis.
- An order's hash can be used again once the order is closed. Its record starts anew with
  every creation; what its lives have to do with each other is proved apart.
- The rows of `SourceProgram` and `DestinationProgram` say which handler a method is. Its
  contract is the specified outcome; the properties are those of the specification, and
  `Execute` carries solvency and conservation back to the mutable state.
- Rescue may take a live asset once its delay has passed. Solvency is therefore stated in two
  ways: for every order and escrow that was not rescued, nor filled from a rescued order; and,
  with no assumption on the run at all, for every one whose delay has not passed.

Where comments and code differ, the model follows the code: the safety deposit may equal the
escrow account's rent, though the comments in both `create` handlers say it is less; and the
client's index for the remainder agrees with the program's only when the order has at least
as many units as parts.

## Model

| member | source | states |
|---|---|---|
| `PartialFill.StatelessCheckRefinesRecord` | programs/cross-chain-escrow-src/src/lib.rs:1203-1229 | In every run of accepted fills the check that keeps no record of used secrets answers as one that keeps it: a closing fill needs the index after the last part, any other the part its end reaches, beyond every used index. It aborts exactly on an empty first fill or a product over 64 bits |
| `PartialFill.RecomputedIndexIsLastUsed` | programs/cross-chain-escrow-src/src/lib.rs:1218-1222 | In every partly filled order the index recomputed from the unfilled amount is the index the last fill was accepted with |
| `PartialFill.IndicesIncrease` | programs/cross-chain-escrow-src/src/lib.rs:1203-1229 | Accepted indices strictly increase over any run of fills |
| `PartialFill.FillCountBound` | programs/cross-chain-escrow-src/src/lib.rs:1210-1228 | An order has at most one fill per secret (parts + 1) and at most one per unit |
| `PartialFill.RemainderIsAccepted` | programs/cross-chain-escrow-src/src/lib.rs:1214-1217 | The whole remainder of any open order is accepted when the product fits, and its index equals the number of parts exactly when the order has a unit for every part |
| `PartialFill.EveryPartIsReachable` | programs/cross-chain-escrow-src/src/lib.rs:1203-1229 | With two units to a part, every unused later index below the number of parts has a fill that uses it and leaves the order open |
| `PartialFill.AllPartsReachable` | programs/cross-chain-escrow-src/src/lib.rs:1203-1229 | On a fresh order, every index below the number of parts is reachable if and only if there are two units to a part |
| `PartialFill.ClientAgrees` | programs/cross-chain-escrow-src/tests/helpers_src.rs:977-989 | The index the client picks is accepted for the remainder exactly when the order has a unit for every part, and otherwise exactly when it exceeds every used index |
| `OrderProperties.RecomputationIsRecord` | programs/cross-chain-escrow-src/src/lib.rs:197-207 | The refinement holds in every reachable state of the program for every open order and every attempted fill |
| `OrderProperties.OpenOrdersCanProgress` | programs/cross-chain-escrow-src/src/lib.rs:192-211 | From every reachable open order the remainder can be taken, with index `parts` exactly when the order has that many units, and with two units to a part every later secret can be used next |
| `OrderProperties.OpenOrdersCanBeClosed` | programs/cross-chain-escrow-src/src/lib.rs:162-280 | From every reachable open, unexpired, unrescued order that commits to one leaf for each index up to `parts` there is a proof with which taking the remainder succeeds exactly when the signer is a resolver with the lamports the new escrow lacks, that escrow is new, and its destination amount fits its width |
| `OrderProperties.OpenOrdersCanBeContinued` | programs/cross-chain-escrow-src/src/lib.rs:162-280 | With two units to a part, every secret beyond the last used one but the closing one has an amount below the remainder and a proof that the program accepts under the same conditions |
| `OrderProperties.SingleOrdersCanBeFilled` | programs/cross-chain-escrow-src/src/lib.rs:170-211 | From every reachable unexpired, unrescued single-fill order a fill succeeds exactly for its whole amount, without a proof, and under those conditions |
| `OrderProperties.NoSecretOpensTwo` | programs/cross-chain-escrow-src/src/lib.rs:192-211 | Over every run two fills of one order since its latest creation have different hashlocks, so no secret opens two of its escrows, if the order commits to leaves with distinct secrets and the hash has no collision among the inputs hashed |
| `OrderProperties.SecretsAcrossLives` | programs/cross-chain-escrow-src/src/lib.rs:192-211 | Over every run and all lives of an order hash, two fills have the same hashlock exactly when they claim the same committed leaf, and within one life exactly when they are the same fill |
| `OrderProperties.StoredEscrowsHaveOwnSecrets` | programs/cross-chain-escrow-src/src/lib.rs:192-211 | And wherever a run has created the order no more than once, no two escrows stored under its hash have the same hashlock |
| `OrderBook.BookIsKept` | programs/cross-chain-escrow-src/src/lib.rs:261-277 | In every reachable state a stored order is its created terms less the sum of its escrows' amounts, and it is stored exactly as long as something remains and nobody cancelled it; every escrow created carries the order's terms, passed every check, and the fills form a valid run |
| `OrderProperties.FillsAreBounded` | programs/cross-chain-escrow-src/src/lib.rs:170-174 | Over every run an order has at most min(amount, parts + 1) fills, and a single-fill order at most one |
| `OrderProperties.WindowsStartAtTheFill` | programs/cross-chain-escrow-src/src/lib.rs:233-243 | The windows of every escrow are the order's stage offsets counted from the fill's own time |
| `Merkle.ProcessProof` | programs/cross-chain-escrow-src/src/merkle_tree.rs:12-25 | The verifier's loop computes the fold of the proof over the leaf hash |
| `Merkle.SmallerNodeFirst` | programs/cross-chain-escrow-src/src/merkle_tree.rs:16-22 | Of two nodes the one with the smaller byte where they first differ is hashed first, by the verifier and by the builder, whichever of them is the proof's |
| `Merkle.FoldEndsWithLast` | programs/cross-chain-escrow-src/src/merkle_tree.rs:16-22 | The proof's elements are hashed in from first to last |
| `Merkle.LeafLayout` | programs/cross-chain-escrow-src/src/merkle_tree.rs:28-31 | A leaf is hashed from its index, eight bytes with the most significant first, and then the hashed secret |
| `Merkle.HashLevel` | programs/cross-chain-escrow-src/tests/helpers_src.rs:1003-1017 | The builder's loop pairs the nodes of a level, with a zero sibling at an odd end |
| `Merkle.PairIsHashed` | programs/cross-chain-escrow-src/tests/helpers_src.rs:994-1009 | Every pair of a level is hashed with the smaller node first |
| `Merkle.OddEndIsPadded` | programs/cross-chain-escrow-src/tests/helpers_src.rs:1011-1014 | A node alone at an odd end is hashed after 32 zero bytes |
| `Merkle.GetRoot` | programs/cross-chain-escrow-src/tests/helpers_src.rs:1033-1041 | Repeated levels end in the root of the tree |
| `Merkle.GetProof` | programs/cross-chain-escrow-src/tests/helpers_src.rs:1043-1060 | The prover's loop collects the sibling of every node on the leaf's path |
| `Merkle.PreparedHashlock` | programs/cross-chain-escrow-src/tests/helpers_src.rs:946-950 | Overwriting two bytes of the root stores the number of parts and keeps the other 30 bytes |
| `Merkle.PreparedBytes` | programs/cross-chain-escrow-src/tests/helpers_src.rs:946-950 | Those two bytes are the lowest of the number of parts, the higher one first |
| `MerkleProofs.Completeness` | programs/cross-chain-escrow-src/tests/helpers_src.rs:994-1060 | For every list of leaves, odd levels included, and every position, folding the prover's path over the leaf gives the builder's root |
| `MerkleProofs.HonestProofVerifies` | programs/cross-chain-escrow-src/src/lib.rs:193-196 | Every committed leaf has a proof that folds to the order's root, which is the first of a fill's two secret checks |
| `MerkleProofs.ProofLength` | programs/cross-chain-escrow-src/tests/helpers_src.rs:1043-1060 | A proof has exactly the rounded-up logarithm of the leaf count as its length |
| `MerkleProofs.Log2CeilUnique` | programs/cross-chain-escrow-src/tests/helpers_src.rs:1019-1031 | The bit-counting logarithm is the one exponent whose power of two just covers its argument |
| `MerkleProofs.Soundness` | programs/cross-chain-escrow-src/src/lib.rs:192-196 | A proof of any length that the fill check accepts proves a committed pair of index and hashed secret, if the hash has no collision, on its last 30 bytes, among the inputs hashed by the two sides |
| `Auction.CalculateRateBump` | programs/cross-chain-escrow-src/src/auction.rs:17-54 | The loop computes the rate bump with every product and sum inside 64 bits and no zero divisor, for all inputs |
| `Auction.RateBumpIsFloorOfCurve` | programs/cross-chain-escrow-src/src/auction.rs:26-53 | While the auction runs the bump is the floor of the exact piecewise-linear interpolation at the current time |
| `Auction.CurveCoversAuction` | programs/cross-chain-escrow-src/src/auction.rs:22-53 | Every moment of a running auction lies on a segment of that curve |
| `Auction.RateBumpAtKnot` | programs/cross-chain-escrow-src/src/auction.rs:34-42 | At a point's own time, before the finish, the bump is that point's bump |
| `Auction.RateBumpOutsideAuction` | programs/cross-chain-escrow-src/src/auction.rs:18-24 | Up to the start the bump is the initial one, and from the finish on there is none |
| `Auction.RateBumpNeverExceedsLargest` | programs/cross-chain-escrow-src/src/auction.rs:17-54 | The bump never exceeds the largest bump of the auction |
| `Auction.RateBumpFalls` | programs/cross-chain-escrow-src/src/auction.rs:17-54 | If no point raises the bump, the bump never rises over all time: across segment borders, zero-length segments, points past the finish and rounding |
| `Auction.NeverRisesExactly` | programs/cross-chain-escrow-src/src/auction.rs:17-54 | For every auction, the bump never rises over all pairs of times if and only if after each corner that shows before the finish it starts no higher than the corner and the segment does not raise it, save in one second or by less than shows before the finish |
| `Auction.NeverRisesExactlyWhenBumpsFall` | programs/cross-chain-escrow-src/src/auction.rs:17-54 | Where every point takes time and comes before the finish, that is so if and only if no point raises the bump |
| `Auction.RisingPointRaisesBump` | programs/cross-chain-escrow-src/src/auction.rs:34-42 | A witness: a point that raises the bump makes it rise |
| `Auction.UnseenPointMayRaise` | programs/cross-chain-escrow-src/src/auction.rs:17-54 | Points that raise the bump unseen, by less than one up to the finish, so that the shorter condition is not exact for every auction |
| `Auction.PremiumDefined` | programs/cross-chain-escrow-src/src/auction.rs:56-72 | The premium aborts exactly inside its ramp on a product over 64 bits, and never for a premium below 2^32 |
| `Auction.PremiumRises` | programs/cross-chain-escrow-src/src/auction.rs:56-72 | The premium rises from 0 at expiration to its maximum at the end of the ramp |
| `Auction.PremiumIsFloorOfRamp` | programs/cross-chain-escrow-src/src/auction.rs:66-71 | Between the two it is the floor of the exact straight-line ramp |
| `Packed24.U24RoundTrips` | programs/cross-chain-escrow-src/src/auction.rs:77-92 | The three-byte integers and their conversions are inverse to each other, and conversion fails exactly above 24 bits |
| `DstAmount.AuctionOnlyAdds` | programs/cross-chain-escrow-src/src/lib.rs:1189-1201 | The amount due is the exact raised amount rounded up by less than one unit, and never less than before the auction |
| `DstAmount.DefinedExactly` | programs/cross-chain-escrow-src/src/lib.rs:245-257 | A destination amount exists exactly when the order is not empty and both products, with what is added to round them up, stay below 2^256 |
| `DstAmount.DueIsRoundedUpTwice` | programs/cross-chain-escrow-src/src/lib.rs:245-257 | It is the one number that is the order's amount in proportion to the fill rounded up, raised by the bump in ten-millionths and rounded up again |
| `DstAmount.SplittingNeverCosts` | programs/cross-chain-escrow-src/src/lib.rs:245-257 | Parts that add up to the whole order owe at least its destination amount, and before the auction at most one unit more for each part but one |
| `OrderProperties.FilledOrdersArePaidInFull` | programs/cross-chain-escrow-src/src/lib.rs:235-259 | When a run has filled an order completely, the destination amounts of its escrows add up to at least the order's, and before the auction exceed it by at most the number of fills less one |
| `OrderProperties.OneAuctionPerOrder` | programs/cross-chain-escrow-src/src/lib.rs:180-185 | All fills of an order follow the same auction, unless the hash collides on two of them |
| `Source.SourceProgram.GetDstAmount` | programs/cross-chain-escrow-src/src/lib.rs:245-257 | Both ceiling divisions in checked 256-bit arithmetic |
| `Timelocks.SetDeployedAtIsRedeploy` | common/src/timelocks.rs:27-30 | Masking, shifting and or-ing replaces the deployment field of the packed word and no other field |
| `Timelocks.LastDeploymentWins` | common/src/timelocks.rs:27-30 | Only the last deployment time written survives |
| `Timelocks.WordReadsItsFields` | common/src/timelocks.rs:32-48 | Reading a stage or the rescue time adds that field or the delay to the deployment time, or reports an overflow, for every 256-bit word; the narrowing never panics |
| `Timelocks.StagesInOrder` | common/src/timelocks.rs:8-16 | Which field each of the seven stages is, counted from the deployment time in the last field, and that rescue starts eight days after it |
| `Timelocks.WordStagesInOrder` | common/src/timelocks.rs:32-48 | The same on the word: how many bits up each stage's 32-bit offset lies, with the deployment time in the topmost 32 |
| `Timelocks.WindowsFollowDeployment` | common/src/timelocks.rs:27-48 | A word redeployed at a time has each of its windows shifted to that time |
| `Timelocks.PackingRoundTrips` | common/src/timelocks.rs:18-20 | The word is exactly its eight 32-bit fields, in both directions |
| `Timelocks.LimbsRoundTrip` | common/src/timelocks.rs:23-25 | The stored form of four 64-bit limbs loses nothing |
| `Encoding.OrderRoundTrip` | programs/cross-chain-escrow-src/src/lib.rs:1267-1282 | A decoder recovers all fourteen parameters from the bytes hashed into an order's identity |
| `Encoding.OrderLayout` | programs/cross-chain-escrow-src/src/lib.rs:1267-1282 | The 234 bytes place by place: where each of the fourteen parameters stands and in which byte order |
| `Encoding.OrderStringsAreCanonical` | programs/cross-chain-escrow-src/src/lib.rs:1267-1282 | And no two byte strings decode to the same order |
| `Encoding.OrderIdentity` | programs/cross-chain-escrow-src/src/lib.rs:1250-1284 | Orders with one hash have identical parameters, unless the hash collides on the two |
| `Encoding.AuctionCommitment` | programs/cross-chain-escrow-src/src/lib.rs:180-185 | One commitment fixes the auction's data, unless the hash collides on two encodings |
| `Encoding.AuctionLayout` | programs/cross-chain-escrow-src/src/lib.rs:180-185 | The bytes of the auction's data place by place, with every point's bump and time |
| `Payouts.NativePayoutSplit` | common/src/escrow.rs:180-198 | A native payout gives the exact amount to the recipient, the deposit to a distinct executor and all the rest to the rent recipient, whichever of these accounts coincide, and fails exactly for lack of lamports |
| `Payouts.TokenPayoutSplit` | common/src/escrow.rs:199-209 | A token payout gives every token to the recipient, none if a rescue has emptied the account, with its lamports if the mint is native, the deposit to a distinct executor and all other lamports to the rent recipient |
| `Payouts.RescueIsExact` | common/src/escrow.rs:30-55 | A rescue moves exactly the amount asked for and closes the account exactly when that empties it |
| `Payouts.RescueSucceeds` | common/src/escrow.rs:23-42 | A rescue succeeds exactly when its time has come, both token accounts are open and the amount is there |
| `Accounts.OpeningIsCharged` | programs/cross-chain-escrow-src/src/lib.rs:616-673 | Opening an account and its token account costs the payer exactly what they lack of their rents, and fails exactly when the payer has less |
| `Accounts.TokenTransferConserves` | common/src/escrow.rs:100-130 | A token transfer conserves lamports and the tokens of every mint |
| `Accounts.CloseTokenConserves` | common/src/escrow.rs:154-164 | So does closing a token account |
| `Source.SourceProgram.Create` | programs/cross-chain-escrow-src/src/lib.rs:32-160 | In place: a new unexpired order with its parts, deposit and native checks passed, its accounts opened, its amount deposited and its windows counted from now; the state is the specified one or the failure the specified one |
| `Source.SourceProgram.CheckFill` | programs/cross-chain-escrow-src/src/lib.rs:170-211 | The checks of a fill and the hashlock they yield |
| `Source.SourceProgram.CreateEscrow` | programs/cross-chain-escrow-src/src/lib.rs:162-280 | In place: a checked fill moves its tokens to a new escrow with its own hashlock, windows and destination amount, and closes the order or lowers what remains of it |
| `Source.SourceProgram.Withdraw` | programs/cross-chain-escrow-src/src/lib.rs:282-306 | In place: inside [withdrawal, cancellation) and for the secret, the taker is paid, keeps the deposit and the escrow is gone |
| `Source.SourceProgram.PublicWithdraw` | programs/cross-chain-escrow-src/src/lib.rs:308-332 | In place: inside [public withdrawal, cancellation) a resolver pays the taker and earns the deposit |
| `Source.SourceProgram.CancelEscrow` | programs/cross-chain-escrow-src/src/lib.rs:334-357 | In place: from cancellation on the maker is refunded and the taker keeps the deposit |
| `Source.SourceProgram.PublicCancelEscrow` | programs/cross-chain-escrow-src/src/lib.rs:359-382 | In place: from public cancellation on a resolver refunds the maker and earns the deposit |
| `Source.SourceProgram.CancelOrder` | programs/cross-chain-escrow-src/src/lib.rs:384-426 | In place: the maker takes the tokens and both accounts' lamports back and the order is gone |
| `Source.SourceProgram.CancelOrderByResolver` | programs/cross-chain-escrow-src/src/lib.rs:428-503 | In place: a resolver closes an expired order through its own account and forwards all but its reward |
| `Source.SourceProgram.RescueFundsForEscrow` | programs/cross-chain-escrow-src/src/lib.rs:505-541 | In place: the taker takes tokens out of an escrow's address, once the delay has passed if the escrow is live |
| `Source.SourceProgram.RescueFundsForOrder` | programs/cross-chain-escrow-src/src/lib.rs:543-599 | In place: the same for a resolver and the order whose parameters it names |
| `Source.SourceProgram.Execute` | programs/cross-chain-escrow-src/src/lib.rs:26-600 | A transaction has all of an instruction's effects or leaves the state as it was; either way it conserves lamports and tokens and keeps funded whatever was funded and not rescued |
| `SourceInvariant.StepKeepsSolvency` | programs/cross-chain-escrow-src/src/lib.rs:215-231 | Every instruction conserves lamports and tokens, and every step keeps each order and escrow funded unless it rescues that very one or fills it from a rescued order |
| `SourceRuns.RunsStaySolvent` | programs/cross-chain-escrow-src/src/lib.rs:81-136 | In every reachable state, whatever the instructions, donations and failed attempts, every order and escrow that was not rescued holds its principal, its deposit and, for orders, the lamports for its premium besides those that its remaining native tokens stand for |
| `SourceRuns.YoungOrdersAreFunded` | common/src/escrow.rs:23-29 | Over every run and with no assumption on it, an open order is funded until the rescue delay since its creation has passed |
| `SourceRuns.RunsConserve` | programs/cross-chain-escrow-src/src/lib.rs:26-600 | A run without outside interference makes and loses no lamport and no token |
| `SourceRuns.StepMovesStores` | programs/cross-chain-escrow-src/src/lib.rs:138-157 | Who signs each instruction and what it does to the stored orders and escrows: a new order carries every hashed parameter but the salt, with a premium within the rent of a token account opened for it; a fill adds one escrow and lowers or removes its order, a payout removes one escrow inside its window; filling, public execution, cancelling for others and rescuing from an order need a resolver |
| `SourceInvariant.RescueWaits` | common/src/escrow.rs:23-29 | A live asset cannot be rescued before its deployment time plus the delay |
| `SourceInvariant.WithdrawSucceeds` | programs/cross-chain-escrow-src/src/lib.rs:282-332 | Both withdrawals of a live escrow succeed exactly when their window is open, the secret fits and the taker's token account exists, the public one only for a resolver: they never lack funds |
| `SourceInvariant.WithdrawGateAnswers` | programs/cross-chain-escrow-src/src/lib.rs:282-332 | A wrong secret is refused as such inside the window only, and outside of it the time is refused |
| `SourceInvariant.CancelSucceeds` | programs/cross-chain-escrow-src/src/lib.rs:334-382 | Both cancellations succeed exactly from their stage on, given the maker's token account unless the asset is native, the public one only for a resolver |
| `SourceInvariant.CancelOrderSucceeds` | programs/cross-chain-escrow-src/src/lib.rs:384-426 | The maker can cancel an open order at any time, given the right accounts |
| `SourceInvariant.FillSucceeds` | programs/cross-chain-escrow-src/src/lib.rs:162-280 | A fill succeeds exactly when its signer is a resolver with the lamports the new escrow's accounts lack, that escrow is new, the order has not expired, the auction is the committed one, the secret is the one the amount calls for or a single fill takes it all, and the destination amount fits: the order never lacks tokens |
| `SourceInvariant.CheckFillAccepts` | programs/cross-chain-escrow-src/src/lib.rs:170-211 | The checks of a fill accept exactly those, and yield the hashlock of the secret presented or the order's own |
| `SourceInvariant.CheckFillRefuses` | programs/cross-chain-escrow-src/src/lib.rs:170-196 | With which error every other fill is refused, by the first condition it fails |
| `SourceEffects.CreateSucceeds` | programs/cross-chain-escrow-src/src/lib.rs:32-136 | An order is created exactly when it is new, meets the conditions on its premium, parts, expiry, amount, deposit and native flag, and its creator can pay for its accounts and its amount |
| `SourceEffects.DepositIsExact` | programs/cross-chain-escrow-src/src/lib.rs:99-136 | A deposit takes exactly the order's amount from its creator, in lamports that are wrapped or in tokens |
| `SourceEffects.CreateEffect` | programs/cross-chain-escrow-src/src/lib.rs:32-136 | A creation as a whole charges its creator exactly what the order's two accounts lack and deposits exactly the amount |
| `SourceEffects.FillMovesItsTokens` | programs/cross-chain-escrow-src/src/lib.rs:215-231 | A fill moves exactly its amount from the order to the escrow, or on closing everything the order holds |
| `SourceEffects.FillEffect` | programs/cross-chain-escrow-src/src/lib.rs:215-277 | A fill as a whole: its taker pays exactly what the escrow's two accounts lack, the tokens go to the escrow with the lamports of native ones, a closing fill leaves every lamport of the order's two accounts to its creator and any other none, nobody else gains or loses, and the new escrow carries the order's terms |
| `SourceEffects.RecordSettles` | programs/cross-chain-escrow-src/src/lib.rs:261-277 | A closing fill closes the order and its token account to the order's creator, and any other leaves the balances as they are |
| `SourceEffects.TakerIsPaid` | programs/cross-chain-escrow-src/src/utils.rs:10-53 | A withdrawal pays the taker every token of the escrow, no less than its amount, the executor the deposit and the taker the rest |
| `SourceEffects.MakerIsRefunded` | programs/cross-chain-escrow-src/src/utils.rs:55-95 | A cancellation refunds the maker the exact amount in lamports, or every token, the executor the deposit and the taker the rest |
| `SourceEffects.CancellationReturnsAll` | programs/cross-chain-escrow-src/src/lib.rs:394-425 | A maker who cancels an order gets everything in its accounts back, whatever a rescue has left of it |
| `SourceEffects.CancelByResolverSucceeds` | programs/cross-chain-escrow-src/src/lib.rs:435-502 | A resolver's cancellation succeeds exactly on an expired order that offers a premium whose product stays below 2^64 inside its ramp, with the right accounts, and, for wrapped native tokens handled as tokens, with lamports for the reward besides those of all tokens in the account |
| `SourceEffects.RentBoundedPremiumNeverBlocks` | programs/cross-chain-escrow-src/src/lib.rs:48-51 | If the premium is at most the token account's rent and that is below 2^32, an expired order that was not rescued can always be cancelled by a resolver |
| `OrderProperties.OwnAccountNeverBlocks` | programs/cross-chain-escrow-src/src/lib.rs:48-51 | In every reachable state that holds for an order whose token account was opened with it, since the program's own check then bounds the premium by the rent |
| `SourceEffects.WrappedTokensCanBlock` | programs/cross-chain-escrow-src/src/lib.rs:476-479 | Where all lamports of the order's token account but its rent are wrapped and handled as tokens, a reward above the rent makes the cancellation fail |
| `OrderProperties.WrappedTokensBlock` | programs/cross-chain-escrow-src/src/lib.rs:428-503 | A run from a state without orders to an order with which that happens: its token account was opened and its tokens wrapped before it was created, and nobody rescued from it |
| `SourceEffects.ExactTokensNeverBlock` | programs/cross-chain-escrow-src/src/lib.rs:476-502 | An unrescued order whose account holds exactly the tokens that remain of it is never blocked for lack of lamports: the conditions on signer, accounts, expiry, premium and its product are exact |
| `SourceEffects.ResolverEarnsThePremium` | programs/cross-chain-escrow-src/src/lib.rs:469-502 | The resolver's net gain is exactly the smaller of the premium of the moment and its limit; every token and all other lamports go to the creator, whatever a rescue has left of them |
| `SourceEffects.EscrowRescueGoesToTaker` | programs/cross-chain-escrow-src/src/lib.rs:530-540 | A rescue from an escrow's address succeeds exactly when the delay has passed, if the escrow is live, and the tokens are there; it goes to the taker the address is made from, and nothing else moves |
| `SourceEffects.OrderRescueGoesToResolver` | programs/cross-chain-escrow-src/src/lib.rs:588-598 | A rescue from an order's address succeeds exactly for a resolver when the delay has passed, if the order is live, and the tokens are there; it goes to that resolver, and nothing else moves |
| `SourceAnyState.WithdrawTakes` | programs/cross-chain-escrow-src/src/lib.rs:282-332 | In every reachable state, also after a rescue, a withdrawal succeeds exactly with both token accounts open, in its window, with the secret and with a deposit for its executor, and pays out every token there is |
| `SourceAnyState.CancelTakes` | programs/cross-chain-escrow-src/src/lib.rs:334-382 | In every such state a cancellation succeeds exactly from its stage on, with its accounts and with enough to refund, and splits what there is exactly |
| `SourceAnyState.CancelOrderTakes` | programs/cross-chain-escrow-src/src/lib.rs:384-426 | In every such state the maker's cancellation takes nothing but the accounts |
| `SourceAnyState.ResolverCancelTakes` | programs/cross-chain-escrow-src/src/lib.rs:435-502 | In every such state a resolver's cancellation takes its conditions and the lamports for its reward besides those of the tokens |
| `SourceAnyState.FillTakesWhatThereIs` | programs/cross-chain-escrow-src/src/lib.rs:162-280 | In every such state a fill succeeds exactly when besides its other conditions the tokens of its amount are there, and a closing fill takes what there is |
| `SourceRefusals.OutsidersAreRefused` | programs/cross-chain-escrow-src/src/lib.rs:678-685 | Filling, public execution, cancelling for others and rescuing from an order are refused as unauthorised to everyone but resolvers, whatever else holds |
| `SourceRefusals.NewOrderRefused` | programs/cross-chain-escrow-src/src/lib.rs:48-93 | With which error a new order whose accounts can be paid for is refused: its premium, its parts, its expiry, its amounts, its deposit or its native flag, by the first that is wrong |
| `SourceRefusals.ResolverCancellationRefused` | programs/cross-chain-escrow-src/src/lib.rs:435-446 | With which error a resolver's cancellation is refused: too early, no premium offered, or the wrong token account, in this order |
| `SourceRefusals.EarlyRefundRefused` | programs/cross-chain-escrow-src/src/lib.rs:334-382 | Before its stage a refund is refused for the time |
| `SourceRefusals.EarlyRescueRefused` | common/src/escrow.rs:23-29 | A rescue from something live is refused for the time exactly until its delay has passed |
| `EscrowLog.LogIsKept` | programs/cross-chain-escrow-src/src/lib.rs:282-382 | Over every run openings and closings of an escrow alternate, each closing lies in the window of the opening before it, and the escrow is stored exactly while the last is an opening |
| `EscrowLog.EachOpeningClosesOnce` | programs/cross-chain-escrow-src/src/lib.rs:282-382 | Over every run and in whatever order the stages are, each opening has at most one outcome before the next opening: payment for the secret in a withdrawal stage and before cancellation, or refund in a cancellation stage |
| `EscrowLog.OrderedStagesKeepOrder` | programs/cross-chain-escrow-src/src/lib.rs:308-382 | Where the public stages do not start before the private ones, no payment precedes the withdrawal stage and no refund the cancellation stage, whichever instruction makes it |
| `EscrowLog.RefundsWaitExactlyWhenOrdered` | programs/cross-chain-escrow-src/src/lib.rs:359-364 | For a funded escrow, public cancellation never succeeds before the cancellation stage if and only if its own stage does not start before that one (or overflows) |
| `EscrowLog.PaymentsWaitExactlyWhenOrdered` | programs/cross-chain-escrow-src/src/lib.rs:308-319 | For a funded escrow and the right secret, public withdrawal never succeeds before the withdrawal stage if and only if its own stage does not start before that one, or leaves no time before cancellation, or a start overflows |
| `EscrowLog.PrincipalLeavesOnce` | programs/cross-chain-escrow-src/src/utils.rs:21-95 | No step short of a rescue takes anything from a live escrow but the one that closes it, which pays all of it to the taker or to the maker |
| `EscrowLog.YoungEscrowsAreFunded` | common/src/escrow.rs:23-29 | Over every run and with no assumption on it, an escrow filled within its order's rescue delay is funded until its own delay has passed |
| `EscrowLog.YoungPrincipalLeavesOnce` | programs/cross-chain-escrow-src/src/utils.rs:21-95 | And every step until then leaves it whole or pays all of it to the taker or to the maker |
| `Destination.DestinationProgram.Create` | programs/cross-chain-escrow-dst/src/lib.rs:23-110 | In place: a new escrow whose cancellation starts no later than the source's, with its amount deposited, native tokens unwrapped; the state is the specified one or the failure the specified one |
| `Destination.DestinationProgram.Withdraw` | programs/cross-chain-escrow-dst/src/lib.rs:112-136 | In place: inside [withdrawal, cancellation) and for the secret, the recipient is paid and the creator takes the rest |
| `Destination.DestinationProgram.PublicWithdraw` | programs/cross-chain-escrow-dst/src/lib.rs:138-162 | In place: inside [public withdrawal, cancellation) a resolver pays the recipient and earns the deposit |
| `Destination.DestinationProgram.Cancel` | programs/cross-chain-escrow-dst/src/lib.rs:164-195 | In place: from cancellation on the creator takes everything back |
| `Destination.DestinationProgram.RescueEscrow` | programs/cross-chain-escrow-dst/src/lib.rs:197-234 | In place: the creator takes tokens out of the escrow's address, once the delay has passed if the escrow is live |
| `Destination.DestinationProgram.Execute` | programs/cross-chain-escrow-dst/src/lib.rs:18-235 | A transaction has all of an instruction's effects or leaves the state as it was; either way it conserves lamports and tokens and keeps funded whatever was funded and not rescued |
| `DestinationInvariant.CreateSucceeds` | programs/cross-chain-escrow-dst/src/lib.rs:34-93 | An escrow is created exactly when it is new, its cancellation starts no later than announced for the source, the conditions on amount, deposit and native flag hold, and its creator can pay |
| `DestinationRuns.CreateMoves` | programs/cross-chain-escrow-dst/src/lib.rs:95-107 | A new escrow carries all of its parameters and counts its windows from now |
| `DestinationInvariant.DepositIsExact` | programs/cross-chain-escrow-dst/src/lib.rs:65-93 | A deposit takes exactly the amount from the creator: lamports that stay unwrapped, or tokens |
| `DestinationInvariant.CreateEffect` | programs/cross-chain-escrow-dst/src/lib.rs:23-107 | A creation as a whole charges its creator exactly what the escrow's two accounts lack and deposits exactly the amount at the address made from the hashes, the creator and the amount |
| `DestinationInvariant.StepKeepsSolvency` | programs/cross-chain-escrow-dst/src/lib.rs:112-195 | Every instruction conserves lamports and tokens, and every step keeps each escrow funded that it does not rescue: a native one by lamports over its rent, any other by tokens |
| `DestinationInvariant.RecipientIsPaid` | programs/cross-chain-escrow-dst/src/utils.rs:33-51 | A payout succeeds exactly when a token account is given, unless the asset is native, and the recipient is not the escrow itself, unless the tokens are native; it pays the recipient the exact amount in lamports or every token, the executor the deposit and the creator the rest |
| `DestinationInvariant.OpenRecipientIsExact` | programs/cross-chain-escrow-dst/src/lib.rs:112-162 | Opening the recipient's token account costs the signer exactly what it lacks of its rent |
| `DestinationInvariant.CreatorIsRefunded` | programs/cross-chain-escrow-dst/src/lib.rs:181-192 | A cancellation returns everything to the creator |
| `DestinationInvariant.WithdrawSucceeds` | programs/cross-chain-escrow-dst/src/lib.rs:112-162 | A withdrawal succeeds exactly when its window is open, the secret fits, the recipient's token account is given, and open or paid for by the signer, unless the asset is native, and the recipient is not the escrow itself unless the tokens are native; the public one needs a resolver too |
| `DestinationInvariant.CancelSucceeds` | programs/cross-chain-escrow-dst/src/lib.rs:164-195 | A cancellation succeeds exactly from its stage on, given the creator's token account unless the asset is native |
| `DestinationInvariant.RescueWaits` | programs/cross-chain-escrow-dst/src/lib.rs:206-212 | A live asset cannot be rescued before its deployment time plus the delay |
| `DestinationInvariant.RescueGoesToCreator` | programs/cross-chain-escrow-dst/src/lib.rs:223-233 | A rescue succeeds exactly when the delay has passed, if the escrow is live, and the tokens are there; it goes to the creator the address is made from, and nothing else moves |
| `DestinationAnyState.WithdrawTakes` | programs/cross-chain-escrow-dst/src/lib.rs:112-162 | In every reachable state, also after a rescue, a withdrawal succeeds exactly in its window, with the secret, with an account for the recipient and with enough to pay, and splits what there is exactly |
| `DestinationAnyState.CancelTakes` | programs/cross-chain-escrow-dst/src/lib.rs:164-195 | In every such state a cancellation succeeds exactly from its stage on, with its accounts and, for a native asset, its amount, and returns everything there is |
| `DestinationRefusals.NewEscrowRefused` | programs/cross-chain-escrow-dst/src/lib.rs:34-63 | With which error a new escrow whose accounts can be paid for is refused: its cancellation time, its amounts, its deposit or its native flag, by the first that is wrong |
| `DestinationRefusals.WithdrawGateAnswers` | programs/cross-chain-escrow-dst/src/lib.rs:112-162 | A wrong secret is refused as such inside the window only, and outside of it the time is refused |
| `DestinationRefusals.EarlyCallsRefused` | programs/cross-chain-escrow-dst/src/lib.rs:164-212 | Before its stage a cancellation is refused for the time, and exactly before its delay a rescue from a live escrow |
| `DestinationRuns.RunsStaySolvent` | programs/cross-chain-escrow-dst/src/lib.rs:43-93 | In every reachable state every escrow that was not rescued is funded |
| `DestinationRuns.RunsConserve` | programs/cross-chain-escrow-dst/src/lib.rs:18-235 | A run without outside interference makes and loses no lamport and no token |
| `DestinationRuns.LogIsKept` | programs/cross-chain-escrow-dst/src/lib.rs:112-195 | Over every run each opening of an escrow is closed at most once: by payment for the secret before cancellation or by refund from cancellation on |
| `DestinationRuns.AssetLeavesOnce` | programs/cross-chain-escrow-dst/src/lib.rs:112-195 | No step short of a rescue takes anything from a live escrow but the one that closes it, which pays all of it to the recipient or the creator, whoever the recipient is |
| `DestinationRuns.YoungEscrowsAreFunded` | common/src/escrow.rs:23-29 | Over every run and with no assumption on it, an escrow is funded until its rescue delay has passed, and every step until then leaves it whole or pays all of it out |
| `CrossChain.WithdrawalIsEarly` | programs/cross-chain-escrow-dst/src/lib.rs:115-119 | A destination withdrawal that succeeds reveals a secret of the escrow's hashlock before the cancellation time announced for the source |
| `CrossChain.WithdrawalPrecedesRefund` | programs/cross-chain-escrow-dst/src/lib.rs:34-41 | Whenever a destination withdrawal succeeds, the matching source escrow has not been refunded: it is live or its taker was paid |
| `CrossChain.RevealedSecretStaysUsable` | programs/cross-chain-escrow-src/src/lib.rs:282-306 | After it, whatever else happens, at every later moment inside the source's withdrawal window the source escrow has been paid to its taker or is live, and then it can be withdrawn with the revealed secret unless a rescue took from it |
| `CrossChain.YoungSecretStaysUsable` | common/src/escrow.rs:23-29 | With no assumption on rescues, so long as no rescue delay has passed |

## Left out

- Account macros, address bumps, signer seeds and the mechanics of calls between programs: replaced by functions on balances and by addresses as terms. Signers are arguments of the instructions.
- The whitelist program: a set of resolvers that outsiders may change at any time.
- Keccak-256 itself: a parameter, with freedom from collisions as a hypothesis.
- Token extensions such as transfer fees, frozen accounts and delegated authorities: a transfer moves exactly the stated amount.
- Transactions of several instructions: each instruction is a step of its own, and one that fails undoes only itself.
- The runtime's rule that user wallets stay rent-exempt, and transaction fees.
- The clock as a signed 64-bit value: time is an unsigned 32-bit number, as both programs read it for every check; the auction reads the same clock.
- Upper limits of balances: lamports and tokens are unbounded naturals, and no balance exceeds the conserved total (`Accounts.BalanceBelowTotal`), so an overflow would need a total supply over 64 bits.
- The numbering of error codes and the order in which account constraints report their errors. Which instruction fails is modelled exactly; of several failing account constraints one error stands for all.
- The destination-chain parameters of `create`, which the program ignores, and the salt beyond its part in the order's identity.
- Two fields of an account that hold its bump, and the account discriminators.
- What a rescue after the delay ought to allow: its gate and its exact effect are modelled, not its policy.
- Test set-up code other than the Merkle tree helpers, the hashlock preparation and the client's index.
- CrossChain.RevealedSecretStaysUsable: asks for an open token account of the taker, and promises no payment from an escrow that a rescue took from; that someone submits the withdrawal in time is not modelled.
