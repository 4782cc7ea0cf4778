# Verified model of the trading client

The client signs actions, sends them, and keeps a table of its orders and books of the market from what comes back.
This project models the logic that has to be exactly right for that and proves what it promises, for all inputs, all
runs and all interleavings:

- **Scalars and signing** (`Words`, `Residues`, `Scalar`, `Bytes`, `Signing`): 4x64-bit arithmetic modulo the order of
  secp256k1 and the signing step that uses a precomputed nonce. The primality of the order is a hypothesis of the laws
  that need an inverse; Fermat's theorem itself is proved.
- **Order table** (`OrderTable`, `OrderSafety`, `OrderLifecycle`, `OrderGenerations`, `OrderExecutions`,
  `OrderConfluence`, `OrderInterleaving`, `OrderStates`, `ExchangeClient`): the handlers as steps on a table, messages
  in any order; the client object does these steps in place. `OrderStates` says what each event makes of the order it
  names.
- **Keccak-256** (`KeccakF`, `Sponge`, `Keccak`, `KeccakBits`, `KeccakTables`): the unrolled permutation, the buffered
  sponge, what the lane operations do bit by bit, and the tables derived from their definitions.
- **Action encoding** (`WireTree`, `MsgPack`, `JsonText`, `HexText`, `Actions`, `ActionTrees`, `ActionFields`,
  `ActionBuilders`, `ActionHash`): an action is a tree; the builders write it twice, and both texts read back as the
  tree, in which every field is found under its key. `ActionHash` hashes it with nonce, vault and expiry.
- **Decimals and prices** (`DecimalText`, `PriceGrid`, `PriceRounding`).
- **WebSocket** (`Masking`, `Streams`, `WsFrames`, `WsMessages`, `WsCodec`): frame writer and re-entrant decoder.
  `Streams` holds what is true of any frame reader that never changes its mind.
- **HTTP** (`HttpMachine`, `HttpText`, `HttpParser`, `HttpResponses`, `HttpHeaders`): the resumable response parser.
  `HttpMachine` takes one byte at a time for any reading of heads and lines; `HttpText` is the reading the code does and
  `HttpHeaders` what it makes of the lines a sender writes.
- **Order book** (`BookLevels`, `OrderBook`, `BookDepth`).
- **Nonces** (`NonceRing`, `NonceGenerator`): the pool under a lock and the compare-and-swap loop, as steps of threads.

`Basics`, `Octets` and `Division` hold what several of them share. `dafny verify dfyconfig.toml` checks everything.

## Conventions

- Machine words are integers with explicit bounds and explicit wrap-around; Keccak lanes and masking words are
  bit-vectors. Where the code divides, truncation toward zero is written out. Signed negation wraps.
- Sockets, clocks, randomness, HMAC and the elliptic-curve library are inputs: bytes, messages, `now`, `k`, `x`.
- Bytes of packed actions and of HTTP are characters below 256; bytes of WebSocket and Keccak are 8-bit vectors.
- A callback of the WebSocket decoder is a script: what the k-th callback does to the decoder before it returns.

## Findings

What the code does against its documentation or against what a caller would expect, each with a proof that it happens and
the exact condition under which it does not.

| finding | source | shown by | exactly when |
|---|---|---|---|
| A late update without cloid about an older exchange id of an amended external order takes the table back to that id and buries the live order. | src/om/ExchangeClient.cpp:1231-1246 | `OrderGenerations.AmendedExternalOrderIsBuried` | `OrderGenerations.UpdateMovesBack` |
| Bytes fed after a reset, inside the callback that reset the decoder, stay staged and are decoded after the bytes of the next call. | src/net/WsCodec.cpp:132-135 | `WsMessages.OrderIsLost` | `WsMessages.StagedAfterReset`, `WsMessages.NextCallAfterReset` |
| A filled acknowledgement for less than the whole order overwrites what a filled update reported, so the filled size depends on which came last. | src/om/ExchangeClient.cpp:1124-1130 | `OrderConfluence.PartialAckDiverges` | `OrderConfluence.ConfluentExactly` |
| A cancel and completing executions without a filled report: the order ends as whichever came first says. | src/om/ExchangeClient.cpp:1167-1186 | `OrderConfluence.CancelDiverges` | `OrderConfluence.ConfluentExactly` |
| A fill repeated after 20,000 other trade ids is credited again. | src/om/ExchangeClient.cpp:1287-1295 | `OrderExecutions.CreditedTwice` | `OrderExecutions.RememberedExactly`, `OrderExecutions.ForgottenExecutionsCountAgain` |
| The 64 KiB limit on an HTTP head is checked once per read: a longer head is accepted in one read and refused in two. | src/net/HttpCodec.cpp:136-141 | `HttpResponses.HugeHeader` | `HttpMachine.CutsAgreeExactly`, `HttpResponses.SizedResponse` |
| The smallest raw decimal is written with a magnitude that parsing refuses. | src/core/Decimal.cpp:76-106 | `DecimalText.TextRoundTrip` | `DecimalText.TextRoundTrip` |
| A book emptied on one side is documented as invalid until the next snapshot; the next uncrossed two-sided update makes it valid. The model follows the code. | include/hl/md/OrderBook.h:50-51 | `BookLevels.EmptySideFills` | `BookLevels.InvalidUntilRestored` |
| Snapshots are copied unchecked: unsorted or crossed levels make an unsound book. | src/md/OrderBook.cpp:21-27 | `BookLevels.StepKeepsSound` | `BookLevels.RunKeepsSound` |

## Model

| member | source | states |
|---|---|---|
| `Scalar.Sub` | src/crypto/Scalar.h:58-66 | the four limbs and the borrow are the exact difference modulo 2^256 |
| `Scalar.CondSubN` | src/crypto/Scalar.h:69-78 | one masked subtraction reduces any 256-bit value modulo n |
| `Scalar.LessThan` | src/crypto/Scalar.h:81-84 | true exactly when the first value is smaller |
| `Scalar.Acc.Mul` | src/crypto/Scalar.h:90-98 | adds an exact 128-bit product to the 192-bit accumulator; the bound that excludes overflow is an obligation of every caller |
| `Scalar.Acc.Extract` | src/crypto/Scalar.h:105-112 | hands out the low word and keeps the rest: value before = word + 2^64 * value after |
| `Scalar.Fold512` | src/crypto/Scalar.h:115-161 | the three folds of the high half change a 512-bit product by a multiple of n, leave the accumulator empty between stages and end within 256 bits |
| `Scalar.Reduce512` | src/crypto/Scalar.h:115-162 | 512-bit value modulo n |
| `Scalar.MulWide` | src/crypto/Scalar.h:165-175 | the nested loops compute the exact 512-bit product |
| `Scalar.MulMod` | src/crypto/Scalar.h:165-177 | a * b mod n for all 256-bit a and b, with no bound on the inputs |
| `Scalar.AddMod` | src/crypto/Scalar.h:180-197 | (a + b) mod n for reduced a and b, including a carry out of 256 bits |
| `Scalar.Lookup` | src/crypto/Scalar.h:218-224 | the masked scan of all sixteen entries returns the entry of the digit |
| `Scalar.InvMod` | src/crypto/Scalar.h:204-230 | a^(n-2) mod n for every 256-bit a, through 64 four-bit windows |
| `Residues.Fermat` | src/crypto/Scalar.h:202-204 | Fermat's little theorem for every prime, on which inversion by a^(n-2) rests |
| `Residues.InverseByPower` | src/crypto/Scalar.h:202-204 | for every prime p, a * (a^(p-2) mod p) = 1 mod p unless p divides a |
| `Signing.Invert` | src/crypto/Scalar.h:202-230 | if n is prime, the computed inverse times a is 1 mod n for every 256-bit a not divisible by n |
| `Signing.FromBytes` | src/crypto/Scalar.h:34-44 | the limbs hold the big-endian value of the 32 bytes |
| `Signing.ToBytes` | src/crypto/Scalar.h:47-55 | the 32 bytes are the one big-endian form of the limbs |
| `Signing.ProduceNonce` | src/crypto/Signer.cpp:224-242 | an entry is produced exactly when 0 < k < n and x < n, and it holds r, k^(n-2), r*d and the parity of the point |
| `Signing.SignLaw` | src/crypto/Signer.cpp:370-380 | for every prime order s * k = z + r * d, and s = 0 only if the right side is |
| `Signing.SignDigest` | src/crypto/Signer.cpp:370-392 | s lies in 1..(n-1)/2; s * k is z + r * d or its negation mod n, and the recovery bit is flipped exactly in the negated case |
| `OrderSafety.StepKeepsSafe` | src/om/ExchangeClient.cpp:997-1336 | one message of any kind keeps: index entries name tracked orders under their current id, filledSz = max(fillSum, ackFilledSz), the trade-id set is its first-in first-out window |
| `OrderSafety.RunKeepsSafe` | src/om/ExchangeClient.cpp:1508-1525 | the same over every run from the empty table, with placing, cancelling, amending, listings, probes and eviction in any order |
| `OrderSafety.LookupIsCurrent` | src/om/ExchangeClient.cpp:1519-1525 | after every run a lookup by exchange id only answers with an order whose current id it is |
| `OrderSafety.EvictKeepsSafe` | src/om/ExchangeClient.cpp:1613-1632 | evicting orders leaves no index entry behind |
| `OrderLifecycle.StepAdvances` | src/om/ExchangeClient.cpp:1147-1192 | a terminal order stays as it is or becomes Filled, and nothing returns to PendingNew, unless a listing names another exchange id, after which it is working |
| `OrderLifecycle.TerminalIsSticky` | src/om/ExchangeClient.cpp:292-350 | the same over every run that keeps the order tracked |
| `OrderGenerations.UpdateMovesBack` | src/om/ExchangeClient.cpp:1225-1280 | an order update lowers a tracked exchange id if and only if it has no cloid, its id is not indexed and the stand-in cloid of that id is tracked under a newer id |
| `OrderGenerations.StepMovesBack` | src/om/ExchangeClient.cpp:1115-1280 | whatever the event, the exchange id of an order that stays tracked falls if and only if it is a misresolved update, an acknowledgement, a matching listing entry or a reviving listing that brings an older id |
| `OrderGenerations.OidOnlyRises` | src/om/ExchangeClient.cpp:1115-1280 | over every run that keeps the order tracked and has none of those events its exchange id never decreases |
| `OrderGenerations.NewsNeverMovesBack` | src/om/ExchangeClient.cpp:1247-1271 | over every run of updates, fills, probe answers and venue cancels the exchange id of an order with a cloid of its own never decreases |
| `OrderGenerations.SupersededNewsIgnored` | src/om/ExchangeClient.cpp:1288-1334 | news of an older generation leaves every order and the index as they were |
| `OrderGenerations.AmendedExternalOrderIsBuried` | src/om/ExchangeClient.cpp:1225-1246 | a reachable run in which a late update without cloid takes an amended external order back to its dead id and marks it Canceled |
| `OrderGenerations.StepCredits` | src/om/ExchangeClient.cpp:281-290 | the exact effect of any message on any order's fill sum and notional: what the generation starts from plus the new execution credited |
| `OrderGenerations.GenerationLedger` | src/om/ExchangeClient.cpp:1204-1223 | over every run from the empty table, through amendments, listings, evictions and returns, the fill sum and the notional of every tracked order are the opening amount of its current generation plus the new executions credited to it since |
| `OrderExecutions.CreditedFillsAreCurrent` | src/om/ExchangeClient.cpp:1311-1334 | an execution credited to an order names the exchange id the order has afterwards, and inside a generation the one it had, unless one of the two ids is unknown |
| `OrderExecutions.ExecutionsCountOnce` | src/om/ExchangeClient.cpp:1287-1295 | over every run a repetition of a credited trade id credits nothing to any order while fewer than 20,000 other ids have entered the window since |
| `OrderExecutions.RememberedExactly` | src/om/ExchangeClient.cpp:1287-1295 | over every run a trade id is remembered if and only if fewer than 20,000 others have entered the window after it |
| `OrderExecutions.ForgottenExecutionsCountAgain` | src/om/ExchangeClient.cpp:1287-1334 | past the window a repetition is credited exactly where a first delivery would be |
| `OrderExecutions.CreditedTwice` | src/om/ExchangeClient.cpp:1287-1334 | a reachable run: more than 20,000 trades of one order and then the first again, after which its fill sum counts that trade twice |
| `OrderConfluence.Delivered` | src/om/ExchangeClient.cpp:1115-1202 | after any sequence of messages of one generation the whole record is a closed form of their set, the state reached and the last filled size reported |
| `OrderConfluence.ConfluentExactly` | src/om/ExchangeClient.cpp:1225-1336 | whatever the trade-id window holds, all deliveries of a set of messages, in any order and with any repetition, agree on state, filled size and average price if and only if no cancel races completing executions without a filled report and no filled ack below the order size meets a filled update while the executions are incomplete |
| `OrderInterleaving.OthersDoNotMatter` | src/om/ExchangeClient.cpp:1225-1336 | events of other orders between the messages of one, fills included, do not change its record as long as all their trades together fit the window |
| `OrderInterleaving.ConfluentAmongOthers` | src/om/ExchangeClient.cpp:1225-1336 | the same if and only if for deliveries among any other events that leave the order alone |
| `OrderInterleaving.OthersAreUntouched` | src/om/ExchangeClient.cpp:997-1336 | an event that does not resolve to an order leaves it alone, whatever the event |
| `OrderStates.CancelResult` | src/om/ExchangeClient.cpp:1005-1077 | a successful cancel makes a live order Canceled and leaves a terminal one; any other result keeps the state; each ends the wait and changes nothing else |
| `OrderStates.RefusedOrder` | src/om/ExchangeClient.cpp:1005-1046 | an error status, one error for the batch or a call that failed for good makes exactly an order still PendingNew Rejected; a lost call or a missing status changes nothing |
| `OrderStates.AcceptedOrder` | src/om/ExchangeClient.cpp:1115-1145 | an accepted order is Filled if the venue says so, Open or PartiallyFilled by what it has traded if it was PendingNew, and otherwise keeps its state |
| `OrderStates.AmendedOrder` | src/om/ExchangeClient.cpp:1078-1107 | an accepted amendment brings the new price and size, retires the old exchange id, forgets a cancel seen meanwhile and ends the wait |
| `OrderStates.CanceledStaysDown` | src/om/ExchangeClient.cpp:1063-1077 | over every run after a successful cancel the order is terminal while it stays tracked and no listing revives it |
| `OrderStates.CanceledInRun` | src/om/ExchangeClient.cpp:1063-1077 | the same for a successful cancel at any point of any run |
| `OrderStates.BatchIsEach` | src/om/ExchangeClient.cpp:997-1113 | the results of a batch that names each order once do to each what its own result alone would |
| `OrderStates.StatusState` | src/om/ExchangeClient.cpp:1147-1192 | the state after a venue status: filled always wins, other terminal states stay, cancel and reject end a live order, open and triggered decide by what has traded |
| `OrderStates.UpdatedOrder` | src/om/ExchangeClient.cpp:1247-1280 | an update of a generation the order has left, or of an unknown one during an amendment, changes nothing; a cancel during an amendment is only noted; any other reports its status and id |
| `OrderStates.TradedOrder` | src/om/ExchangeClient.cpp:1287-1336 | an execution that is history, known or of an older generation leaves the order alone; any other adds its size and notional to the sums of its generation and makes a live order Filled exactly when the whole size is covered |
| `OrderStates.AverageWithin` | src/om/ExchangeClient.cpp:1194-1202 | the average price of an order never leaves the range of the prices it traded at |
| `OrderStates.VenueCancels` | src/om/ExchangeClient.cpp:485-495 | a cancel by the venue ends a live order found by its current id and answers a pending cancel |
| `OrderStates.GivenUp` | src/om/ExchangeClient.cpp:1368-1396 | a pending order becomes Rejected at the fourth answer in a row that does not find it, and not before |
| `OrderStates.ProbeFinds` | src/om/ExchangeClient.cpp:1397-1408 | an answer that finds the order restarts that count and is a report on it, unless it names another exchange id |
| `OrderStates.PlacedOrders` | src/om/ExchangeClient.cpp:567-614 | every order of an accepted batch is tracked as PendingNew with its price and size, and nothing filled |
| `OrderStates.AdoptedOrder` | src/om/ExchangeClient.cpp:316-347 | an order only the listing knows is adopted working, with what was filled before at its limit price |
| `OrderStates.RevivedOrder` | src/om/ExchangeClient.cpp:296-313 | a terminal order listed under another exchange id is working again under that id |
| `OrderStates.MatchedOrder` | src/om/ExchangeClient.cpp:1471-1491 | a listing entry matched to a tracked order is an open report on it |
| `OrderStates.CancelGoesOutOnce` | src/om/ExchangeClient.cpp:616-647 | a cancel goes out exactly for a working order with no cancel pending (an external one needs an exchange id), and until it is answered neither another cancel nor an amendment does |
| `OrderStates.AmendmentGoesOutOnce` | src/om/ExchangeClient.cpp:722-740 | an amendment goes out exactly for a working, acknowledged order with neither pending, and once until it is answered |
| `OrderStates.CancelByOidMarks` | src/om/ExchangeClient.cpp:649-670 | a cancel by exchange id marks the order that carries it |
| `OrderStates.EvictedOrder` | src/om/ExchangeClient.cpp:1613-1632 | eviction removes a terminal order and leaves a live one |
| `OrderConfluence.PlacedIsDeliverable` | src/om/ExchangeClient.cpp:567-614 | after every run a newly placed order is one these theorems apply to |
| `OrderConfluence.Confluent` | src/om/ExchangeClient.cpp:1225-1336 | what every delivery of such a set ends in, as a function of the set; a filled report prevails over cancels |
| `OrderConfluence.CancelRace` | src/om/ExchangeClient.cpp:1167-1186 | without a filled report the order ends Filled exactly when the executions delivered before the first cancel complete it |
| `OrderConfluence.CancelDiverges` | src/om/ExchangeClient.cpp:1167-1186 | for every set with a cancel, no filled report and executions that complete the order: a delivery that ends Canceled and one that ends Filled |
| `OrderConfluence.PartialAckDiverges` | src/om/ExchangeClient.cpp:1124-1130 | for every set with a filled ack and a filled update whose executions and ack stay below the order size: a delivery that ends with the order size filled and one that ends with less |
| `ExchangeClient.Client.SetOid` | src/om/ExchangeClient.cpp:1204-1223 | updates the order and the index in place as the specification says: a new id starts a new generation and the old entry goes |
| `ExchangeClient.Client.RecomputeFills` | src/om/ExchangeClient.cpp:1194-1202 | recomputes filled size and average price from the sums |
| `ExchangeClient.Client.ApplyAck` | src/om/ExchangeClient.cpp:1115-1145 | the acknowledgement step on the record and the index |
| `ExchangeClient.Client.ApplyVenueStatus` | src/om/ExchangeClient.cpp:1147-1192 | the venue status step on the record |
| `ExchangeClient.Client.Find` | src/om/ExchangeClient.cpp:1514-1525 | finds an order by cloid, or by exchange id only if that is its current one |
| `ExchangeClient.Client.OnOrderUpdates` | src/om/ExchangeClient.cpp:1225-1280 | a batch of updates is the run of its elements; the table stays safe and no order leaves a terminal state except to Filled |
| `ExchangeClient.Client.OnUserFills` | src/om/ExchangeClient.cpp:1282-1336 | a batch of fills is the run of its elements; only the first snapshot counts as history; the table stays safe and no order leaves a terminal state except to Filled |
| `ExchangeClient.Client.AdoptFromListing` | src/om/ExchangeClient.cpp:281-350 | a listing is the run of its orders: adopted, revived under another id or left alone |
| `ExchangeClient.Client.ApplyActionResult` | src/om/ExchangeClient.cpp:997-1113 | the results of one call are applied to its orders one by one, failures included, under the same two promises; every tracked order whose cancel succeeded is terminal afterwards |
| `ExchangeClient.EachByItsOwn` | src/om/ExchangeClient.cpp:997-1113 | in a call that names each order once, each tracked order ends as its own status alone would have it |
| `ExchangeClient.Client.Cancel` | src/om/ExchangeClient.cpp:616-647 | marks exactly the tracked live orders without a pending cancel, except an external one without exchange id, whose mark is taken back |
| `ExchangeClient.Client.Modify` | src/om/ExchangeClient.cpp:722-740 | marks the order as being amended only if it is live, acknowledged and nothing is pending; a refusal changes nothing |
| `ExchangeClient.Client.PlaceOrders` | src/om/ExchangeClient.cpp:567-614 | refuses the whole batch if a cloid is already tracked, else tracks every order as pending |
| `ExchangeClient.Client.OnProbeAnswer` | src/om/ExchangeClient.cpp:1350-1409 | a single-order answer is one step; an older id in it is ignored |
| `ExchangeClient.Client.OnNonUserCancels` | src/om/ExchangeClient.cpp:485-495 | cancels by the venue mark the orders they name by current id |
| `ExchangeClient.Client.Evict` | src/om/ExchangeClient.cpp:1613-1632 | removes terminal orders and their index entries, keeping the table safe |
| `KeccakF.UnrolledRound` | src/crypto/Keccak.cpp:29-88 | the unrolled round equals iota after chi after pi after rho after theta (section 3.2 of FIPS 202) on every 25-lane state, for any lane operations |
| `KeccakF.Permute` | src/crypto/Keccak.cpp:25-89 | the loop over the round constants is the reference permutation |
| `KeccakTables.OffsetsFollowWalk` | src/crypto/Keccak.cpp:40-64 | the rotation of every lane is the one that the walk of section 3.2.2 of FIPS 202 sets |
| `KeccakTables.ConstantsFollowRegister` | src/crypto/Keccak.cpp:12-19 | each of the 24 round constants is the word the shift register of section 3.2.5 of FIPS 202 makes |
| `Keccak.AbsorbInPlace` | src/crypto/Keccak.cpp:91-98 | xors 17 little-endian lanes into the state in place |
| `KeccakBits.LanesRotateLeft` | src/crypto/Keccak.cpp:32-61 | bit (i + n) mod 64 of a lane rotated by n is bit i of the lane |
| `KeccakBits.LanesXor` | src/crypto/Keccak.cpp:27-36 | exclusive or acts on each bit of a lane |
| `KeccakBits.LanesAnd` | src/crypto/Keccak.cpp:62-86 | and acts on each bit of a lane |
| `KeccakBits.LanesNot` | src/crypto/Keccak.cpp:62-86 | complement flips each bit of a lane |
| `KeccakBits.LoadedBits` | src/crypto/Keccak.cpp:92-96 | bit 8j + k of lane i of a block is bit k of byte 8i + j, least significant first (section 3.1.2 of FIPS 202) |
| `KeccakBits.SqueezedBits` | src/crypto/Keccak.cpp:130-132 | bit k of digest byte 8i + j is bit 8j + k of lane i of the state |
| `KeccakBits.PadIsOneZerosOne` | src/crypto/Keccak.cpp:126-128 | the padding fills the block of 136 bytes with a one bit, zeros and a one bit |
| `Sponge.Hasher.Update` | src/crypto/Keccak.cpp:102-123 | after any update the object has absorbed the message so far up to a block boundary and buffers the rest |
| `Sponge.Hasher.Finalize` | src/crypto/Keccak.cpp:125-133 | pads with pad10*1 at rate 136 and absorbs the last block |
| `Sponge.HashChunks` | src/crypto/Keccak.cpp:102-133 | however the input is cut into updates, the final state is the sponge of the concatenation (sections 4 and 5.1 of FIPS 202) |
| `Keccak.HashAll` | src/crypto/Keccak.cpp:135-139 | the digest of any sequence of updates is Keccak-256 of their concatenation, over lanes whose operations, loading and squeezing the rows of KeccakBits fix bit by bit |
| `MsgPack.TokenRead` | include/hl/om/MsgPack.h:22-81 | every integer, boolean, string and collection header is read back from its bytes, whatever follows |
| `MsgPack.PackRoundTrip` | include/hl/om/MsgPack.h:22-108 | the packed form of every tree within the format's widths reads back as that tree and leaves exactly the following bytes: header counts match and the encoding is self-delimiting and injective |
| `MsgPack.Writer.Uint` | include/hl/om/MsgPack.h:46-62 | appends the shortest form of an unsigned integer |
| `MsgPack.Writer.Sint` | include/hl/om/MsgPack.h:64-81 | appends the shortest two's-complement form of a signed integer |
| `MsgPack.Writer.PutStr` | include/hl/om/MsgPack.h:25-41 | appends the shortest header and the bytes of a string |
| `MsgPack.Writer.MapHeader` | include/hl/om/MsgPack.h:22-22 | appends the shortest map header |
| `MsgPack.Writer.Be` | include/hl/om/MsgPack.h:91-96 | appends the low bytes of a value, most significant first |
| `MsgPack.UnsignedBytes` | include/hl/om/MsgPack.h:46-62 | an unsigned integer is its own byte below 128, else the byte 0xcc, 0xcd, 0xce or 0xcf and its value in 1, 2, 4 or 8 bytes, most significant first |
| `MsgPack.NegativeBytes` | include/hl/om/MsgPack.h:64-81 | a negative integer from -32 is one byte, else 0xd0 to 0xd3 and its two's complement in 1, 2, 4 or 8 bytes |
| `MsgPack.StringBytes` | include/hl/om/MsgPack.h:25-41 | a string is a header by its length and then its bytes |
| `MsgPack.HeadBytes` | include/hl/om/MsgPack.h:22-23 | headers of arrays and maps by their counts, and the bytes of the truth values |
| `JsonText.TextRoundTrip` | src/om/Actions.cpp:15-43 | the JSON text of every tree whose strings need no escapes reads back as that tree with nothing left over |
| `JsonText.JsonWords` | src/om/Actions.cpp:15-43 | true and false, strings in quotes, decimal digits of the value with a minus sign if negative |
| `JsonText.JsonMarks` | src/om/Actions.cpp:83-113 | brackets, braces, colons and commas stand around and between values as JSON has them |
| `ActionTrees.FormsAgree` | src/om/Actions.cpp:117-387 | for every action the signed bytes and the sent text decode to one and the same ordered tree, with nothing left over in either |
| `Actions.TreeInjective` | src/om/Actions.cpp:48-387 | the tree determines every wire field of the action, up to the time in force of a trigger order |
| `ActionFields.OrderSaid` | src/om/Actions.cpp:48-113 | looked up by key in an order's tree: a is the asset, b the side, p, s and triggerPx parse to price, size and trigger price, r is reduceOnly, c reads back as the cloid, tif and tpsl are the venue's words; the keys stand in the wire's order |
| `ActionFields.EncodingsSay` | src/om/Actions.cpp:117-387 | for every action, both the signed bytes and the sent text decode to a tree in which every key carries its field of the action and the keys stand in the wire's order |
| `ActionTrees.PreImageDetermines` | src/crypto/Signer.cpp:74-93 | equal hash inputs have equal action (as the wire carries it), nonce, vault and expiry; the layout itself is ActionHash.Hash and ActionHash.HashInputIsPreImage |
| `ActionHash.Hash` | src/crypto/Signer.cpp:74-93 | the digest is Keccak-256 of the packed action, 8 bytes of big-endian value nonce, then 1 and the 20 bytes of the vault or 0 without one, then with an expiry 0 and 8 bytes of its value and without one nothing |
| `ActionHash.HashInputUnique` | src/crypto/Signer.cpp:74-93 | that layout leaves no choice: only one byte string has it |
| `ActionHash.HashInputIsPreImage` | src/crypto/Signer.cpp:74-93 | for every action it is the hash input that determines action, nonce, vault and expiry |
| `ActionHash.BigEndian64` | src/crypto/Signer.cpp:26-36 | the loop writes the 8 bytes whose big-endian value is the number |
| `ActionBuilders.PackOrder` | src/om/Actions.cpp:48-81 | appends the packed order tree, whose keys carry the order's fields as ActionFields.OrderSaid states |
| `ActionBuilders.JsonOrder` | src/om/Actions.cpp:83-113 | appends the text of the same order tree |
| `ActionBuilders.BuildOrder` | src/om/Actions.cpp:119-178 | both encodings of an order action, for any batch, grouping, priority rate and builder; each decodes to a tree that carries every field under its key |
| `ActionBuilders.BuildCancel` | src/om/Actions.cpp:180-214 | both encodings of a cancel action, built in one loop, with or without the fast flag |
| `ActionBuilders.BuildCancelByCloid` | src/om/Actions.cpp:216-251 | both encodings of a cancel by client order id |
| `ActionBuilders.BuildBatchModify` | src/om/Actions.cpp:253-289 | both encodings of an amendment batch, each target by exchange id or by cloid |
| `ActionBuilders.BuildScheduleCancel` | src/om/Actions.cpp:291-307 | both encodings, with or without a time |
| `ActionBuilders.BuildUpdateLeverage` | src/om/Actions.cpp:309-330 | both encodings of a leverage change |
| `ActionBuilders.BuildUpdateIsolatedMargin` | src/om/Actions.cpp:332-361 | refuses exactly the amounts finer than a millionth; otherwise both encodings carry the signed amount in millionths |
| `ActionBuilders.BuildNoop` | src/om/Actions.cpp:363-372 | both encodings of the empty action |
| `ActionBuilders.BuildReserveRequestWeight` | src/om/Actions.cpp:374-385 | both encodings of a weight reservation |
| `HexText.CloidRoundTrip` | src/core/Hex.cpp:99-125 | every client order id is read back from its text |
| `HexText.CloidTextIsNumber` | src/core/Hex.cpp:117-125 | the text is 0x and 32 lower-case digits whose value is the 128-bit number |
| `HexText.BytesTextSpells` | src/core/Hex.cpp:16-23 | the text of bytes is 0x and two lower-case digits for each, high digit first |
| `HexText.ReadCloid` | src/core/Hex.cpp:99-115 | accepts exactly 32 hexadecimal digits of either case after an optional prefix, sixteen for each half |
| `HexText.WriteCloid` | src/core/Hex.cpp:117-125 | the buffer holds 0x and both halves as sixteen lower-case digits |
| `HexText.AddressTextInjective` | src/core/Hex.cpp:16-23 | different addresses have different text |
| `DecimalText.Parse` | src/core/Decimal.cpp:23-74 | the three digit loops return the value of the text, or nothing on a stray character, no digit or a magnitude over 2^63-1 |
| `DecimalText.ParsesExactly` | src/core/Decimal.cpp:23-74 | succeeds exactly on an optional sign, digits and an optional point with digits, with at least one digit and a truncated magnitude in range |
| `DecimalText.MagnitudeTruncates` | src/core/Decimal.cpp:50-63 | the magnitude is the exact decimal value cut off after eight places |
| `DecimalText.ToChars` | src/core/Decimal.cpp:76-106 | filling the buffer from the back gives the canonical text |
| `DecimalText.TextRoundTrip` | src/core/Decimal.cpp:76-106 | parsing the text gives the value back for every raw value but the smallest, for which it fails |
| `DecimalText.TextIsCanonical` | src/core/Decimal.cpp:76-106 | at most 21 of the 24 characters, no redundant zeros, no trailing point, no plus sign |
| `DecimalText.TextInjective` | src/core/Decimal.cpp:76-106 | different raw values have different texts, the smallest included |
| `PriceGrid.DigitCount` | src/om/AssetRegistry.cpp:21-27 | the loop over the table of powers counts the decimal digits |
| `PriceGrid.ValidInDecade` | src/om/AssetRegistry.cpp:31-45 | among prices with the same number of digits the valid ones are the multiples of one quantum |
| `PriceRounding.ComputeRoundPx` | src/om/AssetRegistry.cpp:31-47 | the code's quantum choice and rounding, for every 64-bit price, asset kind and size precision |
| `PriceRounding.DownIsGreatest` | src/om/AssetRegistry.cpp:31-47 | Down is the greatest price on the grid not above, for positive and negative prices |
| `PriceRounding.UpIsLeast` | src/om/AssetRegistry.cpp:31-47 | Up is the least price on the grid not below, also when it crosses a power of ten |
| `PriceRounding.NearestIsClosest` | src/core/Decimal.cpp:168-177 | Nearest is as close as any price on the grid |
| `PriceRounding.GridIsFixed` | include/hl/om/AssetRegistry.h:39-51 | rounding leaves a price alone, in any mode, if and only if it is on the grid |
| `PriceRounding.RoundingIsIdempotent` | src/om/AssetRegistry.cpp:31-47 | rounding again in any mode changes nothing |
| `PriceRounding.RoundingIsMonotone` | src/core/Decimal.cpp:151-180 | every mode keeps the order of prices, across powers of ten and across zero |
| `PriceRounding.RoundingFits` | src/core/Decimal.cpp:162-163 | the result fits 64 bits for every price at least a quantum below the limit |
| `PriceRounding.SizeRoundsTowardZero` | src/om/AssetRegistry.cpp:49-56 | sizes round down toward zero and no further than the grid demands |
| `PriceRounding.SizePlaces` | src/om/AssetRegistry.cpp:49-56 | a rounded size has at most szDecimals of the eight places, and every such size is kept |
| `PriceRounding.PlacesByMarket` | include/hl/om/AssetRegistry.h:39-51 | a rounded price has at most 8 less szDecimals places on spot and 6 less szDecimals on a perpetual |
| `PriceRounding.TicksAreKept` | include/hl/om/AssetRegistry.h:39-51 | up to 99,999 units of that last place are a price every mode keeps |
| `Masking.MaskInto` | src/net/WsCodec.cpp:38-53 | masking eight bytes at a time and then byte by byte equals the per-byte exclusive or of section 5.3 of RFC 6455, and nothing else in the buffer changes |
| `Masking.MaskUndo` | src/net/WsCodec.cpp:108-113 | masking twice with one key gives the payload back |
| `Masking.MaskAt` | src/net/WsCodec.cpp:38-53 | octet i is combined with octet i modulo 4 of the key |
| `WsCodec.EncodeFrame` | src/net/WsCodec.cpp:11-54 | appends to any prefix exactly one final masked frame with the shortest length field (section 5.2 of RFC 6455) |
| `WsFrames.FrameRead` | src/net/WsCodec.cpp:84-124 | a frame written with any key or none reads back as that frame, whatever follows |
| `WsFrames.FrameStable` | src/net/WsCodec.cpp:79-106 | bytes that arrive later never change a frame or a size error already recognised |
| `WsFrames.WireLayout` | src/net/WsCodec.cpp:11-54 | a frame is 128 times FIN plus the opcode, 128 times MASK plus the length or 126 or 127, the length in 2 or 8 bytes of network order, the key and the masked payload |
| `WsMessages.ConversationRoundTrip` | src/net/WsCodec.cpp:119-170 | any messages, fragmented anyhow and interrupted by any control frames, masked or not, come out as exactly those messages and controls in order (sections 5.4 and 5.5 of RFC 6455) |
| `WsMessages.ReadBoundariesDoNotMatter` | src/net/WsCodec.cpp:65-189 | for every stream and every split the events and the first error are those of one-shot decoding |
| `WsMessages.CallbackBytesJoinTheStream` | src/net/WsCodec.cpp:66-78 | whatever the callbacks do, what is delivered is a prefix of what the stream with the bytes they fed appended in order decodes to, and all of it unless one of them resets the decoder |
| `WsMessages.StagedAfterReset` | src/net/WsCodec.cpp:132-135 | for every stream and every behaviour of the callbacks: nothing stays staged after a call if and only if no callback that was made fed bytes after resetting |
| `WsMessages.NextCallAfterReset` | src/net/WsCodec.cpp:73-78 | after a reset the next call starts with no fragments and decodes its own bytes followed by those the resetting callback fed, so exactly its own when there were none |
| `WsMessages.BytesAfterResetAreOvertaken` | src/net/WsCodec.cpp:132-135 | when that condition fails order is lost: of any two whole messages the one fed after the reset is delivered after the one of the next call |
| `WsMessages.OrderIsLost` | src/net/WsCodec.cpp:132-135 | such a call exists: a first message whose callback resets and feeds a second one, which a third message of the next call overtakes |
| `WsMessages.DeliveredFits` | src/net/WsCodec.cpp:99-102 | whatever the callbacks do, no message over the maximum and no control payload over 125 bytes is ever delivered |
| `WsMessages.RefusedExactly` | src/net/WsCodec.cpp:119-170 | a frame is a protocol error if and only if it is a control frame that is fragmented or over 125 bytes, a data frame inside a message, a continuation outside one or has a reserved opcode from 3 to 7, and too big if and only if its message would pass the maximum |
| `WsMessages.AcceptedMeans` | src/net/WsCodec.cpp:119-170 | what each accepted frame delivers and leaves of the fragments |
| `WsCodec.Decoder.TakeFrame` | src/net/WsCodec.cpp:79-117 | takes the next complete frame off the buffer in place, or reports that it is incomplete or too large |
| `WsCodec.Decoder.TakeMeaning` | src/net/WsCodec.cpp:119-170 | the effect of one frame on the fragment state, with every protocol error |
| `WsCodec.Decoder.Feed` | src/net/WsCodec.cpp:65-189 | events, status, fragment state, unread and staged bytes after a call are those of the specification, for every behaviour of the callbacks; a nested call only stages |
| `WsCodec.Decoder.Reset` | src/net/WsCodec.cpp:56-63 | empties every buffer and starts a new epoch |
| `WsCodec.DecodeReads` | src/net/WsCodec.cpp:65-189 | a decoder fed any sequence of reads delivers what one-shot decoding of their concatenation delivers |
| `HttpParser.ResponseParser.FeedRead` | src/net/HttpCodec.cpp:124-225 | one read of any length leaves the parser where its bytes one at a time would, with the right number of bytes consumed, except for the head limit, which is checked once per read; after an error the body is still what was read |
| `HttpParser.ResponseParser.TakeHead` | src/net/HttpCodec.cpp:128-150 | only the new bytes are searched for the blank line; a head that ends is parsed, one over the limit without an end fails |
| `HttpParser.ResponseParser.FinishOnClose` | src/net/HttpCodec.cpp:227-234 | closing completes a body without a length and is an error in the middle of any other |
| `HttpParser.ParseReads` | src/net/HttpCodec.cpp:124-225 | status, head, body and leftover bytes of a response fed in separate reads |
| `HttpMachine.CutsAgree` | src/net/HttpCodec.cpp:124-225 | if the head does not end late, every split gives the status, response and leftover bytes of one read |
| `HttpMachine.CutsAgreeExactly` | src/net/HttpCodec.cpp:136-141 | read boundaries do not matter if and only if the head ends within 64 KiB and a byte, or not at all, or the response is malformed however it is read |
| `HttpMachine.ChunkedRecovered` | src/net/HttpCodec.cpp:160-214 | any chunked body gives its data back and leaves the following bytes alone |
| `HttpText.ReadHead` | src/net/HttpCodec.cpp:53-122 | status line, header lines and framing as the loop over line breaks reads them; what the lines mean is stated by HttpHeaders |
| `HttpText.HeadReadLineByLine` | src/net/HttpCodec.cpp:71-106 | a head written line by line means what its lines mean one after the other |
| `HttpText.SizeLineRead` | src/net/HttpCodec.cpp:179-186 | a chunk-size line in either case, with leading zeros and an extension, states its size |
| `HttpHeaders.ContentLengthLine` | src/net/HttpCodec.cpp:82-90 | for every case of the name, every number in decimal digits and any blanks around it, a content-length line sets the length to the number, and fails exactly from 2^64 |
| `HttpHeaders.TransferEncodingLine` | src/net/HttpCodec.cpp:91-92 | a transfer-encoding line makes the response chunked if and only if its value contains the word in any case |
| `HttpHeaders.ConnectionLine` | src/net/HttpCodec.cpp:98-103 | close and keep-alive in any case decide whether the connection is kept |
| `HttpHeaders.RetryAfterLine` | src/net/HttpCodec.cpp:93-97 | retry-after in decimal digits gives the seconds as the code's 32-bit integer, and nothing from 2^64 |
| `HttpHeaders.InertLine` | src/net/HttpCodec.cpp:71-106 | any other header changes nothing |
| `HttpHeaders.HeadMeans` | src/net/HttpCodec.cpp:53-122 | the three digits of the status line are the status; 204, 304 and 1xx have no body; chunked wins over a length; without either the body ends at the close |
| `HttpHeaders.SizedHead` | src/net/HttpCodec.cpp:53-122 | a written head with a decimal length anywhere among lines of no effect frames a body of that length |
| `HttpHeaders.ChunkedHead` | src/net/HttpCodec.cpp:53-122 | a written head with a chunked coding frames chunks whatever its length line says |
| `HttpHeaders.WrittenResponse` | src/net/HttpCodec.cpp:124-225 | a response written with that head and a body of that length comes back with its status and body, leaving the following bytes, however it is cut if and only if the head is at most 64 KiB and a byte |
| `HttpResponses.ChunkedResponse` | src/net/HttpCodec.cpp:124-225 | a whole chunked response (section 7.1 of RFC 9112) yields in one read its head, the data of its chunks and the bytes after it, and does so however it is cut into reads if and only if its head is at most 64 KiB and a byte |
| `HttpResponses.PlainResponse` | src/net/HttpCodec.cpp:160-214 | what a sender writes as chunks with plain hexadecimal sizes comes out as the concatenation of their data |
| `HttpResponses.SizedResponse` | src/net/HttpCodec.cpp:152-161 | the same as for chunked responses, for a content length or no body |
| `HttpResponses.HugeHeader` | src/net/HttpCodec.cpp:136-141 | the failing case exists: a response with one header value of 64 KiB or more is parsed in one read and refused when cut after 64 KiB and a byte |
| `OrderBook.OverlayTop` | src/md/OrderBook.cpp:55-81 | for any levels, sorted or not, the memmoves leave the new best followed by what comes after the leading better levels, without a level at its price, cut to 64 |
| `OrderBook.DropCrossing` | src/md/OrderBook.cpp:83-96 | keeps in place exactly the levels on the right side of the limit, in order |
| `OrderBook.L2Book.ApplySnapshot` | src/md/OrderBook.cpp:21-27 | replaces both sides unchecked, each cut to 64 levels; the book is sound exactly when those levels are sorted and do not cross |
| `OrderBook.L2Book.ApplyBbo` | src/md/OrderBook.cpp:29-53 | ignores stale updates, else overlays both tops and drops what they cross; a sound book stays sound |
| `BookLevels.BeyondIsComplete` | src/md/OrderBook.cpp:83-96 | no level strictly worse than the price is lost and no other is kept |
| `BookLevels.BboUncrosses` | src/md/OrderBook.cpp:29-53 | locked and crossed updates resolve to an uncrossed book |
| `BookLevels.OverlaySorted` | src/md/OrderBook.cpp:55-81 | on sorted levels the new best is followed by every strictly worse level and the side stays sorted |
| `BookLevels.BboIsOnTop` | src/md/OrderBook.cpp:55-81 | an uncrossed update puts its best prices on top of both sides, whatever the book held |
| `BookLevels.ValidAfterBbo` | src/md/OrderBook.cpp:29-53 | exactly when a sound book is valid after an update: as before if it is stale, else both best prices are given and either they do not cross or a level is left under each |
| `BookLevels.EmptySideFills` | include/hl/md/OrderBook.h:50-51 | a book with an empty side is valid after an event other than a snapshot if and only if that is a current, uncrossed, two-sided update |
| `BookLevels.InvalidUntilRestored` | include/hl/md/OrderBook.h:50-51 | over every run without a snapshot a book with an empty side stays invalid throughout if and only if no such update occurs |
| `BookLevels.RunKeepsSound` | src/md/OrderBook.cpp:21-101 | over every run of snapshots, best-price updates and clears the book stays strictly sorted, within 64 levels and uncrossed after every event if and only if no snapshot has unsorted or crossed levels among its first 64 |
| `BookLevels.RunRecovers` | src/md/OrderBook.cpp:21-101 | whatever came before, one proper snapshot or a clear makes the book sound for every proper run that follows |
| `BookLevels.Clock` | src/md/OrderBook.cpp:29-101 | the book shows the moment of the last snapshot or current update, only a snapshot makes later updates stale, and a clear keeps the clock |
| `BookDepth.CumulativeSize` | src/md/OrderBook.cpp:132-139 | the sum of the sizes of the first levels |
| `BookDepth.VwapForSize` | src/md/OrderBook.cpp:141-157 | for any levels: a value exactly for a positive size that some leading levels cover, and that value is the truncated average over the first levels that do |
| `BookDepth.SweptIsCost` | src/md/OrderBook.cpp:141-157 | with no negative sizes that total is the exact cost unit by unit, and only sizes up to the whole depth are covered |
| `BookDepth.DepthCovers` | src/md/OrderBook.cpp:141-157 | every size up to the whole depth is covered |
| `BookDepth.AverageBetween` | src/md/OrderBook.cpp:141-157 | the truncated average lies between the best and the worst price touched, for prices of either sign, hence fits where prices fit |
| `BookDepth.AverageMonotone` | src/md/OrderBook.cpp:141-157 | a larger order never averages better, on either side, for prices of either sign |
| `BookDepth.MicropriceInSpread` | src/md/OrderBook.cpp:119-130 | the microprice never leaves the spread, for prices of either sign |
| `BookDepth.MicropriceExtremes` | src/md/OrderBook.cpp:119-130 | an empty side gives the whole weight to its own price |
| `BookDepth.MicropriceLeans` | src/md/OrderBook.cpp:119-130 | more size on the bid never lowers the microprice |
| `NonceRing.RingIsFifo` | src/crypto/Signer.cpp:137-206 | under every interleaving of any number of threads, step by step inside the lock, entries handed out are in order a prefix of those pushed and no more than the ring holds wait |
| `NonceRing.StepKeepsInv` | src/crypto/Signer.cpp:180-205 | every atomic step of push and pop keeps mutual exclusion, the slots between head and tail and the published size |
| `NonceRing.RefusalsAreTrue` | src/crypto/Signer.cpp:180-205 | a refused push found the ring full and a refused pop found it empty or an operation under way |
| `NonceRing.MaskIsRemainder` | src/crypto/Signer.cpp:185-185 | masking with a power of two less one is the remainder |
| `NonceRing.NoncePool.Push` | src/crypto/Signer.cpp:180-189 | appends to the queue unless the ring is full |
| `NonceRing.NoncePool.Pop` | src/crypto/Signer.cpp:191-205 | takes the oldest entry, wipes its slot, or reports an empty ring |
| `NonceGenerator.NoncesIncrease` | src/om/Actions.cpp:400-410 | under every interleaving and every spurious failure nonces strictly increase in the order of the swaps, are at least the caller's clock and no larger than that or one more than the one before |

## Left out

- The primality of the group order: a hypothesis, not proved.
- libsecp256k1, HMAC, random bytes, wiping of memory, forks and side channels: foreign calls and properties that are not functional.
- The slow signing path and the EIP-712 digest around the action hash: calls into the library and constant hashes.
- Int64 overflow of `roundPx` and of the average price: values are unbounded integers; `PriceRounding.RoundingFits` and `BookDepth.AverageBetween` say where the code's words suffice.
- HttpParser.ResponseParser.FeedRead: after an error says nothing of the parser's fields but the body; callers drop the parser.
- WsCodec.Decoder.Feed: unbounded sizes; a maximum within 14 bytes of 2^64 would let the code's size comparison wrap.
- NonceRing.RingIsFifo: head and tail do not wrap, and steps are sequentially consistent; the code's relaxed size is only an early exit.
- OrderInterleaving.ConfluentAmongOthers: between the order's first and last message at most 20,000 different trades arrive, and its own were not remembered before it was placed; past that a duplicate is counted again, as `OrderExecutions.CreditedTwice` shows.
- JSON escapes and spaces: the builders emit none; strings that need them cannot occur in actions.
- `Decimal` multiplication, division and saturation, mid price and spread: one-line arithmetic.
- Refilling of the nonce pool, request payload wrapping, hex parsing of addresses: easy members.
- Positions, balances, readiness, subscriptions, rate limits, latency statistics, timers and listener callbacks of the exchange client: plumbing around the order table.
- Sockets, TLS, the event loop, WebSocket handshake, JSON parsing of venue messages: input to the model as arbitrary message arrival.
