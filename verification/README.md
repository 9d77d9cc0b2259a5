# MiniCoin, modelled and verified

MiniCoin is a small proof-of-work cryptocurrency node in C. This project models its four cores in Dafny and proves
what they are for:

- **Wire format** (`src/protocol.c`, framing in `src/net.c`): the hand-written JSON printer and scanners, the
  newline framing, and that what one node prints is what its peer reads. Files `json`, `json_laws`, `scan`,
  `scan_laws`, `protocol`, `codec`, `deserializers`, `brace_laws`, `roundtrip`, `messages`, `framing`, `wire`; the
  formats themselves, character by character, in `layout`, and texts that no node prints in `objects`; what
  addresses do to the scanners in `transport`, `carry`, `key_counts`, `survival`, `relay`, `headers` and
  `chain_survival`; what a full buffer does to long lines in `cut` and `long_lines`; what is read of anything a user can
  type in `key_laws` and `clear`. `machine`, `decimal` and `libc` are the C integers, numerals and library calls they
  stand on.
- **Chain** (`src/chain.c`, `src/block.c`, `src/tx.c`): mining, block and chain validation, the longest-chain rule,
  what a hash pins down and what it does not. Files `records`, `tx`, `block`, `chain`, `forks`, `tamper`.
- **Ledger and block assembly** (`chain_get_balance`, `do_mine`, `do_send`): machine balances, conservation, supply,
  what a payment moves, overdraft and solvency. Files `ledger`, `mining`, `payments`, `economy`.
- **Network** (`src/net.c`, threads of `src/main.c`): the handlers of one node as a class (`handlers`), and any number
  of nodes as a step system (`network`), which does what the handlers and the menu do when nobody interrupts
  (`sequential`), with its invariants (`honest`, `clear_net`, `altered`, `tidy`, `consensus`), its termination
  (`quiescence`), the reach of a payment (`gossip`) and of a relayed block (`flood`, `stranding`) and agreement by
  asking for chains (`agreement`, `left_behind`).

Where the C code changes memory (buffers, the block array, the mempool, the peer table, sockets) the model is a method
over an array or a class, proved against a function; the theorems are about the functions. SHA-256 (section 6.2 of
FIPS 180-4) is an arbitrary function from strings to 64 lowercase hexadecimal digits; where a theorem needs the
absence of collisions, it says between which strings. The escaping is the subset of section 7 of RFC 8259 that the
code implements.

The network step system takes as one step each operation that the C code does under one lock, each balance read, the
serialization of a chain, and one turn of a reading loop, which handles one line; the threads' steps interleave in any
order. Accepting a block and broadcasting it are two steps, and so are the balance test of `do_send` and its insertion
into the mempool. A message is sent over a wire, and the wire is the codec (`Network.TrueWire`): what comes out of it
are the lines that the reader's buffer makes of the printed message, each as `handle_message` understands it
(`Wire.Reading`, `Handlers.Effect`), so messages that the codec alters, loses or cuts into pieces are altered, lost or
cut in the step system too. What the steps of one thread do together, when no other thread runs in between, is what
its method does (`Sequential`). The time, the signature of a transaction and what `send` and `recv` return are
parameters.

What users type decides what the wire does. A receiver whose braces do not pair up (`}` is one), or one that ends in a
backslash, can make the block that pays it unreadable: `Relaying.RelaySurvivesExactly` says exactly when,
`ChainSurvival.ChainSurvivesExactly` does so for chains, and `Stranding.AlteredBlockStrands` that such a block never
leaves its miner, so that the flood theorems fail without their hypothesis on it. Whatever is typed, what nodes read is
one-line text with plain hashes (`ClearNet.EveryStateIsClear`), traffic ends (`Quiescence.TrafficEnds`), and all chains
stay honest unless one comes to hold a hash twice (`Altered.HonestFromTheStart`). The other theorems about whole runs
are for tidy users (`Tidy.TidyAction`): receivers with braces in pairs, no backslash at the end and no newline,
signatures and addresses as the wallet makes them, in hexadecimal, and no block from height 171 on whose hash is also
that of a shorter beginning of what was hashed for it. For these `Tidy.TidyReading` proves that everything in flight is
read as it was printed, but for the part of a long chain that does not fit the reader's buffer.

`dafny verify dfyconfig.toml` checks everything.

## Where the code and its documentation differ

- `docs/algorithms.md:164` says that changing a transaction in an old block invalidates the chain. `block_validate`
  hashes the stored transaction hashes and recomputes none, and `chain_validate` never looks at block 0:
  `Tampering.TamperEvidence` says exactly what is noticed, `Tampering.AmountsAreNotCovered` what is not.
- `docs/algorithms.md:258` says that the network gradually agrees on one chain. A block is relayed only by nodes that
  accept it, and a chain is requested only when a connection is made: `Flood.FloodReachesExactly` says how far a block
  gets, `Agreement.AskingSynchronizes` and `Agreement.AdoptionExactly` who gets a chain, and
  `LeftBehind.SomebodyStaysBehind` is a run from a fresh start that ends in silence without agreement.
- `docs/architecture.md:73` and `docs/algorithms.md:321` promise that a node that asks gets the longest chain. A response
  of more than `MAX_MSG_SIZE + 6` characters is cut by the reader (`src/net.c:31-51`) and leaves the asker behind:
  `Agreement.SynchronizedExactly` says exactly when, `LongLines.LongResponse` what is read, and
  `Agreement.LongChainsSynchronizeNobody` that it befalls every chain of 4767 blocks or more; `MAX_BLOCKS` is 10000.
- `docs/deep-dive.md:251` has the mempools cleared when a block spreads. `on_new_block` is never set
  (`src/main.c:474-475`), so only the miner's own mempool is cleared, picked or not (`src/main.c:202`):
  `Mining.PickedExactly` says which of its transactions are lost.
- `include/tx.h:5` gives the coinbase an empty sender; the code writes `COINBASE` (`src/tx.c:40`). `include/tx.h:38`
  leaves the fee out of the transaction hash; the code includes it (`src/tx.c:18-20`).

## Model

| member | source | states |
|---|---|---|
| `Json.JsonEscape` | src/protocol.c:14-24 | what the loop writes is the escape of the longest prefix its guard lets in, and always a text that fits |
| `Json.TakesAll` | src/protocol.c:86-88 | a destination of twice the length and two more never cuts: a 64-character address is escaped whole |
| `Codec.EscapeAddress` | src/protocol.c:86-88 | the escape buffers hold the whole escaped address |
| `Json.JsonFindKey` | src/protocol.c:27-43 | finds the place behind the first occurrence of the key in either spelling, blanks skipped |
| `Json.JsonGetString` | src/protocol.c:46-62 | reads the unescaped text up to the first bare quote, cut to the buffer, or fails |
| `Json.CopyString` | src/protocol.c:51-60 | the copying loop yields the unescaped text up to the first bare quote, cut to the buffer |
| `Json.JsonGetU64` | src/protocol.c:65-71 | reads what `strtoull` makes of the value |
| `Json.JsonGetInt` | src/protocol.c:73-79 | reads what `strtol` makes of the value, truncated to 32 bits |
| `Decimal.StrtoullOfNumeral` | src/protocol.c:69 | every 64-bit number printed with `%lu` is read back |
| `Decimal.StrtoullOfSigned` | src/protocol.c:155-156 | a time stamp, negative ones included, survives being read with the unsigned reader and cast back |
| `LibC.StrstrIsFirst` | src/protocol.c:31 | the search returns the first match, and none only when there is none |
| `JsonLaws.FindsTheField` | src/protocol.c:27-43 | in a printed object the first-match search stops at the field's own key and at nothing in the values before it that looks like it |
| `JsonLaws.ReadsString` | src/protocol.c:46-62 | a printed string is read back, whatever quotes and backslashes it holds, if the buffer has room |
| `Objects.FoundExactly` | src/protocol.c:27-37 | the key is found where it first stands with the colon behind it; only if that is nowhere, where it first stands with a blank between |
| `Objects.BlanksArePassed` | src/protocol.c:38-42 | blanks and tabs in front of a value are passed over, and nothing else |
| `Objects.ForeignString` | src/protocol.c:51-60 | behind a backslash any character is taken as it is, one at the end of the text stands for itself, and a string that nobody closes ends with the text |
| `Objects.LongStringIsCut` | src/protocol.c:46-62 | a printed string that is too long for the buffer is read up to what fits |
| `Objects.NumberIsNoString` | src/protocol.c:50 | a number is not read as a string |
| `Objects.LargeNumbers` | src/protocol.c:65-79 | numbers out of range are read as the largest there are, and an `int` keeps the lower 32 bits |
| `Objects.NegativeNumbers` | src/protocol.c:73-79 | negative numbers are read, down to the least there is |
| `Objects.SpaceAndPlus` | src/protocol.c:69 | white space and a plus sign may stand in front of a number, and no digits are 0 |
| `Objects.MissingIsNotFound` | src/protocol.c:27-43 | a key that no field of a printed object has is not found, whatever the values hold |
| `Scanners.ScanObject` | src/protocol.c:174-182 | the loop stops where counting curly braces alone first reaches zero, or at the end of the text |
| `Scanners.ScanPayload` | src/protocol.c:304-312 | the loop stops where counting both kinds of brackets outside strings first reaches zero, or at the end |
| `ScanLaws.ObjectSplitExact` | src/protocol.c:174-182 | the string-blind scan cuts an object at its own last brace if and only if the braces inside it balance |
| `ScanLaws.PayloadCutExact` | src/protocol.c:300-318 | the payload scan stops at the payload's last brace and nowhere earlier when its body leaves the scanner as it was |
| `ScanLaws.QuotedRun` | src/protocol.c:305-306 | of a printed string the scan misses the closing quote exactly when the string ends in a backslash |
| `ScanLaws.EscapeKeepsBraces` | src/protocol.c:14-24 | escaping changes no brace depth |
| `Codec.SerializeTx` | src/protocol.c:81-97 | the 1024-byte buffer holds the whole printed transaction |
| `Codec.SerializeTxs` | src/protocol.c:116-130 | the running offset stays within 8192 bytes for any ten transactions, and the buffer holds the whole list |
| `Codec.AppendItem` | src/protocol.c:121-127 | one turn of a printing loop appends a comma, but not first, and the item, and moves the offset to the end |
| `Codec.SerializeBlock` | src/protocol.c:113-144 | the 16384-byte buffer holds the whole printed block |
| `Codec.SerializeChain` | src/protocol.c:200-226 | 16384 bytes for each block and 256 more hold the whole printed chain, for every length |
| `Codec.AppendBlocks` | src/protocol.c:209-222 | the loop appends every printed block, its offset in bounds throughout |
| `Codec.SerializeMsg` | src/protocol.c:273-284 | 128 bytes beside the payload hold the message and its newline; no payload is printed as an empty object |
| `Codec.PrintBlockFits` | src/protocol.c:132-141 | every printed block is a NUL-free text of at most 6112 characters |
| `Layout.TxFormat` | src/protocol.c:90-94 | a printed transaction, character by character |
| `Layout.BlockFormat` | src/protocol.c:135-141 | a printed block, character by character |
| `Layout.ListFormat` | src/protocol.c:116-130 | items stand in their order with commas between them |
| `Codec.ChainText` | src/protocol.c:206-224 | a printed chain, character by character |
| `Layout.EscapeFormat` | src/protocol.c:14-24 | a quote or a backslash gets a backslash in front, and nothing else changes |
| `Layout.ChainFormat` | src/protocol.c:200-226 | a chain is printed with its length and all its blocks in order |
| `Layout.LineFormat` | src/protocol.c:278-281 | the six kinds of lines, with their type numbers |
| `Deserializers.DeserializeTx` | src/protocol.c:99-111 | reads the fields in order, stops at the first required one that is missing, and leaves the rest zero |
| `Deserializers.FindObject` | src/protocol.c:169-187 | finds the next object and the place behind it |
| `Deserializers.DeserializeTxs` | src/protocol.c:164-194 | the loop fills as many places as objects are found and leaves the others zero |
| `Deserializers.ReadTransactions` | src/protocol.c:164-194 | for every `tx_count` the loop takes that many turns, at most ten, and places for which nothing is found stay zero |
| `Deserializers.DeserializeBlock` | src/protocol.c:146-198 | reads a block or rejects it as the specification of the format says |
| `Deserializers.DeserializeBlocks` | src/protocol.c:240-269 | the loop writes the blocks into the array in order, and stops at the first bad one or the end |
| `Deserializers.DeserializeChain` | src/protocol.c:228-271 | reads the blocks into the array of a chain, or rejects the chain for a bad length, no array or a bad block |
| `Deserializers.DeserializeMsg` | src/protocol.c:286-325 | reads type and payload as the specification of the format says |
| `BraceLaws.TxSplitExact` | src/protocol.c:169-182 | a printed transaction is cut out exactly, whatever follows, if and only if the braces in its two addresses balance |
| `BraceLaws.BlockIsBalanced` | src/protocol.c:241-254 | a block of such transactions has balanced braces, so the outer scan cuts it out exactly too |
| `RoundTrip.TxRoundTrip` | src/protocol.c:81-111 | print and parse: every transaction comes back field by field, with any addresses up to 64 characters and any numbers, and with anything behind it |
| `Objects.TxInAnyOrder` | src/protocol.c:99-111 | a transaction is read from its fields in whatever order they stand; fee, signature and hash may be missing, and without sender, receiver or amount it is refused with what was read before |
| `RoundTrip.CutsObject` | src/protocol.c:170-194 | behind at most a comma, the next balanced object is cut out with exactly the rest left |
| `RoundTrip.ParsesTxs` | src/protocol.c:164-194 | the loop over a printed list of transactions reads back the list |
| `RoundTrip.BlockRoundTrip` | src/protocol.c:113-198 | print and parse: a block whose addresses pair their braces comes back with all its transactions, whatever stands behind it |
| `Objects.HeaderInAnyOrder` | src/protocol.c:146-198 | the six header fields of a block may stand in any order and none may be missing; without a list its transactions are zero |
| `Objects.ListMustBeOne` | src/protocol.c:166-167 | so they are when something else stands in the place of the list |
| `Objects.AsManyPlaces` | src/protocol.c:169 | as many transactions as the number says, but at most ten |
| `Objects.OneMoreTx` | src/protocol.c:169-194 | every object of a list gives a transaction, as far as it can be read |
| `Objects.OneMoreBlock` | src/protocol.c:241-268 | an object that is no block spoils the whole chain |
| `Objects.LengthDecides` | src/protocol.c:232-233 | a chain is read only for a length from 1 to 10000 |
| `Objects.BlocksMustBeList` | src/protocol.c:236-237 | something else in the place of the blocks is no chain |
| `Objects.BareType` | src/protocol.c:286-325 | of a line with a type and nothing else only requests, pings and pongs say anything |
| `Survival.ListSurvivesExactly` | src/protocol.c:164-194 | the list of a block is read back if and only if every transaction but the last pairs its braces and the last closes none too many; otherwise some transaction has lost its hash |
| `Survival.BlockSurvivesExactly` | src/protocol.c:113-198 | a printed block comes back if and only if its list of transactions does |
| `Relaying.RelaySurvivesExactly` | src/net.c:365-384 | whatever its addresses hold, a relayed block reaches its receiver unaltered if and only if the payload scan gets through its list and its list survives the brace scan; otherwise some transaction has lost its hash |
| `Relaying.ListScan` | src/protocol.c:304-312 | the payload scan gets through a printed list, or ends where at least one transaction has not shown its hash yet |
| `Carry.NoBackslashCarries` | src/protocol.c:304-312 | it gets through every list of which no address ends in a backslash |
| `Relaying.BackslashDecides` | src/main.c:276 | a receiver that ends in a backslash survives alone, but not in front of one that closes brackets |
| `Survival.BracesDecide` | src/main.c:276 | a payment to `}` does not survive, and one to `{` survives as the last of its block only |
| `Messages.ParsesBlocks` | src/protocol.c:240-269 | the loop over a printed list of blocks reads back the list, through both levels of the scan |
| `Messages.ChainRoundTrip` | src/protocol.c:200-271 | print and parse: every chain of 1 to 10000 well-formed blocks comes back |
| `ChainSurvival.ChainSurvivesExactly` | src/protocol.c:200-271 | a chain comes back if and only if all its transactions pair their braces, but for the very last, in which some may stay open |
| `ChainSurvival.LastBlockExactly` | src/protocol.c:240-269 | the last block of a list is cut out and read whole if and only if its list of transactions survives |
| `Headers.HeadersFollow` | src/protocol.c:240-269 | wherever braces in addresses lead the scan, the blocks that are read bear the headers of some of the printed blocks, in their order |
| `Messages.MsgRoundTrip` | src/protocol.c:273-325 | type and payload come back |
| `Messages.TxMessageRoundTrip` | src/net.c:391-409 | a transaction sent in a message is the one received, when no address ends in a backslash |
| `Messages.BlockMessageRoundTrip` | src/net.c:365-384 | a block sent in a message is the one received |
| `Messages.ChainMessageRoundTrip` | src/net.c:105-116 | a chain sent in a message is the one received |
| `Transport.TransportExactly` | src/protocol.c:286-325 | a sent transaction arrives unchanged or not at all, and is lost if and only if its sender ends in a backslash and its receiver closes a bracket it did not open |
| `Transport.SomeTransactionIsLost` | src/protocol.c:305-306 | such a transaction exists |
| `Framing.Socket.Send` | src/net.c:62 | the kernel takes some bytes from the front, or fails |
| `Framing.Socket.Recv` | src/net.c:38 | one byte, or a closed connection |
| `Framing.SendMessage` | src/net.c:56-67 | whatever the kernel takes at a time, the whole message goes out in order, or on failure a prefix of it |
| `Framing.ReadMessage` | src/net.c:31-51 | takes the stream up to the next newline or a full buffer, and nothing more |
| `Framing.HandleAll` | src/net.c:162-184 | the reading loop hands on the frames of the stream in order |
| `Framing.FramingExact` | src/net.c:31-67 | reading gives back the list of messages sent, with nothing left over, if and only if no message holds a newline and each is at most MAX_MSG_SIZE-2 characters |
| `Framing.StreamIsReadLineByLine` | src/net.c:31-67 | whatever is sent, and however long, is read message by message |
| `Framing.LongLineInPieces` | src/net.c:31-51 | a line that does not fit the buffer is read as full buffers and what is left of it |
| `Wire.DecodesBack` | src/net.c:72-154 | the handler acts on exactly the message that was encoded |
| `Wire.WireRoundTrip` | src/net.c:31-67 | end to end: a list of messages is printed, framed, sent, read and parsed, and comes out as the same list |
| `Wire.ShortEnough` | src/net.c:33-36 | every transaction, every block and every chain of up to 171 blocks fits the reader's buffer |
| `Wire.ReadOneByOne` | src/net.c:162-184 | each message is read by itself, whatever is sent before and behind it |
| `Wire.PortableArrives` | src/net.c:162-184 | a well-formed message whose line fits the buffer is read on the other end as it was printed |
| `Wire.KindArrives` | src/protocol.c:286-325 | whatever a message carries, and even if its end is cut off, its kind is never mistaken |
| `Wire.ChainArrivesWithin` | src/protocol.c:228-269 | of no line is a chain read that does not fit the array |
| `Cuts.TxCut` | src/protocol.c:99-111 | a transaction whose text is cut off is read whole if no more than its last quote and brace are lost; otherwise it loses its hash, or the end of it |
| `Cuts.BlockCut` | src/protocol.c:146-198 | a block whose text is cut off is not read, or has lost some of what is hashed, or is read whole: with transactions exactly when at most four characters are lost |
| `Cuts.CutIsInvalid` | src/block.c:63-83 | a block that was cut off fails validation, unless its hash is also that of a shorter beginning of what was hashed |
| `LongLines.ChainCut` | src/protocol.c:228-271 | a chain that is cut off in its list is not read, or read up to some block, the last perhaps cut; it is read whole exactly when at most six characters are lost |
| `LongLines.LongResponse` | src/net.c:31-51 | of a response that fills the buffer nothing is read or a prefix of the chain, the last block perhaps cut; the whole chain exactly when at most seven characters are lost |
| `LongLines.ManyNeverFit` | src/net.c:33-36 | a response with 4767 blocks or more, their hashes of full length, never fits |
| `KeyLaws.ChainIsVouched` | src/protocol.c:27-43 | in a printed chain, whatever its addresses hold, the keys of hashes and signatures stand only in front of plain strings, and no key stands in the spaced spelling |
| `Clear.ReadIsClear` | src/net.c:72-154 | of a text of that kind, whole or in part, only one-line contents with plain hashes and signatures are read |
| `Clear.ClearReading` | src/net.c:162-184 | of a message longer than the buffer the first piece is read for the message, its kind not mistaken, and the other pieces are no messages |
| `Transactions.ComputeTxHash` | src/tx.c:10-33 | the 512-byte buffer never cuts, so the hash is that of the whole pre-image |
| `Layout.TxPreImageLayout` | src/tx.c:18-20 | what is hashed of a transaction: sender, receiver and the digits of amount and fee, each where it stands |
| `Transactions.TxPreImageExact` | src/tx.c:18-20 | equal pre-images mean the same sender, receiver, amount and fee if and only if senders, receivers and amounts are of equal widths |
| `Transactions.FullAddressesExact` | src/tx.c:18-20 | between 64-character addresses equal pre-images fix both addresses, and the payment exactly when the amounts have equally many digits |
| `Transactions.TxPreImageIsAmbiguous` | src/tx.c:18-20 | payments of different amounts with one pre-image exist |
| `Blocks.ComputeHash` | src/block.c:10-39 | the 4096-byte buffer and the loop guard drop no transaction hash: the hash is that of the whole pre-image |
| `Layout.BlockPreImageLayout` | src/block.c:18-20 | what is hashed of a block: the digits of index and time stamp, the parent, the digits of the nonce, each where it stands |
| `Layout.TxHashStands` | src/block.c:24-27 | and behind them the hash of every transaction in the order of their places |
| `Blocks.ValidateBlock` | src/block.c:63-83 | returns 0 exactly for a block whose stored hash is that of its content and starts with 00 |
| `Blocks.Mine` | src/block.c:41-61 | finds the least nonce that meets the target, after nonce + 1 attempts, if there is one |
| `Blocks.MinedIsValid` | src/block.c:41-83 | a mined block passes validation |
| `Blocks.MinedIsUnique` | src/block.c:85-100 | mining is deterministic, so all nodes compute the same genesis block |
| `Blocks.CreateGenesis` | src/block.c:85-100 | gives the mined genesis block |
| `Layout.GenesisLayout` | src/block.c:85-100 | index 0, time stamp 1231006505, no transactions, a parent of 64 zeros, and a hash that starts with 00 |
| `Chains.Blockchain.constructor` | src/chain.c:9-20 | a new chain holds exactly the genesis block |
| `Chains.Blockchain.Empty` | src/net.c:122 | a zeroed chain holds no block |
| `Chains.Blockchain.LastBlock` | src/chain.c:27-33 | gives the last block, and none for an empty chain |
| `Chains.Blockchain.Add` | src/chain.c:35-70 | appends a block exactly when there is room and index, parent and hash fit; otherwise returns -1 and changes nothing |
| `Chains.Blockchain.Validate` | src/chain.c:72-91 | returns 0 exactly when every block but the first stands correctly behind its predecessor |
| `Chains.Blockchain.ReplaceWith` | src/chain.c:113-140 | takes over exactly the chains that are longer and valid |
| `Chains.ApplyRefinesValidation` | src/chain.c:35-140 | one add or replacement keeps the chain valid, changes it only by making it longer, and an add keeps what was there |
| `Chains.RunRefinesValidation` | src/chain.c:35-140 | incremental checking refines full validation over every run, and a chain that ends as long as it began was never touched |
| `Chains.LongestChainWins` | src/chain.c:113-140 | whatever chains arrive, the node ends with the first of the longest valid ones, and keeps its own on a tie |
| `Chains.EndsWithBestLength` | src/chain.c:113-140 | the final length is the maximum of the own and the valid received ones |
| `Chains.OrderOfArrivalIsIrrelevant` | src/chain.c:113-140 | permuting the received chains never changes the final length |
| `Forks.PreImageInjective` | src/block.c:18-27 | the undelimited pre-image fixes time stamp, parent, nonce and list of transaction hashes, for blocks of one index and one time stamp width |
| `Forks.PreImageExact` | src/block.c:18-27 | blocks with equal pre-images agree in everything that is hashed if and only if their indexes and the widths of their time stamps are equal |
| `Forks.PreImageIsAmbiguous` | src/block.c:18-20 | at one height, blocks with time stamps of different widths and one pre-image exist |
| `Forks.HashFixesHistory` | src/chain.c:72-91 | without collisions among the blocks concerned, one equal hash makes all blocks below equal in everything that is hashed |
| `Forks.ForksNeverMerge` | src/chain.c:72-91 | two chains that part at one height never agree at a later one |
| `Tampering.ExchangedBlock` | src/chain.c:72-91 | exchanging one block keeps a chain valid exactly when it fits between its two neighbours |
| `Tampering.TamperEvidence` | src/chain.c:72-91 | other transactions in a block go unnoticed if and only if it is block 0 or the stored transaction hashes are the same |
| `Tampering.AmountsAreNotCovered` | src/block.c:24-27 | any amount in any block of a valid chain can be changed and the chain stays valid |
| `Ledger.GetBalance` | src/chain.c:93-111 | computes the exact balance over the integers, read as 64 signed bits |
| `Ledger.AddBlockTxs` | src/chain.c:99-107 | one turn adds a block's transactions to the balance so far |
| `Ledger.MachineBalanceIsExact` | src/chain.c:93-111 | whatever wraps on the way, the machine balance is the exact one if and only if that fits 64 signed bits |
| `Ledger.FeesAreTheOnlyLeak` | src/chain.c:93-111 | conservation for any transactions whatever: all balances together, COINBASE included, are minus the fees |
| `Payments.PaymentMoves` | src/chain.c:99-107 | one payment among any others takes amount and fee from its sender and gives the amount to its receiver; to oneself it costs the fee; nobody else is concerned |
| `Payments.ConfirmedPaymentMoves` | src/chain.c:93-111 | so does a payment that is confirmed at any place of a new block, for balances over the whole chain |
| `Mining.App.OnNewTx` | src/main.c:44-52 | appends to the mempool, and drops the transaction when 100 are pending |
| `Mining.App.Send` | src/main.c:284-321 | accepts exactly a fee of at least 1 and a cost within the balance, and appends a payment from the own address with the receiver, cut to 64 characters, the amount, the fee and the signature asked for, and the hash of these |
| `Mining.App.CanAfford` | src/main.c:195-197 | the test with its casts, on the balance computed in machine arithmetic |
| `Mining.App.SelectTxs` | src/main.c:193-201 | the loop picks the first nine affordable transactions in order of arrival and adds up their fees |
| `Mining.App.Collect` | src/main.c:192-203 | picks them and empties the mempool |
| `Mining.App.Draft` | src/main.c:205-208 | the coinbase with 50 and the fees, hashed again, stands in front of the picked transactions |
| `Mining.App.DoMine` | src/main.c:174-245 | with nobody else running, the block added extends the last one, pays the miner 50 and the fees of the picked transactions behind it, and has a hash that starts with 00; only a full chain refuses it, and the mempool is empty |
| `Mining.TotalFeesExact` | src/main.c:199 | the wrapping sum of the fees is the exact one modulo 2^64 |
| `Mining.TemplateFits` | src/main.c:205-245 | a mined template is accepted by the chain it was made for exactly when that is not full |
| `Mining.PickedExactly` | src/main.c:193-202 | a transaction gets into the mined block if and only if its sender can afford it and, at one of the places where it stands in the mempool, fewer than nine before it could be afforded |
| `Mining.PickedInOrder` | src/main.c:193-201 | the picked transactions, at most nine, stand in the order of their arrival |
| `Mining.CoinbasePaysMiner` | src/main.c:206-208 | the coinbase pays the miner 50 and the fees, modulo 2^64 |
| `Economy.OverdraftBound` | src/main.c:193-201 | a block takes an account with balance b to no less than (1-m)*b for m debits, so to no less than -8*b; an account below zero is not debited |
| `Economy.OverdraftIsTight` | src/main.c:193-201 | for every m up to nine there is an assembled block that reaches the bound |
| `Economy.SafeExactlyWithoutRepeat` | src/main.c:195-197 | blocks with m debits of an account keep it from going negative if and only if m is at most 1 or nothing is there to spend |
| `Economy.ExactSupply` | src/main.c:205-208 | on chains assembled by miners the real balances add up to exactly 50 for each block after the first |
| `Economy.Solvency` | src/main.c:193-201 | if no block debits an account twice, every real balance lies between 0 and what was mined |
| `Economy.NoSumOverflows` | src/chain.c:93-111 | on such chains no running sum comes near overflow at any step |
| `Economy.BalancesAreExact` | src/chain.c:93-111 | on such chains the computed balance is the exact one, and at most 499950 |
| `Handlers.Node.AddPeer` | src/net.c:189-227 | a new peer goes to the end of the table, is asked for its chain and sent the mempool; a full table refuses it |
| `Handlers.Node.SendTx` | src/net.c:423-435 | sends the printed transaction to one peer |
| `Handlers.Node.ConnectPeer` | src/net.c:323-359 | as for a new peer, and the second request goes to whoever is last in the table, even when the connection was refused |
| `Handlers.Node.RequestChainFrom` | src/net.c:411-421 | asks the peer at an index of the table, and nobody for an index outside it |
| `Handlers.Node.SyncPool` | src/main.c:58-69 | sends the whole mempool in order |
| `Handlers.Node.BroadcastBlockExcept` | src/net.c:365-384 | sends one line with the block for each place in the table but those of the excepted peer |
| `Handlers.Node.BroadcastTx` | src/net.c:391-409 | sends one line with the transaction for each place in the table |
| `Handlers.Node.OnChainResponse` | src/net.c:119-138 | reads the chain into one of its own and takes it over by the longest-chain rule; a chain that cannot be read changes nothing |
| `Handlers.Node.OnNewBlock` | src/net.c:78-91 | adds the block if it fits, and only then sends one line with it for each place in the table but those of the sender, and nothing else |
| `Handlers.Node.AnswerWithChain` | src/net.c:105-117 | answers with the whole chain |
| `Handlers.Node.HandleMessage` | src/net.c:72-154 | what each kind of message does to chain and mempool and what is sent for it; a line that says nothing changes nothing; and a payment that was sent is pooled unless 100 are pending |
| `Handlers.BroadcastReaches` | src/net.c:375-381 | a broadcast reaches exactly the peers in the table but the excepted one |
| `Handlers.BroadcastSends` | src/net.c:375-381 | a broadcast holds one copy for each place in the table but those of the excepted peer, and nothing else |
| `Handlers.BroadcastInOrder` | src/net.c:375-381 | in the order of the table |
| `Handlers.PoolPostsAre` | src/main.c:61-63 | the mempool is sent to one peer in order |
| `Network.MessagesComeFrom` | src/net.c:72-154 | after any step, every line in flight was there before or is read of what is sent in that step |
| `Sequential.FirstInFirstOut` | src/net.c:56-67 | what is sent goes behind what is on its way, in the order of sending |
| `Sequential.LineHandled` | src/net.c:72-154 | a turn of a reading loop can be taken exactly for an accepted connection, a line, and for a payment a free mempool; it does what the handler does and takes the line from its queue |
| `Sequential.RelayIsHandlers` | src/net.c:78-91 | the relay that waits behind an accepted block sends the lines that the handler sends |
| `Sequential.JobCarriedOut` | src/net.c:365-409 | a pending broadcast goes to the whole table but the excepted peer, a pending synchronization sends the mempool in order, and each is done once |
| `Sequential.SendAlone` | src/main.c:284-321 | `do_send` step by step: it goes on under exactly its tests, keeps the payment asked for in hand, pools it and leaves its broadcast to be done |
| `Sequential.MiningAlone` | src/main.c:174-245 | `do_mine` step by step: from every state such steps lead to the chain, the mempool and the broadcast that the method leaves |
| `Sequential.DialAlone` | src/net.c:323-359 | a dial enters the connection, asks for the chain and leaves mempool and second request to be sent, or with a full table the latter only |
| `Sequential.AcceptAlone` | src/net.c:189-227 | an accepted connection is entered, asked for its chain and owed the mempool |
| `Gossip.StaysPending` | src/net.c:391-409 | no step loses a payment that is to be broadcast or on its way, but the one that reads it |
| `Gossip.PaymentsReachNeighbours` | src/net.c:391-409 | once it is broadcast and the queue of a neighbour is empty, the neighbour has read it, and it is in the mempool there, unless that was full or has been emptied by mining since |
| `Honest.ShapeKept` | src/net.c:189-227 | every step keeps table sizes, distinct table entries, paired connections, the mempool bound and the chain bound |
| `Honest.HonestyKept` | src/net.c:72-154 | one step by anybody, in which the wire distorts no chain, keeps every chain, held or in flight and adoptable, valid, numbered by position, within MAX_BLOCKS and on the common genesis; and a chain changes only by getting longer |
| `Honest.EveryStateIsHonest` | src/net.c:72-154 | so in every state of every run of such steps, under any interleaving of mining, paying, relaying, connecting and replacing |
| `ClearNet.ClearKept` | src/net.c:72-154 | one step by anybody, whatever is typed, keeps all that is held, pending or in flight one-line text with plain hashes and signatures |
| `ClearNet.EveryStateIsClear` | src/net.c:72-154 | so in every state of every run |
| `Altered.ChainHeaders` | src/protocol.c:228-271 | of a chain, whole or cut off, whatever its addresses hold, blocks are read that bear headers of its blocks in their order, from the first on, and the first whole if another follows |
| `Altered.HeadersMakeHonest` | src/chain.c:72-91 | a valid chain that bears such headers of an honest chain bears its first ones, and is honest, if no hash stands in that twice |
| `Altered.HonestyKeptWhateverIsTyped` | src/net.c:72-154 | one step by anybody, whatever is typed and whatever the wire alters, keeps every chain honest while no chain holds a hash twice |
| `Altered.HonestFromTheStart` | src/net.c:72-154 | from a fresh start so in every state of every run |
| `Honest.OptimisticMining` | src/main.c:181-245 | the final add of `do_mine` succeeds if and only if the chain is the one snapshotted and not full; then every balance was read from that very chain, and the block is the one made with nobody else running |
| `Tidy.MinedIsTidy` | src/main.c:174-228 | a block mined from tidy transactions on a tidy chain can be sent |
| `Tidy.TidyReading` | src/net.c:162-184 | a tidy message is read as it was printed if and only if at most seven characters do not fit the buffer; of a longer chain at most a beginning can be adopted, and all lines behind the first say nothing |
| `Tidy.TidinessKept` | src/net.c:72-154 | every step of tidy users keeps all that is held, pending or in flight and adoptable such that it can be read back, and the wire distorts no chain in it |
| `Tidy.EveryStateIsTidy` | src/net.c:72-154 | so in every state of every run of theirs, long responses included |
| `Tidy.HonestThroughTheWire` | src/net.c:72-154 | from a fresh start, through the codec: all chains are honest, and everything sent next is read as it was printed, as far as it fits the buffer |
| `Consensus.SameHashSameChain` | src/block.c:18-27 | without collisions among mined blocks and coinbases of one height, equal last hashes mean equal chains, transactions included |
| `Consensus.AcceptedIsMined` | src/chain.c:47-60 | a relayed block that is accepted completes a chain that somebody mined |
| `Consensus.KnownArrives` | src/net.c:162-184 | what can be adopted or accepted of what is read of a known message is known, cut responses included |
| `Consensus.OneHistoryKept` | src/net.c:72-154 | every step keeps all chains, relays, pending jobs and half-mined blocks within the history of what was mined |
| `Consensus.EveryStateHasOneHistory` | src/net.c:72-154 | so in every state of every orderly run |
| `Consensus.OrderlyRun` | src/net.c:72-154 | a fresh network stays honest, tidy and of one history on every orderly run, unless two mined blocks collide |
| `Consensus.MinedIsAssembled` | src/main.c:174-245 | every chain of that history was assembled block by block by miners |
| `Consensus.OneTipOneChain` | src/chain.c:35-140 | nodes that agree on a tip hold the same chain |
| `Consensus.NetworkEconomy` | src/main.c:193-208 | on every chain that any node of the network ever holds: exact supply as long as fees do not wrap, and solvency when no block of it debits an account twice |
| `Quiescence.DeliverDecreases` | src/net.c:72-154 | handling a line decreases the measure, answers and relays included |
| `Quiescence.WorkDecreases` | src/net.c:365-409 | and so does carrying out a pending broadcast |
| `Quiescence.TrafficEnds` | src/net.c:72-154 | with nobody mining, sending or connecting, and whatever was typed before, every run of deliveries and broadcasts is at most as long as the measure: for each block that still fits behind a chain, each line in flight and each pending broadcast what it can still cause, an answer counting for up to 59 lines |
| `Quiescence.SilenceIsReached` | src/net.c:72-154 | from every such state a run leads to silence |
| `Flood.FloodGoesOn` | src/net.c:78-91 | every step of a flood keeps the invariant: a neighbour of a node with the block has it, does not hold its parent, or will be sent it |
| `Flood.FloodReachesExactly` | src/net.c:78-91 | once a quiet network is silent again after one node mined a block that is read as printed, the block is at exactly the nodes that a path through holders of its parent reaches, and all others hold what they held; and traffic alone ends |
| `Flood.FloodCompletes` | src/net.c:365-384 | when all nodes agree and are connected, all get such a block |
| `Flood.HonestFlood` | src/chain.c:47-55 | in an honest and tidy network the hypotheses of the flood hold: the block survives the wire, fits only behind its parent, and nobody has it yet |
| `Stranding.NobodyTakesIt` | src/net.c:78-91 | a block that nobody accepts as it is read stays with its miner: no other chain ever changes |
| `Stranding.AlteredBlockStrands` | src/net.c:78-91 | a mined block that does not come through both scans, whatever its addresses hold, reaches nobody, unless it collides with what is read |
| `Stranding.SurvivorFloods` | src/net.c:78-91 | and one that comes through meets the hypothesis of the flood |
| `Agreement.AdoptionExactly` | src/net.c:119-138 | when only lines of responses are on their way, each node ends with the longest valid chain that is read of them, or its own, in whatever order they arrive, and nobody passes anything on |
| `Agreement.SynchronizedExactly` | src/net.c:411-421 | a node that asks ends with a chain as long as the other held if and only if it had one before or the response loses at most seven characters in the buffer; a longer one leaves it with its own chain or a beginning of the other; nobody else changes |
| `Agreement.LongChainsSynchronizeNobody` | src/net.c:119-138 | asked by a node that is behind, a node with 4767 blocks or more leaves it behind |
| `Agreement.AskingSynchronizes` | src/net.c:411-421 | whoever has asked for a chain ends with one as long as the other held meanwhile, whatever else goes on, if the answers fit the buffer |
| `LeftBehind.SomebodyStaysBehind` | src/net.c:119-138 | from every fresh start of three or more nodes there is a run that ends in silence with a node behind that is connected to one that holds the new block |

## Left out

- SHA-256 and Ed25519, `src/wallet.c`, key files: foreign code. `wallet_verify_tx` is never called by the node, and no theorem relies on a signature.
- The search for a nonce is proved to end only where some nonce works; the witness is a hypothesis of `Blocks.Mine` and of everything that mines.
- Sockets beyond what `send` and `recv` return, name resolution, threads, signals, the menu, the animations and all printing to the screen.
- Data races: the code serializes the chain and reads balances without the chain lock (`src/net.c:107`, `src/main.c:195`); the model takes each of them as one step.
- Two threads writing to one socket at once: in the step system a message is put into its queue whole.
- Lost connections: `active` is always 1, a connection that a full table refuses stays undelivered, and no peer leaves the table.
- `MSG_PEER_LIST`, which nothing sends; ping and pong are handled but nobody in the step system pings.
- Deserializers.DeserializeBlock: a received `tx_count` above 10 gives `OutsideModel`, because the C code keeps it and its later loops would run past the array.
- Deserializers.DeserializeBlocks: nothing is promised for a list with such a block.
- Deserializers.DeserializeChain: nothing is promised for a chain with such a block.
- Handlers.Node.OnNewBlock: nothing is promised for such a block, because the C code would hash past its array.
- Handlers.Node.OnChainResponse: nothing is promised for a chain with such a block, for the same reason.
- Handlers.Node.HandleMessage: nothing is promised for a message with such a block, for the same reason.
- A received `tx_count` below 0 is read as 0; the C code keeps it, every loop treats it alike, but printing it back would differ.
- Places of `transactions[]` beyond `tx_count`, and what lies behind the NUL of a text field, are not modelled; blocks and transactions are values.
- Failures of `malloc`.
- The hash of a received transaction, which the code never recomputes: in the network theorems it is that of a transaction made by some node, and elsewhere any text.
- Merkle trees, halving, difficulty retargeting, priority by fee: in the documents only.
- RoundTrip.TxRoundTrip: signature and hash must be free of quotes and backslashes, because the code prints them unescaped; both are hexadecimal where the program makes them.
- RoundTrip.BlockRoundTrip: sufficient for any text behind the block; the exact condition for a whole block is `Survival.BlockSurvivesExactly`.
- Messages.ChainRoundTrip: sufficient for any text behind the chain; the exact condition for a whole chain is `ChainSurvival.ChainSurvivesExactly`.
- Transport.TransportExactly: for signatures and hashes without brackets, as hexadecimal ones are.
- Honest.HonestyKept: asks that the wire distort no chain in the step; `Tidy.TidinessKept` proves that for tidy users, and `Altered.HonestyKeptWhateverIsTyped` does without it.
- Altered.HonestFromTheStart: unless a chain that somebody holds comes to hold two blocks with one hash.
- Tidy.TidyReading: for blocks from height 171 on, which alone can be cut off, unless the hash of one is also that of a shorter beginning of what was hashed for it (`Cuts.NoneShorter`).
- ChainSurvival.ChainSurvivesExactly: about the scan for braces; backslashes at the end of addresses end the payload of a response as they end that of a block (`Relaying.ListScan`), which is not characterised for chains.
- Forks.PreImageInjective: time stamps of one width, as all are between the years 2001 and 2286; `Forks.PreImageIsAmbiguous` shows why.
- Economy.Solvency: needs that no block debits an account twice; `Economy.SafeExactlyWithoutRepeat` shows why.
- Consensus.NetworkEconomy: for tidy users who pay no COINBASE and no cost of 2^63 or more, with clocks of ten-digit time stamps, and unless two mined blocks of one height collide.
