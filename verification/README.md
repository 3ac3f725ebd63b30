# BlindEye ledger model

A Dafny model of the BlindEye (BEC) node's ledger and of what feeds it: the UTXO state machine with forks and
reorganisations, the mempool and node that build the next block, the emission schedule that bounds supply, the
codecs under them (compact targets, transaction bytes, Merkle root, decimal amounts), block synchronisation between
two nodes, the wallet's coin selection and history, and parallel mining as interleaved steps.

`dafny verify dfyconfig.toml` checks the whole project.

## How it is laid out

Each rule exists once, as a function on values (`Ledger`, `ChainRules`, `Mempool`, `NodeRules`, `Wallet`,
`History`, `Compact`, ...). Where the program works by changing things step by step, a class or a method with the
same fields and loops is proved equal to that function (`Blockchain`, `Node`, `Mempool.Mempool`, the `...Loop`
methods). The theorems are then about the functions and about runs of them. So that no theorem leans on a rule that
nothing else fixes, each rule is also proved equivalent to what it promises in plain terms, with the source's numbers
written out (`ChainRules.AdmitsExactly`, `Admission`, `LedgerRules`, `PoolRules`, `HistoryRules`, `AmountRules`,
`TxLayout`, and the lemmas named `...Exactly`).

- Hashes are uninterpreted functions in the record `Types.Host`. Nothing assumes that they have no collisions; a
  theorem that needs this is about a finite set of transactions (`Pending.Universe`) in which no two share a txid.
  `TxCodec.EqualDigests` and `Merkle.EqualRoots` turn a violation into an explicit collision.
- `Host.overflowChecks` says how u64 arithmetic that the source leaves unchecked ends: in a trap (`Result.Trap`)
  or by wrapping around, as in a release build. Every theorem is about both builds unless it names one. A
  transaction is exact (`Accounting.Exact`) if the build checks its output sum or the sum fits.
- The invariant of every run, whatever is submitted, is `AnyRun.Grounded`: stored blocks have passed their checks,
  the best chain is the walk back from its tip, the ledger is its replay from the bootstrap outputs, and the height
  is the tip's. Blocks are stored before they are replayed, so nothing is claimed of stored blocks whose path does
  not replay. `AnyRun.Run` and `NodeRules.After` are any sequences of submissions, valid or not, on any branch.
- A run is rooted if it stores no block of height 0 (one that is refused does no harm). Rooted runs keep more,
  `Consensus.Inv`: every block hangs from the genesis at its height, and no stored block whose path replays is
  higher than the tip. Synchronisation is about nodes in such states.
- The order in which a hash map is iterated is arbitrary; the clock and the difficulty bits are parameters.
- No proof uses the verifier's automatic induction; the lemmas to which it would apply say `{:induction false}`.

## Where the documentation and the code differ

- `docs/design.md:29` promises a supply of exactly 420,480,000 BEC. The code issues 19,999,999,989 x 2,102,400
  units in the end, a little less, because halving rounds down (`Emission.DefaultSupply`).
- `docs/design.md:16` promises the chain of highest cumulative work. The code takes the longest chain, and of
  equally long ones the first accepted (`AnyRun.TipIsFirstLongest`).

## What holds only under a condition

Each of these properties fails for some input. The input and the exact condition are both proved.

- Supply, of one block. A block that applies adds no more than its subsidy, counting what it overwrites, if and only
  if all its transactions are exact (`Conservation.BoundExactly`). Without overflow checks a coinbase
  (`Accounting.UncheckedBlockValue`) or an ordinary transaction (`Conservation.UncheckedSpendBlock`) can break it.
- Supply, of a run. In any build, after any submissions, the ledger obeys one exact law: its value, plus what was
  overwritten, plus what was left unclaimed, is the bootstrap value, plus what the heights on the best chain entitle
  to, plus 2^64 for every sum that wrapped (`Supply.SupplyBound`). The schedule bounds it if and only if the best
  chain is exact and as long as its height says (`Supply.ScheduleBoundsExactly`).
- Heights. The best chain is as long as its height says, every block on it is as high as its position, and it earns
  what the schedule pays, if and only if no block on it after the genesis is of height 0 (`Supply.HeightLaw`). A
  block of height 0 whose parent is unknown can be stored, and heights and subsidies start again above it once its
  parent has arrived (`Unrooted.HeightsRestart`).
- Synchronisation. A round reaches its target if and only if the receiver has stored nothing yet under the hashes
  it brings (`Sync.RoundReaches`). That fails without any collision of the block hash: a block whose number of
  transactions is not a power of two, and the block that repeats the last of them, have one header. A node that has
  seen the second refuses the first for good (`Twins.TwinForever`), and no round gets past it
  (`Twins.TwinStopsRound`). It cannot fail where two stores hold the same block under every hash they share
  (`Sync.AgreeingStoresUnseen`).
- Pending transactions. In every state of every run a pending transaction is valid, with the fee recorded for it, if
  and only if the ledger has its inputs (`PoolRuns.PoolOverRuns`), which it always has unless branches were
  switched. After a switch it can be pending without them (`Switched.PendingLosesInput`).
- Templates. Where it has them all, a block mined from a template is accepted if and only if what its coinbase is
  due is not zero and fits in u64 (`Templates.TemplateAccepted`). Two pending transactions can pay more than that
  (`Overpaid.TemplateRefused`).
- History. Along a chain without repeated txids, in any build, the records of a script add up to its balance if and
  only if no record misstates anything: no transaction draws on the script for a positive amount smaller than all
  its outputs, and no sum of a record goes round u64 (`History.HistoryIsLedger`). A payment funded by two owners
  does the first (`History.SharedPaymentSaturates`), a coinbase of two outputs of 2^63 the second
  (`History.UnrecordedCoinbase`).

## Model

| member | source | states |
|---|---|---|
| Consensus.AddBlockEffect | src/blockchain.rs:91-118 | one call of `add_block` that stores no block of height 0 keeps the invariant; a block passes the checks exactly if it is admissible, wherever its parent lies; it answers Ok exactly for such a block whose path replays; the tip moves exactly when that block is one higher; in every other case, all errors included, best chain, ledger and height stay |
| AnyRun.TipIsFirstLongest | src/blockchain.rs:103-115 | after every run from the genesis, whatever was submitted: every accepted hash has a path that replays, and the tip is the first accepted one among those with the longest path |
| AnyRun.AnyBlockEffect | src/blockchain.rs:91-118 | one call of `add_block`, whatever the block, keeps the invariant; a block passes the checks exactly if it is admissible; it answers Ok exactly for such a block whose path reaches the genesis and replays; it adopts that path exactly if it is longer; in every other case, all errors included, best chain, ledger and height stay |
| ChainRules.AdmitsExactly | src/block.rs:91-123 | a block passes the checks exactly if its hash is new, it has transactions, their Merkle root and a hash that, as a number, is at most its target, and either its parent is stored, at whatever depth, one lower and not newer, or its parent is unknown and its height is 0 |
| ChainRules.StoresExactly | src/blockchain.rs:91-103 | a call stores the block exactly under those conditions, and changes no other stored block |
| ChainRules.RefusedFor | src/blockchain.rs:91-102 | which error a block gets: the first of nine that applies, proof of work exactly if its hash value exceeds its target |
| Admission.BranchWins | src/blockchain.rs:91-118 | blocks that continue any stored block with a path, submitted in order, are all stored; if the path through them replays and is longer than the best chain, it is the best chain afterwards, however deep the fork, and otherwise the best chain stays |
| AnyRun.WalkExactly | src/blockchain.rs:120-135 | the walk back from a block finds a path exactly if there is one: it begins at the genesis, does not return there, and each block on it names the one before |
| ChainRules.GenesisExactly | src/blockchain.rs:75-89 | the genesis block, field by field |
| AnyRun.RunGrounded | src/blockchain.rs:91-118 | every run keeps the invariant, the bootstrap, the genesis and every stored block |
| AnyRun.BestLinks | src/block.rs:91-123 | in any such state each block of the best chain names the one before it, has the Merkle root of its transactions and meets its target; and it is one higher and not older, or of height 0 |
| Runs.AcceptedReplay | src/blockchain.rs:103-115 | after every rooted run the accepted hashes are exactly the stored blocks whose path replays |
| Supply.SupplyBound | src/blockchain.rs:154-237 | after every run, whatever was submitted, the exact law; and if the best chain is exact and as long as its height says, all outputs together are worth at most the bootstrap plus the subsidies of heights 1 to the tip, less than the bootstrap plus the maximum supply |
| Supply.ScheduleBoundsExactly | src/blockchain.rs:219-237 | the schedule through the tip bounds ledger plus overwritten plus unclaimed, beyond the bootstrap, if and only if the best chain is exact and as long as its height says |
| Supply.HeightLaw | src/blockchain.rs:111-115 | the best chain has at least height plus one blocks and is entitled to at least what the schedule pays through that height; equality in either holds exactly if every block is as high as its position, and exactly if no block after the genesis is of height 0 |
| Supply.OverwrittenExactly | src/blockchain.rs:200-216 | the overwritten term is zero exactly if no transaction on the chain creates an outpoint that is there, unspent and worth something |
| Supply.LedgerConservation | src/blockchain.rs:154-237 | for every chain that any run can leave, in any build: ledger value, plus everything overwritten, plus everything coinbases left unclaimed, equals bootstrap value plus the subsidies for the heights on the best chain plus 2^64 for every wrapped sum; and no sum has wrapped exactly if the best chain is exact |
| Conservation.BoundExactly | src/blockchain.rs:154-237 | a block that applies adds at most its subsidy to the ledger, counting what it overwrites, if and only if all its output sums are exact |
| Conservation.BlockConservation | src/blockchain.rs:154-237 | the exact law for one block that applies, with its overwrites, its unclaimed reward and its wrapped sums |
| Conservation.InflatesIfWrapped | src/blockchain.rs:478-508 | a validated transaction creates more than it spends exactly if its output sum leaves u64 |
| Conservation.UncheckedSpend | src/transaction.rs:87-89 | without overflow checks, one unit spent into outputs of 2^64-1 and 2 is valid with fee 0 |
| Conservation.UncheckedSpendBlock | src/blockchain.rs:219-237 | a block with that transaction applies under a coinbase of one unit, and breaks the bound |
| Supply.BalancesFit | src/blockchain.rs:300-306 | no balance leaves u64 if the best chain is exact and as long as its height says, and the bootstrap value leaves room for the maximum supply |
| Runs.BestChainShape | src/block.rs:91-123 | the best chain starts at the genesis; each block has its position as height, names the one before it, is not older, has the Merkle root of its transactions and meets its target |
| AnyRun.HeightZero | src/blockchain.rs:91-118 | in any state, a submitted block of height 0 is accepted only without overflow checks on a stored parent of the last u64 height; otherwise it changes neither best chain nor ledger |
| Runs.KeptIfRooted | src/blockchain.rs:91-118 | a call keeps the invariant if and only if it stores no block of height 0 |
| Unrooted.HeightsRestart | src/blockchain.rs:96-115 | three submissions, the first of height 0 under an unknown parent, after which the best chain has four blocks, the height is 1, and the ledger holds three subsidies where the bound allows one |
| Runs.RunSound | src/blockchain.rs:91-118 | every rooted run from a sound chain ends in a sound chain with the same bootstrap and genesis |
| AnyRun.PathsKept | src/blockchain.rs:103-109 | a call, whatever the block, changes no stored block, no path that reaches the genesis, and no answer to whether it replays |
| Consensus.WalkLinked | src/blockchain.rs:120-135 | from every stored block the walk reaches the genesis, in height plus one steps, and passes through the walks of all its ancestors |
| Consensus.ReplayPrefix | src/blockchain.rs:137-152 | every prefix of a chain that replays, replays |
| Consensus.OnlyNewCanBeHigher | src/blockchain.rs:103-115 | once a block is stored, no other block that replays is above the incumbent, and the new one by at most one |
| Consensus.NewChainSound | src/blockchain.rs:47-89 | a new chain with any bootstrap outputs satisfies the invariant |
| Blockchain.Blockchain.constructor | src/blockchain.rs:47-73 | the new object is the new chain of the specification |
| Blockchain.Blockchain.AddBlock | src/blockchain.rs:91-118 | whenever the call returns, it updates the fields and answers as the specified transition does, from any state, and stores the block exactly if it is admissible; a valid object stays valid exactly if no block of height 0 is stored |
| Blockchain.Blockchain.PathToGenesis | src/blockchain.rs:120-135 | wherever following the parents ends, the loop that collects hashes downwards and reverses them is the walk from the genesis |
| Blockchain.Blockchain.BuildUtxoState | src/blockchain.rs:137-152 | the replay loop gives the replay of the chain or its first error |
| Ledger.CheckTransactionLoop | src/transaction.rs:66-85 | the loops accept exactly transactions with outputs, pairwise different inputs and no zero output, with the first error otherwise |
| Ledger.ValidateTransactionLoop | src/blockchain.rs:478-508 | the loop over inputs gives the specified fee or the first error |
| Ledger.ApplyTransactionLoop | src/blockchain.rs:190-217 | removing inputs and inserting outputs one by one gives the specified set |
| Ledger.ApplyNextStep | src/blockchain.rs:162-183 | one turn of the block loop: coinbase rules for the first transaction, fee and validity for the others |
| Ledger.ApplyBlockLoop | src/blockchain.rs:154-188 | the block loop and the reward check give the specified ledger or the first error |
| LedgerRules.CheckExactly | src/transaction.rs:66-85 | a transaction is refused for having no outputs, else for two inputs that spend one outpoint, else for any output of zero, and otherwise passes |
| LedgerRules.ValidExactly | src/blockchain.rs:478-508 | a transaction is valid at a fee exactly if it passes, its inputs are in the ledger under its keys, their worth fits in u64, and is what the outputs come to, as u64 adds them up, plus that fee |
| LedgerRules.AppliesExactly | src/blockchain.rs:154-188 | a block applies exactly if it has transactions, the first has no inputs and is in order, all others have inputs and are valid against what those before them leave, and the first claims at most the subsidy plus all fees; the result is what its transactions leave one after the other |
| LedgerRules.SubsidyExactly | src/protocol.rs:93-100 | the subsidy is 100 coins halved once per 2,102,400 blocks, rounded down, and zero from epoch 34 on |
| Accounting.ApplyMeaning | src/blockchain.rs:190-217 | outpoint by outpoint: the outputs are there under the txid with height and coinbase mark, what is spent is gone, everything else is as it was |
| Conservation.DestroyedExactly | src/blockchain.rs:200-216 | applying a transaction destroys value exactly if it creates an outpoint that is there, unspent and worth something |
| Accounting.TransactionAccounting | src/blockchain.rs:190-217 | for every script, and for all together: value after, plus overwritten, plus spent, equals value before plus outputs |
| Conservation.BlockOwner | src/blockchain.rs:154-217 | for every script and every block that applies: balance after, plus what the block spends of it and overwrites of it, is balance before plus what all its transactions pay to it |
| Accounting.RedeemedValue | src/blockchain.rs:484-500 | if the inputs redeem, each names an output of the ledger and is claimed by that output's owner, and together they give exactly its value |
| Conservation.FeeWraps | src/blockchain.rs:478-508 | in any build, inputs plus 2^64 for every time the output sum goes round are exactly outputs plus fee |
| Conservation.BlockValue | src/blockchain.rs:154-237 | an exact block adds at most its subsidy to the ledger's total, whatever its fees and overwrites |
| Accounting.SubsidiesCapped | src/protocol.rs:93-100 | the subsidies of heights 1 to n stay below the maximum supply for every n |
| Accounting.UncheckedBlockValue | src/transaction.rs:87-89 | a block of two outputs of 2^63 that such a build applies, leaving 2^64 units in the ledger |
| Accounting.GetBalance | src/blockchain.rs:300-306 | in whatever order the map is visited, the result is the sum of the script's outputs, or a trap or the wrapped sum when that leaves u64 |
| PoolRuns.PoolOverRuns | src/node.rs:138-282 | in every state of every run from a new node, branches switched or not: every pending transaction has inputs and shares none with another; it is valid against the ledger, with exactly its recorded fee, if and only if the ledger has its inputs; and it has them on runs that switch no branches |
| PoolRuns.PricedAndPresent | src/mempool.rs:79-88 | a pool is valid against a ledger exactly if its prices are right and its inputs are present |
| Switched.PendingLosesInput | src/node.rs:271-278 | a run of four submissions in which a pending transaction loses its input to the new branch, stays in the pool and is not valid |
| Templates.PendingApplies | src/blockchain.rs:154-188 | where the inputs are present, any different pending transactions, in any order, go through the block loop and pay exactly their recorded fees, if and only if those add up within u64 |
| Templates.RewardFits | src/node.rs:198-204 | they do, with the next subsidy on top, if the best chain is exact and as long as its height says, and the bootstrap leaves room for the maximum supply |
| Templates.TemplateMade | src/node.rs:182-222 | in every state a template is made: on the tip, one higher, dated now or with the tip if that is later, with the bits asked for; its first transaction has no inputs and one output, which pays subsidy plus the fees of the chosen transactions, saturated, to the miner; the others are the pending transactions chosen within 1,000,000 bytes, in order |
| Templates.MinerPaid | src/mining.rs:345-355 | when a block mined from a template becomes the tip, the balance of the miner grows by all that is due plus what the chosen transactions pay to him, less what the block spends of his and what it overwrites of his |
| Templates.TemplateAccepted | src/node.rs:182-222 | where the inputs of the pending transactions are present, a template completed with any nonce that meets its target under a fresh hash is accepted by `submit_block` if and only if what its coinbase is due is not zero and fits in u64, and is then the new tip |
| Templates.TemplateOverRuns | src/node.rs:265-282 | from a new node of any build over every run: a template is made, and if the ledger has the inputs of the pending transactions, as after every run that switches no branches, it is accepted exactly on that condition; what is due fits if submitted blocks were exact, the best chain is as long as its height says, and the bootstrap leaves room |
| Overpaid.TemplateRefused | src/node.rs:201-203 | a new node with two bootstrap outputs of 2^64-1 units, to which two transactions with almost all of one as fee are submitted, is sound, and every block mined from its template is refused |
| Templates.SecondRewardLost | src/mining.rs:345-355 | a second coinbase of the same reward for the same miner, while the first is unspent, applies and leaves the ledger as valuable as it was |
| Production.MineOneBlock | src/node.rs:240-255 | what the workers return for the node's own template, unless stopped, meets its target; under a fresh hash it is accepted exactly on that condition, and is then the tip |
| Templates.OnTip | src/blockchain.rs:103-115 | a checked block on the tip is accepted exactly if it applies, and then is the tip |
| PoolRuns.AdmittedPaysRate | src/node.rs:138-170 | a submission taken into the pool is in no stored block and spends no reserved outpoint; it adds one entry, with the validated fee, and with a fee rate not below the standard rate of that moment unless the required fee has saturated |
| PoolRules.SubmissionExactly | src/node.rs:138-170 | the answer to a submission is the first of seven reasons that applies, or else one entry is added with the fee, the time and the fee per byte rounded up; nothing else changes |
| PoolRules.RatesExactly | src/mempool.rs:59-77 | the standard rate is the minimum plus one per twenty pending transactions begun, the instant rate a quarter more and at least one, the required fee the size, at least one byte, at the standard rate; all capped at the last u64 |
| PoolRules.CleanedExactly | src/mempool.rs:156-175 | after a block exactly those entries stay, unchanged, that have the txid of none of its transactions and spend no outpoint it spends |
| PoolRules.BlockSubmissionExactly | src/node.rs:265-282 | a submitted block is answered as `add_block` answers; the pool is cleaned exactly if the block was accepted as the tip |
| Node.Node.constructor | src/node.rs:64-78 | a new node is a new chain and an empty pool of 10,000 entries at minimum rate 1 |
| Node.Node.SubmitTransaction | src/node.rs:138-170 | checks, fee and conflict tests in order, then the pool: state and answer as specified, chain untouched |
| Node.Node.SubmitBlock | src/node.rs:265-282 | whenever the call returns, for blocks of any height: state and answer as specified; the pool is cleaned only if the block became the tip |
| Node.Node.CreateBlockTemplate | src/node.rs:182-222 | the template of the specification, from the pool's own map order |
| Pending.ValidateFrame | src/blockchain.rs:478-508 | a valid transaction stays valid with the same fee in any ledger that kept the outputs it spends |
| Pending.CleanedSound | src/mempool.rs:156-175 | what survives the confirmation of a block on the tip is a sound pool for the new ledger |
| Pending.AnyOrderApplies | src/blockchain.rs:162-183 | the step from one pending transaction to any number of them, in any order, after any coinbase: it works exactly as long as the fees fit in u64 |
| Pending.FeesBounded | src/mempool.rs:112-154 | the fees of any different pending transactions together come out of the ledger, so they cannot exceed its value |
| Mempool.SelectionMeaning | src/mempool.rs:112-154 | at most ten different eligible entries; sizes within the limit; the fees are their sum; with fewer than ten, no other eligible entry still fits |
| PoolRules.SelectionExactly | src/mempool.rs:112-154 | which transactions a block gets, and in which order: an entry is chosen exactly if it is mature (it pays the instant rate, or the standard rate sixty seconds after its arrival), fewer than ten ranked before it are chosen, and it fits in what those leave of the limit |
| Mempool.RankingIgnoresIteration | src/mempool.rs:113-126 | sorting leads to one ranking from every iteration order, as the comparison is total through the txid |
| Mempool.RankingSorted | src/mempool.rs:118-126 | in the ranking the rates fall; among equal rates the arrivals rise; among equal arrivals the fees fall; among equal fees the txids do |
| Mempool.ConflictIsReserved | src/mempool.rs:79-101 | a transaction conflicts exactly if it spends a reserved outpoint |
| Mempool.Mempool.AddTransaction | src/mempool.rs:32-57 | one entry with the rounded-up rate, or the pool unchanged and the reason |
| Mempool.Mempool.RemoveConfirmedTransactions | src/mempool.rs:156-175 | exactly the entries with another txid and no confirmed input remain |
| Mempool.Mempool.GetTransactionsForBlock | src/mempool.rs:112-154 | collecting in map order, sorting and filling gives the specified selection and its fees |
| Sync.RoundReaches | src/p2p.rs:658-748 | a receiver whose best chain begins the sender's, after a round with the sender's answer, is on the sender's chain at its own height plus 100, the announced height or the sender's height, whichever is least, if and only if it had stored nothing under the hashes in question; it then has counted every block between |
| Sync.RequestExactly | src/p2p.rs:690-700 | a node asks for the blocks after its own height, as many as it lacks but at most a hundred, and not at all if it lacks none |
| Sync.LoopExactly | src/p2p.rs:694-739 | for every sequence of messages, the loop is the calls of `add_block` on the blocks it takes up; it counts as imported what the height has grown by, and reports the last height it has grown to |
| Sync.AgreeingStoresUnseen | src/p2p.rs:694-719 | that condition holds whenever the two stores hold the same block under every hash they share |
| Twins.TwinAdmitted | src/block.rs:66-123 | a block whose number of transactions is not a power of two, and the block that repeats the last of them, as many as the largest power of two that divides the number, have one hash and pass the same checks |
| Twins.TwinForever | src/blockchain.rs:91-118 | if the second is submitted, and the first of the repeated transactions spends something outside them, the first block, which would have passed every check, is refused as known after every later run, whatever is submitted, and its hash is on no best chain |
| Twins.TwinStopsRound | src/p2p.rs:658-748 | no round of synchronisation with any sender that has the first block then ends on that sender's chain at or above it |
| Sync.ImportsAll | src/p2p.rs:694-739 | the same for an answer that a ping cuts off after any number of blocks |
| Sync.ReachedWasUnseen | src/p2p.rs:694-719 | and it is necessary for any sequence of messages that stores no block of height 0 |
| Sync.ReplyIsFeed | src/p2p.rs:515-522 | a sound node answers with the next `count` blocks of its best chain, as far as there are that many |
| Sync.SuffixFromHeight | src/node.rs:288-298 | filtering the best chain by height cuts off a suffix |
| Sync.SynchronizeWith | src/p2p.rs:685-739 | for every sequence of messages whose blocks lead to calls that return, of any height, the message loop computes imported blocks, local height and received blocks as specified, on the chain object |
| Sync.RoundSound | src/p2p.rs:694-719 | from a sound chain, messages that store no block of height 0 lead only to calls that return, and to a sound chain |
| History.HistoryAndLedger | src/blockchain.rs:332-433 | in any build, on every chain that replays from an empty bootstrap the history exists, and its signed sum plus hidden shortfalls plus 2^64 for every dropped round is the balance plus what was overwritten |
| History.HistoryIsLedger | src/blockchain.rs:332-433 | in any build, with no repeated txid, the signed sum is at most the balance, and equal to it exactly if no record on the chain misstates anything: no fee saturates and no sum goes round; and so if every transaction has one owner and sums that fit |
| History.ChainFaithful | src/blockchain.rs:352-386 | nothing is hidden and nothing dropped exactly if no record on the chain misstates anything |
| History.ExactMisstates | src/blockchain.rs:386 | where the sums fit, a record misstates something exactly if 0 < owned inputs < outputs |
| History.OneOwnerChain | src/blockchain.rs:352-386 | where every transaction has one owner and sums that fit, no record misstates anything |
| History.UnrecordedCoinbase | src/blockchain.rs:345-370 | without overflow checks a chain of one coinbase that pays a script 2^63 twice has an empty history and a balance of 2^64 |
| History.SharedPaymentSaturates | src/blockchain.rs:380-404 | a valid payment of 3 units funded by owners of 1 and 2: the first owner's record says 3 went out with fee 0, while the balance falls by 1 |
| History.HistoryOfBestChain | src/blockchain.rs:332-433 | the same equivalence for the best chain and ledger that any run can leave |
| History.RecordEffect | src/blockchain.rs:342-416 | in any build, a record's signed amount plus its shortfall plus its dropped rounds is what the transaction gives the script less what it takes |
| History.RecordDirection | src/blockchain.rs:352-414 | in any build, in terms of the ledger and of u64 sums: there is a record exactly if the script gets or gives something; which of the four directions it has; its amount, fee, height and date |
| HistoryRules.HistoryExactly | src/blockchain.rs:332-433 | along every chain that replays, the history is, newest first, exactly one such record for each transaction that concerns the script, in the order of the chain, each made against the ledger that those before it left |
| History.ChainRecords | src/blockchain.rs:339-428 | every record is of a transaction of the block at its height, and records go from old blocks to new ones before the reversal |
| History.NewestFirstAt | src/blockchain.rs:431-432 | the returned list is the records in reverse |
| History.WalletHistoryLoop | src/blockchain.rs:332-433 | the nested loops compute the specified history or the first trap |
| Wallet.PreviewMeaning | src/wallet.rs:265-342 | for every recipient, amount and fee: a payment is built exactly if the recipient is an address, the amount is not zero, amount and fee fit in u64, and some shortest prefix of the free outputs covers them within u64; it spends that prefix with the wallet's key, pays the amount to the recipient and the change back to the wallet, and the ledger charges it exactly the fee asked for; otherwise the answer is the first of five errors that applies |
| Wallet.PreviewExactlyIfCovered | src/wallet.rs:212-223 | if all free outputs fit in u64, a payment can be built exactly if its recipient is an address, its amount is not zero and the spendable balance covers amount plus fee |
| Wallet.BuildTransactionPreview | src/wallet.rs:265-342 | the loop that skips reserved outputs and stops at the target gives the specified preview or error |
| Wallet.GetSpendable | src/blockchain.rs:321-330 | whatever order the map is visited in, the list is the same |
| Wallet.SpendableSorted | src/blockchain.rs:321-330 | it has exactly the outputs of the script, each once, by height, then txid, then index |
| Wallet.FreeExactly | src/wallet.rs:284-288 | the wallet chooses from exactly its own outputs that are not reserved, in that order |
| Wallet.AddressExactly | src/wallet.rs:178-185 | an address is BEC and forty hexadecimal digits of either case |
| Mining.MiningRun | src/mining.rs:239-319 | in every interleaving with at least one worker: only solutions are sent; every nonce tried that meets the target is held by a worker about to send it, in the channel, or with the receiver; the receiver does not give up unless stopped; the hashes are counted; and until some worker wraps around the nonces tried are exactly those below the workers' frontiers, each once |
| Mining.MinedIsSolution | src/mining.rs:297-319 | an outcome reached without a stop is a block with the transactions and header of the template but for the nonce, whose hash value is at most the target |
| Mining.NotFoundYet | src/mining.rs:268-287 | until something is found, no nonce below the frontiers meets the target unless the worker who tried it is about to say so |
| Mining.WorkerGoesOn | src/mining.rs:268-295 | a worker that has not returned can always take its next step, and what that is: it returns exactly if the search is over or stopped, takes a nonce that meets the target, and else goes on to its next one |
| Mining.ReceiverGoesOn | src/mining.rs:297-319 | so can the receiver: it gives up exactly if told to or if all workers have returned without sending, and otherwise returns the first block sent |
| Emission.IssuedThrough | src/protocol.rs:103-121 | the epoch loop is the block-by-block sum of rewards for every schedule and height, and at the last u64 a trap or zero |
| Emission.IssuedBounded | src/protocol.rs:93-100 | no schedule ever issues more than twice its initial reward times its interval |
| Emission.DefaultSupply | src/protocol.rs:136-145 | the default schedule stays below its maximum at every height and is constant, at a stated value, from its final block on |
| Compact.RoundTrip | src/pow.rs:17-56 | decoding an encoded target rounds down by less than one part in 2^15, exactly below 2^23, and otherwise exactly when the bytes under the mantissa are zero |
| Compact.BestBelow | src/pow.rs:17-56 | no unsaturated compact value lies between that and the target |
| Compact.EncodeIdempotent | src/pow.rs:32-56 | encoding what was decoded from an encoding gives that encoding |
| Compact.EncodeMonotone | src/pow.rs:32-56 | larger targets have larger encodings as plain integers |
| Compact.NothingShiftedOut | src/pow.rs:17-30 | decoding an encoded target shifts no bit out of u128 |
| Compact.BitsFromTargetLoop | src/pow.rs:32-56 | the loop and the sign adjustment compute the specified encoding |
| Compact.HashValueAt | src/block.rs:115-116 | byte i of the number a hash is compared by is byte i of the digest, counted from its front, for the first sixteen |
| Compact.TargetExactly | src/pow.rs:17-30 | the target of any bits: the mantissa without its last bytes for exponents up to 3, moved up modulo 2^128 up to 18, and the largest target of all from 19 on, which includes the default bits |
| Compact.EncodingExactly | src/pow.rs:32-56 | the encoding of any positive target: an exponent from 1 to 17 and a mantissa from 0x8000 to 0x7fffff that is its leading bytes |
| Merkle.RootIsTree | src/block.rs:66-89 | the level-by-level root is the recursive tree in which a missing right subtree copies its left sibling |
| Merkle.EqualRoots | src/block.rs:66-89 | two different lists of one length with one root yield a collision of the pair hash |
| Merkle.RepeatedLast | src/block.rs:77-82 | an odd list and the list that repeats its last element share a root without any collision |
| Merkle.RepeatedTail | src/block.rs:77-82 | so does every list whose length is not a power of two with the list that repeats its tail, as long as the largest power of two in its length |
| Merkle.SameRootExactly | src/block.rs:66-89 | two lists whose trees have one depth share a root if and only if their leaves, copies included, are the same, or else they yield a collision of the pair hash |
| Merkle.CalculateMerkleRoot | src/block.rs:66-89 | the two nested loops end and compute the specified root |
| TxCodec.SerializeInjective | src/transaction.rs:102-122 | with all lengths below 2^32, two transactions have the same bytes exactly if they are equal |
| TxCodec.HeaderInjective | src/block.rs:126-136 | two headers have the same bytes exactly if they are equal |
| TxLayout.TransactionLayout | src/transaction.rs:47-64 | the bytes of any transaction, field by field with position, width and byte order, and their number, which is the estimated size |
| TxLayout.HeaderLayout | src/block.rs:126-136 | the 92 bytes of any header, field by field |
| TxCodec.EqualDigests | src/transaction.rs:43-60 | equal txids of different transactions, or equal hashes of different headers, are collisions of the byte hash |
| TxCodec.SerializeLoop | src/transaction.rs:47-60 | the loops that extend a buffer compute the specified bytes |
| Amounts.AmountRoundTrip | src/protocol.rs:147-207 | every u64 amount is read back from what is printed for it |
| Amounts.ParseMeaning | src/protocol.rs:161-207 | digits with up to eight decimals stand for exactly their value in units, or give the right range error |
| Amounts.FormatBecAmount | src/protocol.rs:147-159 | the loop that pops zeros prints the specified text |
| AmountRules.FormatExactly | src/protocol.rs:147-159 | the text is the whole coins without leading zeros and, if there is a rest, a point and one to eight digits that do not end in 0 and stand for it |
| AmountRules.ParseExactly | src/protocol.rs:161-207 | what comes of every text, blanks around it ignored: empty, a leading minus and a second point are refused; otherwise an empty whole part counts as zero, a plus is allowed, and bad digits, more than eight decimals and too large values get their errors in the order of the program |
| AmountRules.TrimExactly | src/protocol.rs:162-162 | blanks are taken off both ends, and nothing else |

## Left out

- Blockchain.Blockchain.AddBlock: requires that the call returns, that is, that the walk back from a block that passes the checks ends; the program does not return where stored blocks form a cycle of parents.
- Supply.SupplyBound: the bound is conditional on an exact best chain that is as long as its height says; `Supply.ScheduleBoundsExactly` shows that the condition is exact, `Conservation.UncheckedSpendBlock` and `Unrooted.HeightsRestart` that it can fail.
- Runs.AcceptedReplay: about rooted runs; in others a block of height 0 can come to have a path that replays without having been accepted.
- PoolRuns.PoolOverRuns: what a template does with pending transactions whose inputs are gone is not modelled further; after a switch of branches the program cleans the pool against the new tip's transactions only.
- Templates.TemplateAccepted: the coinbase has to be in the universe of transactions with different txids, as an equal txid would overwrite another transaction's output; the height has to be below the last u64.
- Sync.RoundReaches: both nodes are in states that rooted runs leave; the sender answers in full; an answer cut short by a keepalive ping is covered by `Sync.ImportsAll`, a lost connection is the end of the messages, and framing and sockets are not modelled.
- Mining.MiningRun: stopping is permanent, a panic of a worker and the yield every 4,096 hashes are not modelled, and nothing is said about time or termination.
- History.HistoryAndLedger: records have no counterparty text, which is for display.
- Emission.IssuedThrough: asks for a positive interval and at most 64 halvings, since the program divides by the one and shifts by the other.
- Lock interleavings inside one node call: `submit_transaction` drops one lock before it takes the next, and is one step here.
- The hash, the curve and address encodings: uninterpreted functions, with no claim about them beyond what a theorem assumes.
- Retargeting (`next_work_bits`, `apply_tx_pressure`): floating-point arithmetic whose result block validation never looks at; the bits of a template are a parameter.
- Cumulative work, signatures and block size limits of docs/design.md: the program does not implement them.
- Disk state, wallet files, encryption, the user interface, RPC and network plumbing: input and output only; an error in saving the state after a successful call is not modelled.
- The peer table (`upsert_peer`, `remove_peer`, `note_peer_activity`, `sync_node_peer_manager`): map updates that would only add easy members.
- `estimate_fee_for_rate`: four capped iterations without a guarantee to settle.
- `fund_address_for_testing` and `reset_to_genesis`: test and reset hooks; bootstrap outputs are fixed at the start.
- `src/privacy.rs` and `required_supermajority`: would only add easy members.
