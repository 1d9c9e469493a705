/** Choosing transactions for the next block, and why the chosen block replays. */
module Mining {
  import opened Arithmetic
  import opened Bytes
  import opened Gas
  import opened World
  import opened Evm
  import opened Transactions
  import opened Transition
  import opened Blocks

  datatype Pending = Pending(transaction: Transaction, sender: Address, insertionId: nat)

  /** The limits a caller may set: a number of transactions, and transactions to pass over. */
  datatype Limits = Limits(maxTransactions: Option<int>, exclude: Pending -> bool)

  /** The transactions included so far and what executing them has produced. */
  datatype Selection = Selection(included: seq<Pending>, progress: Progress)

  predicate Full(s: Selection, limits: Limits) {
    limits.maxTransactions.Some? && |s.included| >= limits.maxTransactions.value
  }

  /** A transaction that is excluded, comes too late, does not fit or fails is passed over. */
  function Consider(
    x: Externals, s: Selection, p: Pending, limits: Limits, env: BlockEnv, config: ChainConfig): Selection
    requires config.Valid()
  {
    var used := Total(s.progress.results, GasOf);
    if limits.exclude(p) || Full(s, limits) || p.transaction.GasLimit() > env.gasLimit - used then s
    else
      match ApplyTransaction(x, s.progress.state, p.transaction, env, config, used)
      case Reject(_) => s
      case Accept((r, w)) => Selection(s.included + [p], Progress(s.progress.results + [r], w))
  }

  function Select(
    x: Externals, w: State, pool: seq<Pending>, limits: Limits, env: BlockEnv, config: ChainConfig): Selection
    requires config.Valid()
  {
    if pool == [] then Selection([], Progress([], w))
    else
      Consider(x, Select(x, w, pool[..|pool| - 1], limits, env, config), pool[|pool| - 1], limits, env, config)
  }

  function TransactionsOf(included: seq<Pending>): (txs: seq<Transaction>)
    ensures |txs| == |included| && forall i :: 0 <= i < |txs| ==> txs[i] == included[i].transaction
  {
    seq(|included|, i requires 0 <= i < |included| => included[i].transaction)
  }

  /** What the node asks of the next block. */
  datatype MiningRequest = MiningRequest(beneficiary: Address, reward: int, extraData: seq<Byte>, now: nat)

  datatype Preview = Preview(
    block: Block, state: State, results: seq<TransactionResult>, included: seq<Pending>, env: BlockEnv)

  function NextTimestamp(now: nat, parent: nat): nat {
    if now < parent + 1 then parent + 1 else now
  }

  /** The environment of the next block, read off an empty block built on the parent. */
  function PendingEnv(
    c: Commitments, parent: Header, w: State, request: MiningRequest, config: ChainConfig): Option<BlockEnv>
    requires config.Valid()
  {
    var block := BuildBlock(c, Some(parent), [], [], 0, c.stateRoot(w),
                            Request(NextTimestamp(request.now, parent.timestamp), parent.gasLimit, request.beneficiary,
                                    request.extraData), config);
    if block.None? then None else Some(EnvOf(block.value.header, config))
  }

  function Rewarded(w: State, coinbase: Address, reward: int): State {
    if reward == 0 then w else AddBalance(w, coinbase, reward)
  }

  /** `None` when building the preview raises. */
  function BuildPreview(
    c: Commitments, x: Externals, parent: Header, w: State, pool: seq<Pending>, limits: Limits, request: MiningRequest,
    config: ChainConfig): Option<Preview>
    requires config.Valid()
  {
    if request.reward < 0 || |request.extraData| > MAX_EXTRA_DATA_BYTES then None
    else
      var pending := PendingEnv(c, parent, w, request, config);
      if pending.None? then None
      else
        var env := pending.value;
        var s := Select(x, w, pool, limits, env, config);
        FinishPreview(c, parent, s, env, request, config)
  }

  /** Pays the reward and seals the selection into a block. */
  function FinishPreview(
    c: Commitments, parent: Header, s: Selection, env: BlockEnv, request: MiningRequest, config: ChainConfig)
    : Option<Preview>
    requires config.Valid()
  {
    var state := Rewarded(s.progress.state, env.coinbase, request.reward);
    var results := s.progress.results;
    var block := BuildBlock(c, Some(parent), TransactionsOf(s.included), Receipts(results), Total(results, GasOf),
                            c.stateRoot(state),
                            Request(env.timestamp, env.gasLimit, env.coinbase, request.extraData), config);
    if block.None? then None else Some(Preview(block.value, state, results, s.included, env))
  }

  // ---------------------------------------------------------------------------------------------
  // Replay
  // ---------------------------------------------------------------------------------------------

  /** The selection is exactly what executing the included transactions alone gives. */
  ghost predicate Replays(x: Externals, w: State, s: Selection, env: BlockEnv, config: ChainConfig)
    requires config.Valid()
  {
    && ApplyAll(x, w, TransactionsOf(s.included), env, config) == Accept(s.progress)
    && |s.included| == |s.progress.results|
    && forall i :: 0 <= i < |s.included| ==> s.included[i].transaction.GasLimit() <= env.gasLimit
  }

  lemma ConsiderReplays(
    x: Externals, w: State, s: Selection, p: Pending, limits: Limits, env: BlockEnv, config: ChainConfig)
    requires config.Valid() && GasBooks(s.progress, env) && Replays(x, w, s, env, config)
    ensures var t := Consider(x, s, p, limits, env, config);
      GasBooks(t.progress, env) && Replays(x, w, t, env, config)
  {
    hide ApplyTransaction, NoPendingClears, RunningTotals, GasTotal, ApplyNext, Total;
    var used := Total(s.progress.results, GasOf);
    if !(limits.exclude(p) || Full(s, limits) || p.transaction.GasLimit() > env.gasLimit - used) {
      NextGasBooks(x, s.progress, p.transaction, env, config);
      match ApplyTransaction(x, s.progress.state, p.transaction, env, config, used)
      case Reject(_) =>
      case Accept((r, w1)) =>
        var txs := TransactionsOf(s.included + [p]);
        assert txs[..|txs| - 1] == TransactionsOf(s.included);
    }
  }

  lemma {:induction false} SelectReplays(
    x: Externals, w: State, pool: seq<Pending>, limits: Limits, env: BlockEnv, config: ChainConfig)
    requires config.Valid() && NoPendingClears(w)
    ensures var s := Select(x, w, pool, limits, env, config);
      GasBooks(s.progress, env) && Replays(x, w, s, env, config)
  {
    hide Consider, NoPendingClears;
    if pool != [] {
      hide Replays, GasBooks;
      var front := pool[..|pool| - 1];
      SelectReplays(x, w, front, limits, env, config);
      ConsiderReplays(x, w, Select(x, w, front, limits, env, config), pool[|pool| - 1], limits, env, config);
    }
  }

  // ---------------------------------------------------------------------------------------------
  // What is included
  // ---------------------------------------------------------------------------------------------

  /** The entries of a pool with a mark, in the order of the pool. */
  function Marked(pool: seq<Pending>, marks: seq<bool>): seq<Pending>
    requires |marks| == |pool|
  {
    if pool == [] then []
    else
      var last := |pool| - 1;
      Marked(pool[..last], marks[..last]) + if marks[last] then [pool[last]] else []
  }

  /** An entry can be included behind others: it is not excluded, the maximum is not reached, its gas limit fits what they
      leave of the block, and it can be applied to the state they lead to. */
  ghost predicate CanFollow(
    x: Externals, w: State, before: seq<Pending>, p: Pending, limits: Limits, env: BlockEnv, config: ChainConfig)
    requires config.Valid()
  {
    && !limits.exclude(p)
    && (limits.maxTransactions.Some? ==> |before| < limits.maxTransactions.value)
    && match ApplyAll(x, w, TransactionsOf(before), env, config)
       case Reject(_) => false
       case Accept(done) =>
         var used := Total(done.results, GasOf);
         && used + p.transaction.GasLimit() <= env.gasLimit
         && ApplyTransaction(x, done.state, p.transaction, env, config, used).Accept?
  }

  /** Every entry is marked exactly if it can be included behind the marked ones that come before it. */
  ghost predicate Greedy(
    x: Externals, w: State, pool: seq<Pending>, marks: seq<bool>, limits: Limits, env: BlockEnv, config: ChainConfig)
    requires config.Valid()
  {
    && |marks| == |pool|
    && forall i :: 0 <= i < |pool| ==>
         (marks[i] <==> CanFollow(x, w, Marked(pool[..i], marks[..i]), pool[i], limits, env, config))
  }

  lemma GreedySnoc(
    x: Externals, w: State, pool: seq<Pending>, marks: seq<bool>, p: Pending, mark: bool, limits: Limits, env: BlockEnv,
    config: ChainConfig)
    requires config.Valid() && Greedy(x, w, pool, marks, limits, env, config)
    requires mark <==> CanFollow(x, w, Marked(pool, marks), p, limits, env, config)
    ensures Greedy(x, w, pool + [p], marks + [mark], limits, env, config)
    ensures Marked(pool + [p], marks + [mark]) == Marked(pool, marks) + if mark then [p] else []
  {
    hide CanFollow;
    var pool', marks' := pool + [p], marks + [mark];
    forall i | 0 <= i < |pool'|
      ensures marks'[i] <==> CanFollow(x, w, Marked(pool'[..i], marks'[..i]), pool'[i], limits, env, config)
    {
      assert pool'[..i] == pool[..i] && marks'[..i] == marks[..i];
      assert pool[..|pool|] == pool && marks[..|marks|] == marks;
    }
    assert pool'[..|pool|] == pool && marks'[..|pool|] == marks;
  }

  /** The miner includes every entry of the pool that it can, in the order of the pool, and no other. */
  lemma {:induction false} SelectionIsGreedy(
    x: Externals, w: State, pool: seq<Pending>, limits: Limits, env: BlockEnv, config: ChainConfig)
    returns (marks: seq<bool>)
    requires config.Valid() && NoPendingClears(w)
    ensures Greedy(x, w, pool, marks, limits, env, config)
    ensures Select(x, w, pool, limits, env, config).included == Marked(pool, marks)
  {
    hide CanFollow, Consider, NoPendingClears;
    if pool == [] {
      marks := [];
    } else {
      var last := |pool| - 1;
      marks := SelectionIsGreedy(x, w, pool[..last], limits, env, config);
      var s := Select(x, w, pool[..last], limits, env, config);
      SelectReplays(x, w, pool[..last], limits, env, config);
      var mark := OneIsGreedy(x, w, s, pool[last], limits, env, config);
      assert pool == pool[..last] + [pool[last]];
      GreedySnoc(x, w, pool[..last], marks, pool[last], mark, limits, env, config);
      marks := marks + [mark];
    }
  }

  lemma OneIsGreedy(
    x: Externals, w: State, s: Selection, p: Pending, limits: Limits, env: BlockEnv, config: ChainConfig)
    returns (mark: bool)
    requires config.Valid() && Replays(x, w, s, env, config)
    ensures mark <==> CanFollow(x, w, s.included, p, limits, env, config)
    ensures Consider(x, s, p, limits, env, config).included == s.included + if mark then [p] else []
  {
    hide ApplyTransaction, Total, ApplyAll;
    mark := CanFollow(x, w, s.included, p, limits, env, config);
    assert s.included + [] == s.included;
  }

  /** There is only one such choice. */
  lemma {:induction false} GreedyIsUnique(
    x: Externals, w: State, pool: seq<Pending>, marks: seq<bool>, marks': seq<bool>, limits: Limits, env: BlockEnv,
    config: ChainConfig, n: nat)
    requires config.Valid() && n <= |pool|
    requires Greedy(x, w, pool, marks, limits, env, config) && Greedy(x, w, pool, marks', limits, env, config)
    ensures marks[..n] == marks'[..n]
  {
    hide CanFollow;
    if n > 0 {
      GreedyIsUnique(x, w, pool, marks, marks', limits, env, config, n - 1);
      assert marks[n - 1] == marks'[n - 1];
      assert marks[..n] == marks[..n - 1] + [marks[n - 1]] && marks'[..n] == marks'[..n - 1] + [marks'[n - 1]];
    }
  }

  /** What the block built on the selection says, field by field. */
  lemma PreviewMeaning(
    c: Commitments, x: Externals, parent: Header, w: State, pool: seq<Pending>, limits: Limits, request: MiningRequest,
    config: ChainConfig)
    requires config.Valid()
    ensures var r := BuildPreview(c, x, parent, w, pool, limits, request, config);
      r.Some? ==>
        var h, s := r.value.block.header, Select(x, w, pool, limits, r.value.env, config);
        && r.value.included == s.included && r.value.results == s.progress.results
        && r.value.block.transactions == TransactionsOf(s.included) && r.value.block.receipts == Receipts(s.progress.results)
        && h.parentHash == c.headerHash(parent) && h.number == parent.number + 1 && h.gasLimit == parent.gasLimit
        && h.timestamp == Max(request.now, parent.timestamp + 1)
        && h.coinbase == request.beneficiary && h.extraData == request.extraData
        && h.gasUsed == Total(s.progress.results, GasOf) && h.stateRoot == c.stateRoot(r.value.state)
        && h.baseFee == (if config.feeModel == Eip1559Fees then ExpectedBaseFee(Some(parent), config) else None)
        && r.value.env == BlockEnv(h.number, h.timestamp, h.gasLimit, h.coinbase, h.baseFee, config.chainId)
        && r.value.state
           == if request.reward == 0 then s.progress.state
              else AddBalance(s.progress.state, request.beneficiary, request.reward)
  {
    hide Select, ExpectedBaseFee, ValidStructure, Total, AddBalance;
  }

  /** What the independent executor finds when it is handed the preview's block. */
  ghost predicate Agrees(c: Commitments, p: Preview, r: BlockResult, parent: Header, request: MiningRequest, config: ChainConfig)
    requires config.Valid()
  {
    && p.state == Rewarded(r.state, p.env.coinbase, request.reward)
    && r.results == p.results && Receipts(r.results) == p.block.receipts
    && p.block.transactions == TransactionsOf(p.included)
    && r.gasUsed == p.block.header.gasUsed && r.transactionsRoot == p.block.header.transactionsRoot
    && r.receiptsRoot == p.block.header.receiptsRoot && r.bloom == p.block.header.logsBloom
    && (request.reward == 0 ==>
          r.state == p.state && ValidStructure(c, p.block, Some(parent), config, r.gasUsed, r.stateRoot))
  }

  /** Whatever the pool holds and however many of its transactions were passed over, the executor accepts the block on the
      parent's post-state and reaches the same results, and without a block reward the same state. */
  lemma MinedBlockReplays(
    c: Commitments, x: Externals, parent: Header, w: State, pool: seq<Pending>, limits: Limits, request: MiningRequest,
    config: ChainConfig)
    requires config.Valid() && NoPendingClears(w)
    ensures match BuildPreview(c, x, parent, w, pool, limits, request, config)
      case None => true
      case Some(p) =>
        match ApplyBlock(c, x, w, p.block, config, Some(parent))
        case Reject(_) => false
        case Accept(r) => Agrees(c, p, r, parent, request, config)
  {
    hide Select, NoPendingClears, ApplyAll, Total, RunningTotals, GasTotal, ExpectedBaseFee, ValidAgainstParent;
    var pending := PendingEnv(c, parent, w, request, config);
    if BuildPreview(c, x, parent, w, pool, limits, request, config).Some? {
      SelectReplays(x, w, pool, limits, pending.value, config);
    }
  }

  lemma PositiveQuotient(a: nat, d: nat)
    requires d >= 1
    ensures a / d > 0 <==> a >= d
  {
    if a >= d {
      DivMonotone(d, a, d);
    }
  }

  /** Exactly when a preview can be built at all. */
  lemma PreviewExists(
    c: Commitments, x: Externals, parent: Header, w: State, pool: seq<Pending>, limits: Limits, request: MiningRequest,
    config: ChainConfig)
    requires config.Valid() && NoPendingClears(w)
    ensures BuildPreview(c, x, parent, w, pool, limits, request, config).Some? <==>
            && request.reward >= 0
            && |request.extraData| <= MAX_EXTRA_DATA_BYTES && |request.extraData| <= config.maxExtraDataBytes
            && (config.feeModel == LegacyFees || parent.gasLimit >= config.elasticityMultiplier)
  {
    hide Select, NoPendingClears, ApplyAll, Total;
    PositiveQuotient(parent.gasLimit, config.elasticityMultiplier);
    var pending := PendingEnv(c, parent, w, request, config);
    if pending.Some? {
      SelectReplays(x, w, pool, limits, pending.value, config);
    }
  }

  /** A block reward is not part of execution: the executor reaches the miner's state only if the reward is invisible. */
  lemma RewardIsNotReplayed(w: State, coinbase: Address, reward: nat)
    ensures Rewarded(w, coinbase, reward) == w <==> reward == 0 || (coinbase in w && reward % MODULUS == 0)
  {
    if reward != 0 && coinbase in w {
      WrapShift(w[coinbase].balance, reward);
      if reward % MODULUS == 0 {
        assert Rewarded(w, coinbase, reward) == w[coinbase := w[coinbase]];
      } else {
        assert Rewarded(w, coinbase, reward)[coinbase] != w[coinbase];
      }
    }
  }

  lemma WrapShift(balance: Word, reward: nat)
    ensures Wrap(balance + reward) == balance <==> reward % MODULUS == 0
  {
  }
}
