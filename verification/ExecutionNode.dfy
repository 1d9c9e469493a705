/** A node that mines its own blocks: every block it stores replays on the state stored with its parent. */
module ExecutionNode {
  import opened Bytes
  import opened World
  import opened StateDb
  import opened Evm
  import opened Transactions
  import opened Transition
  import opened Blocks
  import opened Mining
  import opened TxPool
  import opened BlockAccess
  import opened ChainIndex

  datatype MineResult = Raised | NothingToMine | Mined(record: BlockRecord)

  /** The block `child` with post-state `after` is what independent execution makes of it on `before`, plus the reward. */
  ghost predicate Replayable(
    c: Commitments, x: Externals, config: ChainConfig, parent: Header, before: State, child: Block, after: State, reward: int)
    requires config.Valid()
  {
    && NoPendingClears(after)
    && child.header.number == parent.number + 1
    && match Blocks.ApplyBlock(c, x, before, child, config, Some(parent))
       case Reject(_) => false
       case Accept(r) =>
         && after == Rewarded(r.state, child.header.coinbase, reward)
         && r.gasUsed == child.header.gasUsed && Receipts(r.results) == child.receipts
         && (reward == 0 ==> ValidStructure(c, child, Some(parent), config, r.gasUsed, r.stateRoot))
  }

  /** What the node knows about one stored block: its post-state and the reward it was mined with. */
  datatype Fact = Fact(state: State, reward: int)

  /** Every block up to the last one is stored, with a state object that has the value known for it. */
  ghost predicate Intact(blocks: ByNumber, facts: seq<Fact>, states: set<object>)
    reads states
  {
    && (forall n: nat :: n in blocks <==> n < |facts|)
    && forall n: nat :: n in blocks ==>
         && blocks[n].postState in states && blocks[n].postState.Repr <= states
         && blocks[n].postState.Valid() && blocks[n].postState.Value == facts[n].state
  }

  /** From a clean first state on, every block replays on the one before. */
  ghost predicate Chained(c: Commitments, x: Externals, config: ChainConfig, blocks: ByNumber, facts: seq<Fact>)
    requires config.Valid()
  {
    && facts != []
    && (NoPendingClears(facts[0].state) ==> forall n: nat :: 0 < n < |facts| ==> StepOk(c, x, config, blocks, facts, n))
  }

  ghost predicate StepOk(
    c: Commitments, x: Externals, config: ChainConfig, blocks: ByNumber, facts: seq<Fact>, n: nat)
    requires config.Valid() && 0 < n < |facts|
  {
    && n - 1 in blocks && n in blocks
    && Replayable(c, x, config, blocks[n - 1].block.header, facts[n - 1].state, blocks[n].block, facts[n].state,
                  facts[n].reward)
  }

  lemma Numbers(blocks: ByNumber, facts: seq<Fact>, states: set<object>)
    requires Intact(blocks, facts, states)
    ensures forall n: nat :: n in blocks <==> n < |facts|
  {
    hide StateDB.Valid;
  }

  lemma NumberIn(c: Commitments, hash: Transaction -> Digest, blocks: ByNumber, byHash: ByHash, byTx: Records, n: nat)
    requires Indexed(c, hash, blocks, byHash, byTx) && n in blocks
    ensures blocks[n].block.header.number == n
  {
  }

  lemma GenesisIsValid(
    c: Commitments, x: Externals, config: ChainConfig, hash: Transaction -> Digest, record: BlockRecord, fact: Fact)
    requires config.Valid() && record.postState.Valid() && fact.state == record.postState.Value
    requires record.block.header.number == 0 && Described(c, record) && record.records == []
    ensures Intact(map[0 := record], [fact], record.postState.Repr)
    ensures Chained(c, x, config, map[0 := record], [fact])
    ensures Indexed(c, hash, map[0 := record], map[HashOf(c, record) := record], map[])
  {
    hide Represents, NoPendingClears;
  }

  lemma IntactSnoc(blocks: ByNumber, facts: seq<Fact>, states: set<object>, record: BlockRecord, reward: int)
    requires Intact(blocks, facts, states) && record.postState.Valid()
    ensures Intact(blocks[|facts| := record], facts + [Fact(record.postState.Value, reward)],
                   states + record.postState.Repr)
  {
    hide Represents;
  }

  /** Clean states stay clean along the chain, and so the next block may be asked to replay only if the last is clean. */
  lemma ChainedSnoc(
    c: Commitments, x: Externals, config: ChainConfig, blocks: ByNumber, facts: seq<Fact>, record: BlockRecord, fact: Fact)
    requires config.Valid() && Chained(c, x, config, blocks, facts) && |facts| - 1 in blocks
    requires var last := |facts| - 1; NoPendingClears(facts[last].state) ==>
      Replayable(c, x, config, blocks[last].block.header, facts[last].state, record.block, fact.state, fact.reward)
    ensures Chained(c, x, config, blocks[|facts| := record], facts + [fact])
  {
    hide Replayable, NoPendingClears;
    var blocks', facts' := blocks[|facts| := record], facts + [fact];
    if NoPendingClears(facts[0].state) {
      LastIsClean(c, x, config, blocks, facts);
      forall n: nat | 0 < n < |facts'|
        ensures StepOk(c, x, config, blocks', facts', n)
      {
        if n < |facts| {
          assert StepOk(c, x, config, blocks, facts, n);
        }
      }
    }
  }

  lemma LastIsClean(c: Commitments, x: Externals, config: ChainConfig, blocks: ByNumber, facts: seq<Fact>)
    requires config.Valid() && Chained(c, x, config, blocks, facts) && NoPendingClears(facts[0].state)
    ensures NoPendingClears(facts[|facts| - 1].state)
  {
    hide NoPendingClears;
    if |facts| > 1 {
      assert StepOk(c, x, config, blocks, facts, |facts| - 1);
    }
  }

  lemma PreviewReplayable(
    c: Commitments, x: Externals, parent: Header, w: State, pool: seq<Pending>, limits: Limits, request: MiningRequest,
    config: ChainConfig)
    requires config.Valid() && NoPendingClears(w)
    ensures match BuildPreview(c, x, parent, w, pool, limits, request, config)
      case None => true
      case Some(p) => Replayable(c, x, config, parent, w, p.block, p.state, request.reward)
  {
    hide Select, ApplyAll, Total, RunningTotals, GasTotal, ExpectedBaseFee, ValidAgainstParent, NoPendingClears;
    MinedBlockReplays(c, x, parent, w, pool, limits, request, config);
    var pending := PendingEnv(c, parent, w, request, config);
    if BuildPreview(c, x, parent, w, pool, limits, request, config).Some? {
      SelectReplays(x, w, pool, limits, pending.value, config);
      var s := Select(x, w, pool, limits, pending.value, config);
      RewardClears(s.progress.state, pending.value.coinbase, request.reward);
    }
  }

  lemma RewardClears(w: State, coinbase: Address, reward: int)
    requires NoPendingClears(w)
    ensures NoPendingClears(Rewarded(w, coinbase, reward))
  {
  }

  /** Builds the preview over a copy of the parent's post-state, which is not changed. */
  method PreviewOn(
    c: Commitments, x: Externals, parent: Header, parentState: StateDB, pool: seq<Pending>, limits: Limits,
    request: MiningRequest, config: ChainConfig)
    returns (r: Option<Preview>, state: StateDB)
    requires parentState.Valid() && config.Valid()
    ensures r == BuildPreview(c, x, parent, parentState.Value, pool, limits, request, config)
    ensures r.Some? ==> state.Valid() && fresh(state.Repr) && state.Value == r.value.state
  {
    hide Represents, Select, BuildBlock, AddBalance;
    if request.reward < 0 || |request.extraData| > MAX_EXTRA_DATA_BYTES {
      return None, parentState;
    }
    var value := parentState.View();
    var pending := PendingEnv(c, parent, value, request, config);
    if pending.None? {
      return None, parentState;
    }
    var env := pending.value;
    state := parentState.Clone();
    var included, results, gas := SelectTransactions(state, x, pool, limits, env, config);
    if request.reward != 0 {
      state.AddBalance(env.coinbase, request.reward);
    }
    var after := state.View();
    var block := BuildBlock(c, Some(parent), TransactionsOf(included), Receipts(results), gas, c.stateRoot(after),
                            Request(env.timestamp, env.gasLimit, env.coinbase, request.extraData), config);
    if block.None? {
      return None, parentState;
    }
    return Some(Preview(block.value, after, results, included, env)), state;
  }

  class Node {
    const c: Commitments
    const x: Externals
    const config: ChainConfig
    const pool: Pool
    var blocks: ByNumber
    var blocksByHash: ByHash
    var transactionsByHash: Records
    ghost var height: nat
    ghost var Facts: seq<Fact>
    ghost var States: set<object>

    /** Blocks are numbered without gaps and indexed, their states are intact, and each one replays on the one before. */
    ghost predicate Valid()
      reads this, pool, States
    {
      && config.Valid() && pool.Valid() && this !in States && pool !in States
      && |Facts| == height + 1
      && Intact(blocks, Facts, States)
      && Chained(c, x, config, blocks, Facts)
      && Indexed(c, pool.hash, blocks, blocksByHash, transactionsByHash)
    }

    constructor (c: Commitments, x: Externals, config: ChainConfig, pool: Pool, genesis: Block, state: StateDB)
      requires config.Valid() && pool.Valid() && state.Valid() && pool !in state.Repr
      requires genesis.header.number == 0 && genesis.transactions == [] && genesis.receipts == []
      ensures Valid() && this.c == c && this.x == x && this.config == config && this.pool == pool
      ensures height == 0 && Facts == [Fact(state.Value, 0)] && blocks == map[0 := BlockRecord(genesis, state, [])]
      ensures States == state.Repr
    {
      this.c, this.x, this.config, this.pool := c, x, config, pool;
      hide Represents, Pool.Valid, NoPendingClears, Intact, Chained, Indexed;
      var record := BlockRecord(genesis, state, []);
      GenesisIsValid(c, x, config, pool.hash, record, Fact(state.Value, 0));
      blocks := map[0 := record];
      blocksByHash := map[HashOf(c, record) := record];
      transactionsByHash := map[];
      height := 0;
      Facts := [Fact(state.Value, 0)];
      States := state.Repr;
    }

    /** The record with the largest number. */
    method Head() returns (record: BlockRecord)
      requires Valid()
      ensures height in blocks && record == blocks[height]
    {
      hide Intact, Chained, Indexed, Pool.Valid, StateDB.Valid;
      Numbers(blocks, Facts, States);
      assert height in blocks;
      var n: nat :| n in blocks && forall m: nat :: m in blocks ==> m <= n;
      record := blocks[n];
    }

    /** Files a block under its number and its hash, and its transactions under theirs. */
    method Store(record: BlockRecord, ghost reward: int)
      requires Valid() && record.postState.Valid() && {this, pool} !! record.postState.Repr
      requires record.block.header.number == height + 1 && Described(c, record)
      requires height in blocks && (NoPendingClears(Facts[height].state) ==>
        Replayable(c, x, config, blocks[height].block.header, Facts[height].state, record.block, record.postState.Value, reward))
      modifies this
      ensures Valid() && height == old(height) + 1
      ensures blocks == old(blocks)[height := record] && Facts == old(Facts) + [Fact(record.postState.Value, reward)]
      ensures States == old(States) + record.postState.Repr
      ensures blocksByHash == old(blocksByHash)[HashOf(c, record) := record]
      ensures transactionsByHash == WithRecords(pool.hash, old(transactionsByHash), record.records)
    {
      hide Represents, Replayable, NoPendingClears, InStep, Indexed, Described, HashOf, WithRecords, Intact, Chained;
      hide Pool.Valid, StateDB.Valid;
      Numbers(blocks, Facts, States);
      FilingKeeps(c, pool.hash, blocks, blocksByHash, transactionsByHash, record);
      IntactSnoc(blocks, Facts, States, record, reward);
      ChainedSnoc(c, x, config, blocks, Facts, record, Fact(record.postState.Value, reward));
      FileTransactions(record.records);
      blocks := blocks[record.block.header.number := record];
      blocksByHash := blocksByHash[HashOf(c, record) := record];
      height := height + 1;
      Facts := Facts + [Fact(record.postState.Value, reward)];
      States := States + record.postState.Repr;
    }

    method FileTransactions(records: seq<TransactionRecord>)
      modifies this`transactionsByHash
      ensures transactionsByHash == WithRecords(pool.hash, old(transactionsByHash), records)
    {
      for i := 0 to |records|
        invariant transactionsByHash == WithRecords(pool.hash, old(transactionsByHash), records[..i])
      {
        transactionsByHash := transactionsByHash[pool.hash(records[i].transaction) := records[i]];
        assert records[..i + 1][..i] == records[..i];
      }
      assert records[..|records|] == records;
    }

    /** Finds a stored block under its hash, and nothing else. */
    method BlockByHash(d: Digest) returns (r: Option<BlockRecord>)
      requires Valid()
      ensures r.Some? <==> exists n: nat :: n in blocks && HashOf(c, blocks[n]) == d
      ensures r.Some? ==> HashOf(c, r.value) == d && ChainIndex.Stored(blocks, r.value)
    {
      hide HashOf, Described, Represents, Replayable, NoPendingClears;
      r := if d in blocksByHash then Some(blocksByHash[d]) else None;
    }

    /** Finds a transaction of a stored block, with its place, receipt and logs there; `None` only if no block holds it. */
    method TransactionByHash(h: Digest) returns (r: Option<TransactionRecord>)
      requires Valid()
      ensures r.Some? ==> pool.hash(r.value.transaction) == h && Finds(c, blocks, r.value)
      ensures r.None? ==> forall n: nat :: n in blocks ==> h !in Hashes(pool.hash, blocks[n].block.transactions)
    {
      hide Indexed, Finds, Represents, Replayable, NoPendingClears;
      LookupFinds(c, pool.hash, blocks, blocksByHash, transactionsByHash, h);
      r := if h in transactionsByHash then Some(transactionsByHash[h]) else None;
    }

    /** The block the node would mine now, over a fresh copy of the head state. */
    method BuildPendingPreview(limits: Limits, request: MiningRequest)
      returns (r: Option<Preview>, state: StateDB, ghost order: seq<Pending>)
      requires Valid()
      ensures height in blocks && Listing(order)
      ensures r == BuildPreview(c, x, blocks[height].block.header, Facts[height].state, order, limits, request, config)
      ensures r.Some? ==> state.Valid() && fresh(state.Repr) && state.Value == r.value.state
    {
      hide Represents, Replayable, Chained, Indexed;
      var head := Head();
      var candidates := pool.Ordered();
      r, state := PreviewOn(c, x, head.block.header, head.postState, candidates, limits, request, config);
      order := candidates;
    }

    /** Mines a block from the pool on top of the head. Raising, or finding nothing to mine, changes nothing. */
    method MineBlock(maxTransactions: Option<int>, request: MiningRequest, allowEmpty: bool)
      returns (r: MineResult, ghost order: seq<Pending>)
      requires Valid()
      modifies this, pool
      ensures Valid() && old(Listing(order)) && old(height) in old(blocks)
      ensures match BuildPreview(c, x, old(blocks[height]).block.header, old(Facts[height]).state, order,
                                 Limits(maxTransactions, _ => false), request, config)
        case None => r == Raised && Unchanged(old(blocks), old(transactionsByHash), old(Facts), old(pool.byHash))
        case Some(p) =>
          if p.included == [] && !allowEmpty && request.reward == 0
          then r == NothingToMine && Unchanged(old(blocks), old(transactionsByHash), old(Facts), old(pool.byHash))
          else
            && r.Mined? && r.record.block == p.block && blocks == old(blocks)[old(height) + 1 := r.record]
            && transactionsByHash == WithRecords(pool.hash, old(transactionsByHash), r.record.records)
            && Facts == old(Facts) + [Fact(p.state, request.reward)]
            && pool.byHash == old(pool.byHash) - Hashes(pool.hash, TransactionsOf(p.included))
    {
      hide Represents, Replayable, BuildPreview, Pool.Valid, InStep, NoPendingClears, Intact, Chained, Indexed;
      var limits := Limits(maxTransactions, _ => false);
      var preview, state;
      preview, state, order := BuildPendingPreview(limits, request);
      if preview.None? {
        return Raised, order;
      }
      var p := preview.value;
      if p.included == [] && !allowEmpty && request.reward == 0 {
        return NothingToMine, order;
      }
      var record := Seal(p, state, order, limits, request);
      return Mined(record), order;
    }

    /** Stores the preview's block with a copy of its state, and takes its transactions out of the pool. */
    method Seal(p: Preview, state: StateDB, ghost order: seq<Pending>, ghost limits: Limits, request: MiningRequest)
      returns (record: BlockRecord)
      requires Valid() && height in blocks && state.Valid() && state.Value == p.state
      requires BuildPreview(c, x, blocks[height].block.header, Facts[height].state, order, limits, request, config) == Some(p)
      modifies this, pool
      ensures Valid() && record.block == p.block && blocks == old(blocks)[old(height) + 1 := record]
      ensures transactionsByHash == WithRecords(pool.hash, old(transactionsByHash), record.records)
      ensures Facts == old(Facts) + [Fact(p.state, request.reward)]
      ensures pool.byHash == old(pool.byHash) - Hashes(pool.hash, TransactionsOf(p.included))
    {
      hide Represents, Replayable, BuildPreview, InStep, NoPendingClears, Intact, Chained, Indexed, WithRecords, Describes, Receipts;
      hide StateDB.Valid;
      ghost var parent, before := blocks[height].block.header, Facts[height].state;
      NumberIn(c, pool.hash, blocks, blocksByHash, transactionsByHash, height);
      PreviewNames(c, x, parent, before, order, limits, request, config);
      if NoPendingClears(before) {
        PreviewReplayable(c, x, parent, before, order, limits, request, config);
      }
      var stored := state.Clone();
      var records := RecordsFor(p, c.headerHash(p.block.header));
      record := BlockRecord(p.block, stored, records);
      Store(record, request.reward);
      pool.ClearIncluded(TransactionsOf(p.included));
    }

    ghost predicate Unchanged(blocks: ByNumber, records: Records, facts: seq<Fact>, entries: Index)
      reads this, pool
    {
      this.blocks == blocks && transactionsByHash == records && Facts == facts && pool.byHash == entries
    }

    /** `order` lists the pool by insertion number. */
    ghost predicate Listing(order: seq<Pending>)
      reads pool
    {
      InOrder(order) && forall p :: p in order <==>
        pool.hash(p.transaction) in pool.byHash && pool.byHash[pool.hash(p.transaction)] == p
    }
  }
}
