/** What a node keeps about its blocks: the records of their transactions, and the indexes by hash. */
module ChainIndex {
  import opened Bytes
  import opened Evm
  import opened Transactions
  import opened World
  import opened StateDb
  import opened Transition
  import opened Blocks
  import opened Mining
  import opened TxPool

  datatype TransactionRecord = TransactionRecord(
    transaction: Transaction, sender: Address, blockHash: Digest, number: nat, index: nat, receipt: Receipt,
    result: TransactionResult, logStart: nat)

  datatype BlockRecord = BlockRecord(block: Block, postState: StateDB, records: seq<TransactionRecord>)

  type ByNumber = map<nat, BlockRecord>
  type ByHash = map<Digest, BlockRecord>
  type Records = map<Digest, TransactionRecord>

  // ---------------------------------------------------------------------------------------------
  // The records of one block
  // ---------------------------------------------------------------------------------------------

  /** The logs of some receipts, one after the other. */
  function LogsOf(receipts: seq<Receipt>): seq<Log> {
    if receipts == [] then [] else LogsOf(receipts[..|receipts| - 1]) + receipts[|receipts| - 1].logs
  }

  ghost predicate Describes(records: seq<TransactionRecord>, block: Block, hash: Digest) {
    && |records| == |block.transactions| == |block.receipts|
    && forall i :: 0 <= i < |records| ==> DescribesAt(records[i], block, hash, i)
  }

  ghost predicate DescribesAt(t: TransactionRecord, block: Block, hash: Digest, i: nat)
    requires i < |block.transactions| && i < |block.receipts|
  {
    && t.transaction == block.transactions[i] && t.receipt == block.receipts[i] == t.result.receipt
    && t.blockHash == hash && t.number == block.header.number && t.index == i
    && t.logStart == |LogsOf(block.receipts[..i])|
  }

  /** A log's position in its block is the record's first log plus its position in the receipt. */
  lemma {:induction false} LogPosition(block: Block, hash: Digest, t: TransactionRecord, i: nat, j: nat)
    requires i < |block.transactions| && i < |block.receipts| && DescribesAt(t, block, hash, i) && j < |t.receipt.logs|
    ensures t.logStart + j < |LogsOf(block.receipts)| && LogsOf(block.receipts)[t.logStart + j] == t.receipt.logs[j]
  {
    LogsPrefix(block.receipts, i + 1);
    assert block.receipts[..i + 1][..i] == block.receipts[..i];
  }

  lemma {:induction false} LogsPrefix(receipts: seq<Receipt>, n: nat)
    requires n <= |receipts|
    ensures LogsOf(receipts[..n]) <= LogsOf(receipts)
    decreases |receipts|
  {
    if n == |receipts| {
      assert receipts[..n] == receipts;
    } else {
      var front := receipts[..|receipts| - 1];
      LogsPrefix(front, n);
      assert front[..n] == receipts[..n];
    }
  }

  /** The records of a mined block; the position of the first log goes up by what each receipt holds. */
  method RecordsFor(p: Preview, hash: Digest) returns (records: seq<TransactionRecord>)
    requires |p.block.transactions| == |p.results| && p.block.receipts == Receipts(p.results)
    requires forall i :: 0 <= i < |p.results| ==> p.results[i].receipt.transaction == p.block.transactions[i]
    ensures Describes(records, p.block, hash)
    ensures forall i :: 0 <= i < |records| ==> records[i].result == p.results[i] && records[i].sender == p.results[i].sender
  {
    records := [];
    var logs := 0;
    ghost var receipts := p.block.receipts;
    for i := 0 to |p.results|
      invariant |records| == i && logs == |LogsOf(receipts[..i])|
      invariant forall j :: 0 <= j < i ==>
        && DescribesAt(records[j], p.block, hash, j)
        && records[j].result == p.results[j] && records[j].sender == p.results[j].sender
    {
      var r := p.results[i];
      records := records + [TransactionRecord(r.receipt.transaction, r.sender, hash, p.block.header.number, i, r.receipt, r,
                                              logs)];
      logs := logs + |r.receipt.logs|;
      assert receipts[..i + 1][..i] == receipts[..i];
    }
  }

  // ---------------------------------------------------------------------------------------------
  // The indexes
  // ---------------------------------------------------------------------------------------------

  function WithRecords(hash: Transaction -> Digest, m: Records, records: seq<TransactionRecord>): (r: Records)
    ensures forall h :: h in r ==> (h in m && r[h] == m[h]) || (r[h] in records && hash(r[h].transaction) == h)
    ensures forall h :: h in m ==> h in r
    ensures forall t :: t in records ==> hash(t.transaction) in r
  {
    if records == [] then m
    else
      var front, last := records[..|records| - 1], records[|records| - 1];
      assert records == front + [last];
      WithRecords(hash, m, front)[hash(last.transaction) := last]
  }

  /** Every block and every transaction in one can be found under its hash, and nothing else can. */
  ghost predicate Indexed(c: Commitments, hash: Transaction -> Digest, blocks: ByNumber, byHash: ByHash, byTx: Records) {
    && (forall n :: n in blocks ==> blocks[n].block.header.number == n && Described(c, blocks[n]))
    && (forall n :: n in blocks ==> HashOf(c, blocks[n]) in byHash)
    && (forall d :: d in byHash ==> HashOf(c, byHash[d]) == d && Stored(blocks, byHash[d]))
    && (forall n, t :: n in blocks && t in blocks[n].records ==> hash(t.transaction) in byTx)
    && (forall h :: h in byTx ==> hash(byTx[h].transaction) == h && Places(blocks, byTx[h]))
  }

  ghost predicate Described(c: Commitments, record: BlockRecord) {
    Describes(record.records, record.block, HashOf(c, record))
  }

  function HashOf(c: Commitments, record: BlockRecord): Digest {
    c.headerHash(record.block.header)
  }

  ghost predicate Stored(blocks: ByNumber, record: BlockRecord) {
    record.block.header.number in blocks && blocks[record.block.header.number] == record
  }

  ghost predicate Places(blocks: ByNumber, t: TransactionRecord) {
    t.number in blocks && t.index < |blocks[t.number].records| && blocks[t.number].records[t.index] == t
  }

  /** Filing one more block under a new number keeps both indexes exact, whatever hashes collide. */
  lemma {:induction false} FilingKeeps(
    c: Commitments, hash: Transaction -> Digest, blocks: ByNumber, byHash: ByHash, byTx: Records, record: BlockRecord)
    requires Indexed(c, hash, blocks, byHash, byTx) && record.block.header.number !in blocks && Described(c, record)
    ensures Indexed(c, hash, blocks[record.block.header.number := record], byHash[HashOf(c, record) := record],
                    WithRecords(hash, byTx, record.records))
  {
    hide WithRecords, DescribesAt, Describes, HashOf;
    var n, after, d := record.block.header.number, WithRecords(hash, byTx, record.records), HashOf(c, record);
    var blocks', byHash' := blocks[n := record], byHash[d := record];
    forall h | h in after
      ensures hash(after[h].transaction) == h && Places(blocks', after[h])
    {
      if !(h in byTx && after[h] == byTx[h]) {
        RecordPlaces(c, record, after[h]);
      }
    }
  }

  lemma {:induction false} RecordPlaces(c: Commitments, record: BlockRecord, t: TransactionRecord)
    requires Described(c, record) && t in record.records
    ensures t.number == record.block.header.number && t.index < |record.records| && record.records[t.index] == t
  {
    hide LogsOf;
    var i :| 0 <= i < |record.records| && record.records[i] == t;
    assert DescribesAt(t, record.block, HashOf(c, record), i);
  }

  /** What a lookup by hash finds: the transaction itself, in the block that holds it, with its receipt and logs there. */
  ghost predicate Finds(c: Commitments, blocks: ByNumber, t: TransactionRecord) {
    && t.number in blocks
    && t.index < |blocks[t.number].block.transactions| && t.index < |blocks[t.number].block.receipts|
    && DescribesAt(t, blocks[t.number].block, HashOf(c, blocks[t.number]), t.index)
  }

  lemma {:induction false} LookupFinds(
    c: Commitments, hash: Transaction -> Digest, blocks: ByNumber, byHash: ByHash, byTx: Records, h: Digest)
    requires Indexed(c, hash, blocks, byHash, byTx)
    ensures h in byTx ==> hash(byTx[h].transaction) == h && Finds(c, blocks, byTx[h])
    ensures h !in byTx ==> forall n :: n in blocks ==> h !in Hashes(hash, blocks[n].block.transactions)
  {
    hide LogsOf, HashOf;
    if h in byTx {
      var t := byTx[h];
      assert Described(c, blocks[t.number]);
    } else {
      forall n | n in blocks
        ensures h !in Hashes(hash, blocks[n].block.transactions)
      {
        forall i | 0 <= i < |blocks[n].block.transactions|
          ensures hash(blocks[n].block.transactions[i]) != h
        {
          assert Described(c, blocks[n]) && DescribesAt(blocks[n].records[i], blocks[n].block, HashOf(c, blocks[n]), i);
          assert blocks[n].records[i] in blocks[n].records;
        }
      }
    }
  }

  // ---------------------------------------------------------------------------------------------
  // A preview names its transactions
  // ---------------------------------------------------------------------------------------------

  lemma ReceiptNames(x: Externals, w: State, tx: Transaction, env: BlockEnv, config: ChainConfig, cumulative: int)
    requires config.Valid()
    ensures var r := ApplyTransaction(x, w, tx, env, config, cumulative);
      r.Accept? ==> r.value.0.receipt.transaction == tx
  {
    hide Run, FullyValidate, Commit, SubtractBalance, Pay;
  }

  ghost predicate Names(s: Selection) {
    && |s.included| == |s.progress.results|
    && forall i :: 0 <= i < |s.included| ==> s.progress.results[i].receipt.transaction == s.included[i].transaction
  }

  lemma ConsiderNames(x: Externals, s: Selection, p: Pending, limits: Limits, env: BlockEnv, config: ChainConfig)
    requires config.Valid() && Names(s)
    ensures Names(Consider(x, s, p, limits, env, config))
  {
    hide ApplyTransaction, Total, Full;
    ReceiptNames(x, s.progress.state, p.transaction, env, config, Total(s.progress.results, GasOf));
  }

  lemma {:induction false} SelectNames(
    x: Externals, w: State, pool: seq<Pending>, limits: Limits, env: BlockEnv, config: ChainConfig)
    requires config.Valid()
    ensures Names(Select(x, w, pool, limits, env, config))
  {
    hide Consider;
    if pool != [] {
      hide Names;
      var front := pool[..|pool| - 1];
      SelectNames(x, w, front, limits, env, config);
      ConsiderNames(x, Select(x, w, front, limits, env, config), pool[|pool| - 1], limits, env, config);
    }
  }

  lemma PreviewNames(
    c: Commitments, x: Externals, parent: Header, w: State, pool: seq<Pending>, limits: Limits, request: MiningRequest,
    config: ChainConfig)
    requires config.Valid()
    ensures var r := BuildPreview(c, x, parent, w, pool, limits, request, config);
      r.Some? ==>
        && |r.value.block.transactions| == |r.value.results| && r.value.block.receipts == Receipts(r.value.results)
        && r.value.block.header.number == parent.number + 1
        && forall i :: 0 <= i < |r.value.results| ==>
             r.value.results[i].receipt.transaction == r.value.block.transactions[i]
  {
    hide Select, ExpectedBaseFee, ValidStructure, Total, Rewarded;
    var pending := PendingEnv(c, parent, w, request, config);
    if pending.Some? {
      SelectNames(x, w, pool, limits, pending.value, config);
    }
  }
}
