/** The transaction pool: two indexes over the same entries, kept in step. */
module TxPool {
  import opened Arithmetic
  import opened Bytes
  import opened Evm
  import opened Transactions
  import opened Mining

  type Key = (Address, nat)

  function KeyOf(p: Pending): Key {
    (p.sender, p.transaction.Nonce())
  }

  /** The price and tip by which a replacement is judged; the price may fall below the base fee. */
  function ReplacementPrice(tx: Transaction, baseFee: Option<nat>): (int, int) {
    if tx.Legacy? then (tx.legacy.gasPrice, tx.legacy.gasPrice)
    else
      var priority := tx.typed.maxPriorityFee;
      if baseFee.None? then (tx.typed.maxFee, priority)
      else
        var headroom := tx.typed.maxFee - baseFee.value;
        (baseFee.value + if priority < headroom then priority else headroom, priority)
  }

  predicate ReplacementAllowed(existing: Transaction, candidate: Transaction, baseFee: Option<nat>, bump: nat) {
    var (oldPrice, oldTip) := ReplacementPrice(existing, baseFee);
    var (newPrice, newTip) := ReplacementPrice(candidate, baseFee);
    newPrice * 100 >= oldPrice * (100 + bump) && newTip * 100 >= oldTip * (100 + bump)
  }

  /** Replacements are judged by what a transaction would pay: on any block that prices it, that is its effective price,
      and a price below the base fee is that of a transaction no such block accepts. */
  lemma JudgedByWhatIsPaid(tx: Transaction, env: BlockEnv, config: ChainConfig)
    requires env.baseFee.Some?
    ensures PricingFor(tx, env, config).Accept? ==>
      ReplacementPrice(tx, env.baseFee).0 == PricingFor(tx, env, config).value.effective
    ensures config.feeModel == Eip1559Fees && ReplacementPrice(tx, env.baseFee).0 < env.baseFee.value ==>
      PricingFor(tx, env, config).Reject?
    ensures ReplacementPrice(tx, env.baseFee).1 == if tx.Legacy? then tx.legacy.gasPrice else tx.typed.maxPriorityFee
    ensures ReplacementPrice(tx, None).0 == Offer(tx)
  {
    var p := ReplacementPrice(tx, env.baseFee).0;
    if PricingFor(tx, env, config).Accept? {
      assert Acceptable(tx, PricingFor(tx, env, config).value.baseFee, PricingFor(tx, env, config).value.effective);
      assert p >= 0 && Acceptable(tx, PricingFor(tx, env, config).value.baseFee, p);
    }
  }

  /** A replacement raises both, the price and the tip, by the percentage: the least whole numbers that allow one. */
  lemma ReplacementRaisesBoth(existing: Transaction, candidate: Transaction, baseFee: Option<nat>, bump: nat)
    ensures var (oldPrice, oldTip) := ReplacementPrice(existing, baseFee);
      var (newPrice, newTip) := ReplacementPrice(candidate, baseFee);
      (ReplacementAllowed(existing, candidate, baseFee, bump) <==>
       newPrice >= (oldPrice * (100 + bump) + 99) / 100 && newTip >= (oldTip * (100 + bump) + 99) / 100)
  {
  }

  datatype AddResult = Added(pending: Pending) | AlreadyKnown | Underpriced

  /** Strictly increasing insertion numbers. */
  predicate InOrder(s: seq<Pending>) {
    forall i, j :: 0 <= i < j < |s| ==> s[i].insertionId < s[j].insertionId
  }

  type Index = map<Digest, Pending>

  /** Every entry is found under its own hash and under its own sender and nonce, and nowhere else; `owner` shows that
      insertion numbers are distinct, and they lie below the next one. */
  ghost predicate InStep(
    hash: Transaction -> Digest, byHash: Index, byKey: map<Key, Pending>, owner: map<nat, Digest>, nextId: nat)
  {
    && (forall h :: h in byHash ==>
          var p := byHash[h];
          && hash(p.transaction) == h && KeyOf(p) in byKey && byKey[KeyOf(p)] == p
          && p.insertionId < nextId && p.insertionId in owner && owner[p.insertionId] == h)
    && (forall k :: k in byKey ==>
          var p := byKey[k];
          KeyOf(p) == k && hash(p.transaction) in byHash && byHash[hash(p.transaction)] == p)
  }

  lemma InsertKeepsStep(
    hash: Transaction -> Digest, byHash: Index, byKey: map<Key, Pending>, owner: map<nat, Digest>, nextId: nat, p: Pending,
    limit: nat)
    requires InStep(hash, byHash, byKey, owner, nextId) && nextId <= limit
    requires hash(p.transaction) !in byHash && KeyOf(p) !in byKey && p.insertionId < limit
    requires forall h :: h in byHash ==> byHash[h].insertionId != p.insertionId
    ensures InStep(hash, byHash[hash(p.transaction) := p], byKey[KeyOf(p) := p],
                   owner[p.insertionId := hash(p.transaction)], limit)
  {
  }

  lemma DeleteKeepsStep(
    hash: Transaction -> Digest, byHash: Index, byKey: map<Key, Pending>, owner: map<nat, Digest>, nextId: nat, h: Digest)
    requires InStep(hash, byHash, byKey, owner, nextId) && h in byHash
    ensures InStep(hash, byHash - {h}, byKey - {KeyOf(byHash[h])}, owner, nextId)
    ensures byHash[h].insertionId < nextId
    ensures forall g :: g in byHash && g != h ==> byHash[g].insertionId != byHash[h].insertionId
  {
  }

  function Hashes(hash: Transaction -> Digest, txs: seq<Transaction>): set<Digest> {
    set i | 0 <= i < |txs| :: hash(txs[i])
  }

  lemma HashesSnoc(hash: Transaction -> Digest, txs: seq<Transaction>, i: nat)
    requires i < |txs|
    ensures Hashes(hash, txs[..i + 1]) == Hashes(hash, txs[..i]) + {hash(txs[i])}
  {
    var more := txs[..i + 1];
    assert more[i] == txs[i];
    forall j | 0 <= j < i
      ensures txs[..i][j] == more[j]
    {
    }
  }

  lemma FreshNumber(
    hash: Transaction -> Digest, byHash: Index, byKey: map<Key, Pending>, owner: map<nat, Digest>, nextId: nat)
    requires InStep(hash, byHash, byKey, owner, nextId)
    ensures forall h :: h in byHash ==> byHash[h].insertionId != nextId
  {
  }

  lemma StepKeys(
    hash: Transaction -> Digest, byHash: Index, byKey: map<Key, Pending>, owner: map<nat, Digest>, nextId: nat, k: Key)
    requires InStep(hash, byHash, byKey, owner, nextId) && k in byKey
    ensures hash(byKey[k].transaction) in byHash && byHash[hash(byKey[k].transaction)] == byKey[k] && KeyOf(byKey[k]) == k
  {
  }

  lemma StepHashes(
    hash: Transaction -> Digest, byHash: Index, byKey: map<Key, Pending>, owner: map<nat, Digest>, nextId: nat, h: Digest)
    requires InStep(hash, byHash, byKey, owner, nextId) && h in byHash
    ensures hash(byHash[h].transaction) == h && KeyOf(byHash[h]) in byKey && byKey[KeyOf(byHash[h])] == byHash[h]
    ensures forall k :: k in byKey && hash(byKey[k].transaction) == h ==> k == KeyOf(byHash[h])
  {
  }

  class Pool {
    const hash: Transaction -> Digest
    const bump: nat
    var nextId: nat
    var byHash: Index
    var byKey: map<Key, Pending>
    ghost var owner: map<nat, Digest>

    ghost predicate Valid()
      reads this
    {
      InStep(hash, byHash, byKey, owner, nextId)
    }

    constructor (hash: Transaction -> Digest, bump: nat)
      ensures Valid() && byHash == map[] && this.hash == hash && this.bump == bump
    {
      this.hash := hash;
      this.bump := bump;
      nextId := 0;
      byHash := map[];
      byKey := map[];
      owner := map[];
    }

    /** Adds a transaction, or replaces the one with the same sender and nonce in its place in the queue. */
    method Add(tx: Transaction, sender: Address, baseFee: Option<nat>) returns (r: AddResult)
      requires Valid()
      modifies this
      ensures Valid()
      ensures r.AlreadyKnown? <==> hash(tx) in old(byHash)
      ensures var key := (sender, tx.Nonce() as nat);
        && (r.Underpriced? <==>
              && hash(tx) !in old(byHash) && key in old(byKey)
              && !ReplacementAllowed(old(byKey)[key].transaction, tx, baseFee, bump))
        && (!r.Added? ==> byHash == old(byHash) && byKey == old(byKey) && nextId == old(nextId))
        && (r.Added? ==>
              && r.pending.transaction == tx && KeyOf(r.pending) == key
              && byKey == old(byKey)[key := r.pending]
              && if key in old(byKey)
                 then
                   && r.pending.insertionId == old(byKey)[key].insertionId && nextId == old(nextId)
                   && byHash == (old(byHash) - {hash(old(byKey)[key].transaction)})[hash(tx) := r.pending]
                 else
                   && r.pending.insertionId == old(nextId) && nextId == old(nextId) + 1
                   && byHash == old(byHash)[hash(tx) := r.pending])
    {
      hide InStep, ReplacementAllowed;
      if hash(tx) in byHash {
        return AlreadyKnown;
      }
      var key := (sender, tx.Nonce() as nat);
      var pending;
      if key !in byKey {
        pending := Pending(tx, sender, nextId);
        FreshNumber(hash, byHash, byKey, owner, nextId);
        InsertKeepsStep(hash, byHash, byKey, owner, nextId, pending, nextId + 1);
        nextId := nextId + 1;
      } else {
        var existing := byKey[key];
        if !ReplacementAllowed(existing.transaction, tx, baseFee, bump) {
          return Underpriced;
        }
        StepKeys(hash, byHash, byKey, owner, nextId, key);
        DeleteKeepsStep(hash, byHash, byKey, owner, nextId, hash(existing.transaction));
        byHash := byHash - {hash(existing.transaction)};
        pending := Pending(tx, sender, existing.insertionId);
        InsertKeepsStep(hash, byHash, byKey - {key}, owner, nextId, pending, nextId);
        assert (byKey - {key})[key := pending] == byKey[key := pending];
      }
      byHash := byHash[hash(tx) := pending];
      byKey := byKey[key := pending];
      owner := owner[pending.insertionId := hash(tx)];
      return Added(pending);
    }

    /** Removes an entry by the transaction's hash. */
    method Remove(tx: Transaction)
      requires Valid()
      modifies this
      ensures Valid() && nextId == old(nextId)
      ensures byHash == old(byHash) - {hash(tx)}
      ensures forall k :: k in byKey <==> k in old(byKey) && hash(old(byKey)[k].transaction) != hash(tx)
      ensures forall k :: k in byKey ==> byKey[k] == old(byKey)[k]
    {
      var h := hash(tx);
      if h !in byHash {
        return;
      }
      hide InStep;
      StepHashes(hash, byHash, byKey, owner, nextId, h);
      DeleteKeepsStep(hash, byHash, byKey, owner, nextId, h);
      var pending := byHash[h];
      byHash := byHash - {h};
      byKey := byKey - {KeyOf(pending)};
    }

    method ClearIncluded(txs: seq<Transaction>)
      requires Valid()
      modifies this
      ensures Valid() && nextId == old(nextId)
      ensures byHash == old(byHash) - Hashes(hash, txs)
    {
      hide InStep;
      var i := 0;
      while i < |txs|
        invariant 0 <= i <= |txs| && Valid() && nextId == old(nextId)
        invariant byHash == old(byHash) - Hashes(hash, txs[..i])
      {
        HashesSnoc(hash, txs, i);
        Remove(txs[i]);
        i := i + 1;
      }
      assert txs[..i] == txs;
    }

    /** The first nonce from the confirmed one on that the sender has not queued. */
    method PendingNonce(sender: Address, confirmed: nat) returns (next: nat)
      ensures next >= confirmed && (sender, next) !in byKey
      ensures forall n: nat :: confirmed <= n < next ==> (sender, n) in byKey
    {
      next := confirmed;
      ghost var ahead := byKey.Keys;
      while (sender, next) in byKey
        invariant next >= confirmed && ahead <= byKey.Keys
        invariant forall n: nat :: confirmed <= n < next ==> (sender, n) in byKey
        invariant forall n: nat :: n >= next && (sender, n) in byKey ==> (sender, n) in ahead
        decreases ahead
      {
        ahead := ahead - {(sender, next)};
        next := next + 1;
      }
    }

    /** All entries by insertion number. */
    method Ordered() returns (s: seq<Pending>)
      requires Valid()
      ensures InOrder(s)
      ensures forall p :: p in s <==> hash(p.transaction) in byHash && byHash[hash(p.transaction)] == p
    {
      s := [];
      var todo := byHash.Keys;
      while todo != {}
        invariant todo <= byHash.Keys && InOrder(s)
        invariant forall p :: p in s <==> hash(p.transaction) in byHash.Keys - todo && byHash[hash(p.transaction)] == p
        invariant forall i, h :: 0 <= i < |s| && h in todo ==> s[i].insertionId < byHash[h].insertionId
        decreases todo
      {
        EarliestExists(byHash, todo);
        var h :| h in todo && Earliest(byHash, todo, h);
        s := s + [byHash[h]];
        todo := todo - {h};
      }
    }
  }

  predicate Earliest(entries: map<Digest, Pending>, among: set<Digest>, h: Digest)
    requires among <= entries.Keys && h in among
  {
    forall g :: g in among ==> entries[h].insertionId <= entries[g].insertionId
  }

  lemma {:induction false} EarliestExists(entries: map<Digest, Pending>, among: set<Digest>)
    requires among != {} && among <= entries.Keys
    ensures exists h :: h in among && Earliest(entries, among, h)
    decreases among
  {
    var g :| g in among;
    var rest := among - {g};
    if rest == {} {
      assert among == {g};
      assert Earliest(entries, among, g);
    } else {
      EarliestExists(entries, rest);
      var h :| h in rest && Earliest(entries, rest, h);
      if entries[h].insertionId <= entries[g].insertionId {
        assert Earliest(entries, among, h);
      } else {
        assert Earliest(entries, among, g);
      }
    }
  }

  /** The order is determined by the entries: two increasing listings of the same entries are equal. */
  lemma {:induction false} OrderIsUnique(s: seq<Pending>, t: seq<Pending>)
    requires InOrder(s) && InOrder(t) && forall p :: p in s <==> p in t
    ensures s == t
  {
    NoMembers(s);
    NoMembers(t);
    if s != [] && t != [] {
      FirstIsSame(s, t);
      forall p
        ensures p in s[1..] <==> p in t[1..]
      {
        TailMembers(s, p);
        TailMembers(t, p);
      }
      OrderIsUnique(s[1..], t[1..]);
      assert s == [s[0]] + s[1..] && t == [t[0]] + t[1..];
    }
  }

  lemma NoMembers(s: seq<Pending>)
    ensures s == [] <==> forall p :: p !in s
  {
    if s != [] {
      assert s[0] in s;
    }
  }

  lemma FirstIsSame(s: seq<Pending>, t: seq<Pending>)
    requires InOrder(s) && InOrder(t) && s != [] && t != [] && forall p :: p in s <==> p in t
    ensures s[0] == t[0]
  {
    assert s[0] in t && t[0] in s;
    var i :| 0 <= i < |t| && t[i] == s[0];
    var j :| 0 <= j < |s| && s[j] == t[0];
  }

  lemma TailMembers(s: seq<Pending>, p: Pending)
    requires InOrder(s) && s != []
    ensures p in s[1..] <==> p in s && p != s[0]
  {
    if p in s && p != s[0] {
      var i :| 0 <= i < |s| && s[i] == p;
      assert s[1..][i - 1] == p;
    }
  }

  /** Each transaction replaced the one before, at whatever base fee was current then. */
  predicate Replacements(txs: seq<Transaction>, baseFees: seq<Option<nat>>, bump: nat) {
    && |txs| == |baseFees| + 1
    && forall i :: 0 <= i < |baseFees| ==> ReplacementAllowed(txs[i], txs[i + 1], baseFees[i], bump)
  }

  function TipOf(tx: Transaction): nat {
    ReplacementPrice(tx, None).1
  }

  /** The tip by which replacements are judged is the same at every base fee. */
  lemma TipAtAnyFee(tx: Transaction, baseFee: Option<nat>)
    ensures ReplacementPrice(tx, baseFee).1 == TipOf(tx)
  {
  }

  /** Along any chain of replacements the tip compounds: each one raises it by the configured percentage or more. */
  lemma {:induction false} ReplacementsCompound(txs: seq<Transaction>, baseFees: seq<Option<nat>>, bump: nat)
    requires Replacements(txs, baseFees, bump)
    ensures var n := |baseFees|; TipOf(txs[n]) * Power(100, n) >= TipOf(txs[0]) * Power(100 + bump, n)
    decreases |baseFees|
  {
    var n := |baseFees|;
    if n > 0 {
      ReplacementsCompound(txs[..n], baseFees[..n - 1], bump);
      assert ReplacementAllowed(txs[n - 1], txs[n], baseFees[n - 1], bump);
      TipAtAnyFee(txs[n - 1], baseFees[n - 1]);
      TipAtAnyFee(txs[n], baseFees[n - 1]);
      Compound(TipOf(txs[n]), TipOf(txs[n - 1]), TipOf(txs[0]), 100, 100 + bump, Power(100, n - 1), Power(100 + bump, n - 1));
    }
  }

  function PriceOf(tx: Transaction, baseFee: Option<nat>): (price: nat)
    ensures price == ReplacementPrice(tx, baseFee).0
  {
    ReplacementPrice(tx, baseFee).0
  }

  /** So does the price, as long as the base fee stays. */
  lemma {:induction false} PricesCompound(txs: seq<Transaction>, baseFees: seq<Option<nat>>, current: Option<nat>, bump: nat)
    requires Replacements(txs, baseFees, bump) && forall i :: 0 <= i < |baseFees| ==> baseFees[i] == current
    ensures var n := |baseFees|; PriceOf(txs[n], current) * Power(100, n) >= PriceOf(txs[0], current) * Power(100 + bump, n)
    decreases |baseFees|
  {
    var n := |baseFees|;
    if n > 0 {
      PricesCompound(txs[..n], baseFees[..n - 1], current, bump);
      assert ReplacementAllowed(txs[n - 1], txs[n], baseFees[n - 1], bump);
      Compound(PriceOf(txs[n], current), PriceOf(txs[n - 1], current), PriceOf(txs[0], current), 100, 100 + bump,
               Power(100, n - 1), Power(100 + bump, n - 1));
    }
  }
}
