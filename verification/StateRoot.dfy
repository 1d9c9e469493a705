/** The state root: a trie of accounts, each holding the root of a trie of storage slots. */
module StateRoot {
  import opened Bytes
  import opened Rlp
  import opened Trie
  import opened TrieStore
  import opened SlotStorage
  import opened World

  // ---------------------------------------------------------------------------------------------
  // Roots of maps
  // ---------------------------------------------------------------------------------------------

  /** The keys of a map in some fixed order. */
  ghost function KeyList(keys: set<seq<Byte>>): (order: seq<seq<Byte>>)
    ensures forall key :: key in order <==> key in keys
    ensures forall i, j :: 0 <= i < j < |order| ==> order[i] != order[j]
  {
    if keys == {} then []
    else
      var key :| key in keys;
      [key] + KeyList(keys - {key})
  }

  /** The key transform of these tries: keys are hashed. */
  function Hashing(k: Hash): (t: seq<Byte> -> seq<Byte>)
    ensures forall b :: t(b) == k(b)
  {
    b => k(b)
  }

  ghost function ItemsOf(k: Hash, entries: Entries): (items: seq<Entry>)
    ensures Lists(items, KeyList(entries.Keys), entries, Hashing(k))
  {
    hide Nibbles, KeyList;
    var order := KeyList(entries.Keys);
    OrderWithin(order, entries.Keys);
    seq(|order|, i requires 0 <= i < |order| => Entry(Nibbles(Hashing(k)(order[i])), entries[order[i]]))
  }

  lemma {:induction false} OrderWithin(order: seq<seq<Byte>>, keys: set<seq<Byte>>)
    requires forall key :: key in order <==> key in keys
    ensures forall i :: 0 <= i < |order| ==> order[i] in keys
  {
  }

  ghost predicate SmallValues(entries: Entries) {
    forall key :: key in entries ==> |entries[key]| < MAX_SIZE
  }

  ghost function MapRoot(k: Hash, entries: Entries): Digest
    requires SmallValues(entries)
  {
    ListedSmall(k, entries);
    Trie.Root(k, ItemsOf(k, entries))
  }

  lemma {:induction false} ListedSmall(k: Hash, entries: Entries)
    requires SmallValues(entries)
    ensures SmallEntries(entries, Hashing(k)) && Small(ItemsOf(k, entries))
  {
    hide ItemsOf, Nibbles;
    SmallList(ItemsOf(k, entries), KeyList(entries.Keys), entries, Hashing(k));
  }

  /** Every string hashed on the way to the root of a map, keys included. */
  ghost function MapHashed(k: Hash, entries: Entries): set<seq<Byte>>
    requires SmallValues(entries)
  {
    ListedSmall(k, entries);
    entries.Keys + RootHashed(k, ItemsOf(k, entries))
  }

  lemma {:induction false} MapRootBinds(k: Hash, e1: Entries, e2: Entries, strings: set<seq<Byte>>)
    requires SmallValues(e1) && SmallValues(e2) && NoCollision(k, strings)
    requires MapHashed(k, e1) <= strings && MapHashed(k, e2) <= strings
    requires forall key :: key in e1 ==> e1[key] != []
    requires forall key :: key in e2 ==> e2[key] != []
    ensures MapRoot(k, e1) == MapRoot(k, e2) <==> e1 == e2
  {
    hide ItemsOf, Trie.Root, RootHashed, Lists;
    ListedSmall(k, e1);
    ListedSmall(k, e2);
    CommitmentBinds(k, Hashing(k), e1, KeyList(e1.Keys), ItemsOf(k, e1), e2, KeyList(e2.Keys), ItemsOf(k, e2));
  }

  /** Whatever order a commit lists the entries in, it arrives at this root. */
  lemma {:induction false} AnyListingHasRoot(k: Hash, entries: Entries, keys: seq<seq<Byte>>, items: seq<Entry>)
    requires SmallValues(entries) && Lists(items, keys, entries, Hashing(k)) && Small(items)
    requires forall a, b :: a in entries && b in entries && k(a) == k(b) ==> a == b
    ensures Trie.Root(k, items) == MapRoot(k, entries)
  {
    hide Nibbles, ItemsOf, Build, Node;
    ListedSmall(k, entries);
    var own := ItemsOf(k, entries);
    ListsCommittable(items, keys, entries, Hashing(k));
    ListsCommittable(own, KeyList(entries.Keys), entries, Hashing(k));
    MapWithin(Hashing(k), entries, keys, items, KeyList(entries.Keys), own);
    MapWithin(Hashing(k), entries, KeyList(entries.Keys), own, keys, items);
    BuildDetermined(k, items, own);
    BuildIsNode(k, items);
    BuildIsNode(k, own);
  }

  // ---------------------------------------------------------------------------------------------
  // Storage
  // ---------------------------------------------------------------------------------------------

  function WordKey(v: Word): (key: seq<Byte>)
    ensures |key| == 32
  {
    ToBytes(v, 32)
  }

  function StoredValue(v: Word): (b: seq<Byte>)
    ensures b != [] && |b| < MAX_SIZE
  {
    WordFits(v);
    StringSize(Minimal(v));
    Encode(Int(v))
  }

  lemma {:induction false} StoredValueInjective(v: Word, w: Word)
    ensures StoredValue(v) == StoredValue(w) <==> v == w
  {
    WordFits(v);
    WordFits(w);
    if StoredValue(v) == StoredValue(w) {
      EncodeInjective(Int(v), Int(w));
      FromMinimal(v);
      FromMinimal(w);
    }
  }

  /** The slots with a nonzero current value, as trie entries. */
  ghost function StorageEntries(slots: Slots): (entries: Entries)
    ensures SmallValues(entries)
    ensures forall key :: key in entries ==> entries[key] != []
    ensures forall s: Word :: WordKey(s) in entries <==> SlotAt(slots, s).current != 0
    ensures forall s: Word :: WordKey(s) in entries ==> entries[WordKey(s)] == StoredValue(SlotAt(slots, s).current)
    ensures forall key :: key in entries ==> exists s: Word :: key == WordKey(s)
  {
    hide WordKey, StoredValue, SlotKeys, SlotAt, WordOf;
    WordsOfKeys();
    map key | key in SlotKeys(slots) :: StoredValue(SlotAt(slots, WordOf(key)).current)
  }

  ghost function SlotKeys(slots: Slots): (keys: set<seq<Byte>>)
    ensures forall s: Word :: WordKey(s) in keys <==> SlotAt(slots, s).current != 0
    ensures forall key :: key in keys ==> exists s: Word :: key == WordKey(s)
  {
    hide WordKey, Nonzero, WordOf, SlotAt;
    WordsOfKeys();
    set s | s in Nonzero(slots) :: WordKey(s)
  }

  function WordOf(key: seq<Byte>): Word {
    Wrap(FromBytes(key))
  }

  lemma {:induction false} WordsOfKeys()
    ensures forall v: Word :: WordOf(WordKey(v)) == v
  {
    forall v: Word
      ensures WordOf(WordKey(v)) == v
    {
      WordFits(v);
      FromToBytes(v, 32);
    }
  }

  function Nonzero(slots: Slots): (live: set<Word>)
    ensures forall s: Word :: s in live <==> SlotAt(slots, s).current != 0
  {
    set s | s in slots && slots[s].current != 0
  }

  ghost predicate SameCurrent(s: Slots, t: Slots) {
    forall key: Word :: SlotAt(s, key).current == SlotAt(t, key).current
  }

  lemma {:induction false} SameStorageEntries(s: Slots, t: Slots)
    ensures StorageEntries(s) == StorageEntries(t) <==> SameCurrent(s, t)
  {
    hide StorageEntries, WordKey, StoredValue, SlotAt;
    var e, f := StorageEntries(s), StorageEntries(t);
    if e == f {
      forall key: Word
        ensures SlotAt(s, key).current == SlotAt(t, key).current
      {
        assert WordKey(key) in e <==> WordKey(key) in f;
        if WordKey(key) in e {
          StoredValueInjective(SlotAt(s, key).current, SlotAt(t, key).current);
        }
      }
    }
    if SameCurrent(s, t) {
      StorageWithin(s, t);
      StorageWithin(t, s);
    }
  }

  lemma {:induction false} StorageWithin(s: Slots, t: Slots)
    requires SameCurrent(s, t)
    ensures forall key :: key in StorageEntries(s) ==>
      key in StorageEntries(t) && StorageEntries(t)[key] == StorageEntries(s)[key]
  {
    hide StorageEntries, WordKey, StoredValue, SlotAt;
    forall key | key in StorageEntries(s)
      ensures key in StorageEntries(t) && StorageEntries(t)[key] == StorageEntries(s)[key]
    {
      var v: Word :| key == WordKey(v);
    }
  }

  // ---------------------------------------------------------------------------------------------
  // Accounts
  // ---------------------------------------------------------------------------------------------

  function AddressKey(a: Address): (key: seq<Byte>)
    ensures |key| == 20
  {
    ToBytes(a, 20)
  }

  /** The four fields of a serialized account. */
  ghost function Fields(k: Hash, a: Account): seq<Value> {
    [Int(a.nonce), Int(a.balance), Str(MapRoot(k, StorageEntries(a.slots))), Str(k(a.code))]
  }

  lemma {:induction false} FieldsFit(k: Hash, a: Account)
    ensures Fits(List(Fields(k, a))) && Size(List(Fields(k, a))) < 512
  {
    hide MapRoot, StorageEntries;
    var f := Fields(k, a);
    WordFits(a.nonce);
    WordFits(a.balance);
    StringSize(Minimal(a.nonce));
    StringSize(Minimal(a.balance));
    StringSize(f[2].payload);
    StringSize(f[3].payload);
    PayloadOfFour(f[0], f[1], f[2], f[3]);
    HeaderSmall(PayloadSize(f));
  }

  lemma {:induction false} PayloadOfFour(a: Value, b: Value, c: Value, d: Value)
    ensures PayloadSize([a, b, c, d]) == Size(a) + Size(b) + Size(c) + Size(d)
    ensures AllFit([a, b, c, d]) <==> Fits(a) && Fits(b) && Fits(c) && Fits(d)
  {
    hide Size, Fits;
    assert [a, b, c, d][1..] == [b, c, d];
    assert [b, c, d][1..] == [c, d];
    assert [c, d][1..] == [d];
    assert [d][1..] == [];
    assert AllFit([]) && PayloadSize([]) == 0;
    assert PayloadSize([d]) == Size(d) && (AllFit([d]) <==> Fits(d));
    assert PayloadSize([c, d]) == Size(c) + Size(d) && (AllFit([c, d]) <==> Fits(c) && Fits(d));
  }

  lemma {:induction false} HeaderSmall(length: nat)
    requires length < MAX_LENGTH
    ensures HeaderSize(length) <= 9
  {
    if length > 55 {
      LengthOfLength(length);
    }
  }

  ghost function AccountBytes(k: Hash, a: Account): (b: seq<Byte>)
    ensures b != [] && |b| < MAX_SIZE
  {
    FieldsFit(k, a);
    Encode(List(Fields(k, a)))
  }

  /** Every string hashed for one account. */
  ghost function AccountHashed(k: Hash, a: Account): set<seq<Byte>> {
    {a.code} + MapHashed(k, StorageEntries(a.slots))
  }

  /** What a reader of the state can see of an account. */
  ghost predicate SameAccount(a: Account, b: Account) {
    a.nonce == b.nonce && a.balance == b.balance && a.code == b.code && SameCurrent(a.slots, b.slots)
  }

  lemma {:induction false} AccountBytesBind(k: Hash, a: Account, b: Account, strings: set<seq<Byte>>)
    requires NoCollision(k, strings) && AccountHashed(k, a) <= strings && AccountHashed(k, b) <= strings
    ensures AccountBytes(k, a) == AccountBytes(k, b) <==> SameAccount(a, b)
  {
    hide MapRoot, StorageEntries, MapHashed, SameCurrent;
    FieldsFit(k, a);
    FieldsFit(k, b);
    if AccountBytes(k, a) == AccountBytes(k, b) {
      EncodeInjective(List(Fields(k, a)), List(Fields(k, b)));
    }
    assert AccountBytes(k, a) == AccountBytes(k, b) <==> Fields(k, a) == Fields(k, b);
    FromMinimal(a.nonce);
    FromMinimal(b.nonce);
    FromMinimal(a.balance);
    FromMinimal(b.balance);
    MapRootBinds(k, StorageEntries(a.slots), StorageEntries(b.slots), strings);
    SameStorageEntries(a.slots, b.slots);
    assert a.code in AccountHashed(k, a) && b.code in AccountHashed(k, b);
    FieldsMeet(k, a, b);
  }

  lemma {:induction false} FieldsMeet(k: Hash, a: Account, b: Account)
    ensures Fields(k, a) == Fields(k, b) <==>
      && Minimal(a.nonce) == Minimal(b.nonce) && Minimal(a.balance) == Minimal(b.balance) && k(a.code) == k(b.code)
      && MapRoot(k, StorageEntries(a.slots)) == MapRoot(k, StorageEntries(b.slots))
  {
    hide MapRoot, StorageEntries;
    var f, g := Fields(k, a), Fields(k, b);
    if f == g {
      assert f[0] == g[0] && f[1] == g[1] && f[2] == g[2] && f[3] == g[3];
    }
  }

  // ---------------------------------------------------------------------------------------------
  // The state
  // ---------------------------------------------------------------------------------------------

  /** The accounts that are not empty, as trie entries. */
  ghost function AccountEntries(k: Hash, w: State): (entries: Entries)
    ensures SmallValues(entries)
    ensures forall key :: key in entries ==> entries[key] != []
    ensures forall a: Address :: AddressKey(a) in entries <==> !IsEmpty(World.At(w, a))
    ensures forall a: Address :: AddressKey(a) in entries ==> entries[AddressKey(a)] == AccountBytes(k, World.At(w, a))
    ensures forall key :: key in entries ==> exists a: Address :: key == AddressKey(a)
  {
    hide AddressKey, AccountBytes, AccountKeys, World.At, AddressOf, IsEmpty;
    AddressesOfKeys();
    map key | key in AccountKeys(w) :: AccountBytes(k, World.At(w, AddressOf(key)))
  }

  ghost function AccountKeys(w: State): (keys: set<seq<Byte>>)
    ensures forall a: Address :: AddressKey(a) in keys <==> !IsEmpty(World.At(w, a))
    ensures forall key :: key in keys ==> exists a: Address :: key == AddressKey(a)
  {
    hide AddressKey, Live, AddressOf, World.At, IsEmpty;
    AddressesOfKeys();
    set a | a in Live(w) :: AddressKey(a)
  }

  function AddressOf(key: seq<Byte>): Address {
    ToAddress(FromBytes(key))
  }

  lemma {:induction false} AddressesOfKeys()
    ensures forall a: Address :: AddressOf(AddressKey(a)) == a
  {
    WordPower();
    forall a: Address
      ensures AddressOf(AddressKey(a)) == a
    {
      FromToBytes(a, 20);
    }
  }

  function Live(w: State): (live: set<Address>)
    ensures forall a: Address :: a in live <==> !IsEmpty(World.At(w, a))
  {
    set a | a in w && !IsEmpty(w[a])
  }

  ghost function Root(k: Hash, w: State): Digest {
    MapRoot(k, AccountEntries(k, w))
  }

  /** Every string hashed on the way to the state root. */
  ghost function StateHashed(k: Hash, w: State): set<seq<Byte>> {
    MapHashed(k, AccountEntries(k, w)) + set a, s | a in w && s in AccountHashed(k, w[a]) :: s
  }

  ghost predicate SameState(v: State, w: State) {
    forall a: Address :: SameAccount(World.At(v, a), World.At(w, a))
  }

  /** The state root commits to everything a reader can see: barring a collision among the finitely many strings hashed,
      two states have the same root exactly if every account agrees in nonce, balance, code and current storage. */
  lemma {:induction false} StateRootBinds(k: Hash, v: State, w: State)
    requires NoCollision(k, StateHashed(k, v) + StateHashed(k, w))
    ensures Root(k, v) == Root(k, w) <==> SameState(v, w)
  {
    hide MapRoot, MapHashed, AccountEntries, NoCollision;
    var strings := StateHashed(k, v) + StateHashed(k, w);
    MapRootBinds(k, AccountEntries(k, v), AccountEntries(k, w), strings);
    SameAccountEntries(k, v, w, strings);
  }

  lemma {:induction false} HashedOf(k: Hash, w: State, a: Address)
    requires a in w
    ensures AccountHashed(k, w[a]) <= StateHashed(k, w)
  {
    hide MapHashed, AccountEntries, AccountHashed;
  }

  /** An empty account looks like one that is not there. */
  lemma {:induction false} EmptyLooksNew(a: Account)
    ensures IsEmpty(a) <==> SameAccount(a, NEW_ACCOUNT)
  {
    if SameAccount(a, NEW_ACCOUNT) {
      forall key | key in a.slots
        ensures a.slots[key].current == 0
      {
        assert SlotAt(a.slots, key).current == SlotAt(NEW_ACCOUNT.slots, key).current;
      }
    }
  }

  lemma {:induction false} SameAccountEntries(k: Hash, v: State, w: State, strings: set<seq<Byte>>)
    requires NoCollision(k, strings) && StateHashed(k, v) <= strings && StateHashed(k, w) <= strings
    ensures AccountEntries(k, v) == AccountEntries(k, w) <==> SameState(v, w)
  {
    hide AccountEntries, AddressKey, AccountBytes, SameAccount, NoCollision, StateHashed, IsEmpty;
    forall a: Address
      ensures SameEntry(k, v, w, a) <==> SameAccount(World.At(v, a), World.At(w, a))
    {
      EntryBinds(k, v, w, a, strings);
    }
    if AccountEntries(k, v) == AccountEntries(k, w) {
      assert forall a: Address :: SameEntry(k, v, w, a);
    }
    if SameState(v, w) {
      AccountsWithin(k, v, w);
      AccountsWithin(k, w, v);
    }
  }

  /** The two states have the same entry, or both none, for an address. */
  ghost predicate SameEntry(k: Hash, v: State, w: State, a: Address) {
    var e, f, key := AccountEntries(k, v), AccountEntries(k, w), AddressKey(a);
    (key in e <==> key in f) && (key in e && key in f ==> e[key] == f[key])
  }

  lemma {:induction false} AccountsWithin(k: Hash, v: State, w: State)
    requires forall a: Address :: SameEntry(k, v, w, a) || SameEntry(k, w, v, a)
    ensures forall key :: key in AccountEntries(k, v) ==>
      key in AccountEntries(k, w) && AccountEntries(k, w)[key] == AccountEntries(k, v)[key]
  {
    hide AccountEntries, AddressKey, AccountBytes;
    forall key | key in AccountEntries(k, v)
      ensures key in AccountEntries(k, w) && AccountEntries(k, w)[key] == AccountEntries(k, v)[key]
    {
      var a: Address :| key == AddressKey(a);
      assert SameEntry(k, v, w, a) || SameEntry(k, w, v, a);
    }
  }

  lemma {:induction false} EntryBinds(k: Hash, v: State, w: State, a: Address, strings: set<seq<Byte>>)
    requires NoCollision(k, strings) && StateHashed(k, v) <= strings && StateHashed(k, w) <= strings
    ensures SameEntry(k, v, w, a) <==> SameAccount(World.At(v, a), World.At(w, a))
  {
    hide AccountEntries, AddressKey, AccountBytes, SameCurrent, NoCollision, StateHashed, IsEmpty, AccountHashed;
    var x, y := World.At(v, a), World.At(w, a);
    EmptyLooksNew(x);
    EmptyLooksNew(y);
    SameCurrentLaws(x.slots, y.slots);
    if !IsEmpty(x) && !IsEmpty(y) {
      HashedWhenPresent(k, v, a);
      HashedWhenPresent(k, w, a);
      AccountBytesBind(k, x, y, strings);
    }
  }

  lemma {:induction false} HashedWhenPresent(k: Hash, w: State, a: Address)
    requires !IsEmpty(World.At(w, a))
    ensures AccountHashed(k, World.At(w, a)) <= StateHashed(k, w)
  {
    hide AccountHashed, StateHashed;
    HashedOf(k, w, a);
  }

  lemma {:induction false} SameCurrentLaws(s: Slots, t: Slots)
    ensures SameCurrent(s, t) <==> SameCurrent(t, s)
    ensures SameCurrent(s, map[]) && SameCurrent(s, t) ==> SameCurrent(t, map[])
    ensures SameCurrent(t, map[]) && SameCurrent(s, t) ==> SameCurrent(s, map[])
    ensures SameCurrent(s, map[]) && SameCurrent(t, map[]) ==> SameCurrent(s, t)
  {
  }
}
