/** Published vectors of the formats, and where every field lies on the wire. */
module WireFormat {
  import opened Bytes
  import opened Evm
  import opened Transactions
  import opened Blocks
  import R = Rlp
  import T = Trie
  import TC = TransactionCodec
  import HC = HeaderCodec
  import StateRoot
  import World
  import SlotStorage

  // ---------------------------------------------------------------------------------------------
  // RLP, appendix B of the Yellow Paper
  // ---------------------------------------------------------------------------------------------

  /** "dog", ["cat", "dog"], the empty string, the empty list, the integers 0, 15 and 1024, and a string of one high byte. */
  lemma RlpVectors()
    ensures R.Encode(R.Str([0x64, 0x6F, 0x67])) == [0x83, 0x64, 0x6F, 0x67]
    ensures R.Fits(Animals()) && R.Encode(Animals()) == [0xC8, 0x83, 0x63, 0x61, 0x74, 0x83, 0x64, 0x6F, 0x67]
    ensures R.Encode(R.Str([])) == [0x80]
    ensures R.Fits(R.List([])) && R.Encode(R.List([])) == [0xC0]
    ensures R.Encode(R.Int(0)) == [0x80] && R.Encode(R.Int(15)) == [0x0F]
    ensures R.Fits(R.Int(1024)) && R.Encode(R.Int(1024)) == [0x82, 0x04, 0x00]
    ensures R.Encode(R.Str([0x80])) == [0x81, 0x80]
  {
    AnimalsEncode();
    Minimal2(0x04, 0x00);
    assert R.Int(0) == R.Str([]);
    MinimalSmall(15);
  }

  function Animals(): R.Value {
    R.List([R.Str([0x63, 0x61, 0x74]), R.Str([0x64, 0x6F, 0x67])])
  }

  lemma AnimalsEncode()
    ensures R.Fits(Animals()) && R.Encode(Animals()) == [0xC8, 0x83, 0x63, 0x61, 0x74, 0x83, 0x64, 0x6F, 0x67]
  {
    var items := Animals().items;
    hide R.AllFit, R.PayloadSize, R.EncodeItems, R.Encode, R.Fits;
    ItemsStep(items, 2);
    ItemsStep(items, 1);
    ItemsStep(items, 0);
    assert items[0..] == items;
    ListForm(items);
  }

  lemma MinimalSmall(v: nat)
    requires 0 < v < 256
    ensures Minimal(v) == [v]
  {
    assert Minimal(v / 256) == [];
  }

  lemma Minimal2(a: Byte, b: Byte)
    requires a > 0
    ensures Minimal(256 * a + b) == [a, b]
  {
    MinimalSmall(a);
    assert (256 * a as nat + b) / 256 == a && (256 * a as nat + b) % 256 == b;
  }

  /** Prefixes: one byte up to 55 bytes of payload, and beyond that the length of the length and the length. */
  lemma StringForm(s: seq<Byte>)
    requires |s| < 0x1_0000
    ensures R.Encode(R.Str(s))
         == if |s| == 1 && s[0] < 0x80 then s
            else if |s| <= 55 then [0x80 + |s|] + s
            else if |s| < 256 then [0xB8, |s|] + s
            else [0xB9, |s| / 256, |s| % 256] + s
  {
    if 55 < |s| < 256 {
      MinimalSmall(|s|);
    } else if |s| >= 256 {
      Minimal2(|s| / 256, |s| % 256);
    }
  }

  lemma ListForm(items: seq<R.Value>)
    requires R.AllFit(items) && R.PayloadSize(items) < 0x1_0000
    ensures R.Fits(R.List(items))
    ensures var n := R.PayloadSize(items);
      R.Encode(R.List(items))
      == (if n <= 55 then [0xC0 + n] else if n < 256 then [0xF8, n] else [0xF9, n / 256, n % 256]) + R.EncodeItems(items)
  {
    var n := R.PayloadSize(items);
    if 55 < n < 256 {
      MinimalSmall(n);
    } else if n >= 256 {
      Minimal2(n / 256, n % 256);
    }
  }

  // ---------------------------------------------------------------------------------------------
  // Hex-prefix, appendix C of the Yellow Paper
  // ---------------------------------------------------------------------------------------------

  /** The high nibble first. */
  lemma {:induction false} NibblesAt(data: seq<Byte>, i: nat)
    requires i < |data|
    ensures T.Nibbles(data)[2 * i] == data[i] / 16 && T.Nibbles(data)[2 * i + 1] == data[i] % 16
  {
    if i > 0 {
      NibblesAt(data[1..], i - 1);
    }
  }

  lemma {:induction false} PackAt(nibbles: T.Path, i: nat)
    requires |nibbles| % 2 == 0 && 2 * i < |nibbles|
    ensures T.Pack(nibbles)[i] == nibbles[2 * i] as int * 16 + nibbles[2 * i + 1]
  {
    if i > 0 {
      PackAt(nibbles[2..], i - 1);
    }
  }

  /** An odd and an even path, of an extension and of a leaf. */
  lemma HexPrefixVectors()
    ensures T.Compact([1, 2, 3, 4, 5], false) == [0x11, 0x23, 0x45]
    ensures T.Compact([0, 1, 2, 3, 4, 5], false) == [0x00, 0x01, 0x23, 0x45]
    ensures T.Compact([0, 15, 1, 12, 11, 8], true) == [0x20, 0x0F, 0x1C, 0xB8]
    ensures T.Compact([15, 1, 12, 11, 8], true) == [0x3F, 0x1C, 0xB8]
  {
    hide T.Pack;
    PackThree(1, 1, 2, 3, 4, 5);
    PackThree(3, 15, 1, 12, 11, 8);
    PackFour(0, 0, 0, 1, 2, 3, 4, 5);
    PackFour(2, 0, 0, 15, 1, 12, 11, 8);
    assert T.Flagged([1, 2, 3, 4, 5], false) == [1, 1, 2, 3, 4, 5];
    assert T.Flagged([15, 1, 12, 11, 8], true) == [3, 15, 1, 12, 11, 8];
    assert T.Flagged([0, 1, 2, 3, 4, 5], false) == [0, 0, 0, 1, 2, 3, 4, 5];
    assert T.Flagged([0, 15, 1, 12, 11, 8], true) == [2, 0, 0, 15, 1, 12, 11, 8];
  }

  lemma PackThree(a: T.Nibble, b: T.Nibble, c: T.Nibble, d: T.Nibble, e: T.Nibble, f: T.Nibble)
    ensures T.Pack([a, b, c, d, e, f]) == [a as int * 16 + b, c as int * 16 + d, e as int * 16 + f]
  {
    var s := [a, b, c, d, e, f];
    PackAt(s, 0);
    PackAt(s, 1);
    PackAt(s, 2);
  }

  lemma PackFour(
    a: T.Nibble, b: T.Nibble, c: T.Nibble, d: T.Nibble, e: T.Nibble, f: T.Nibble, g: T.Nibble, h: T.Nibble)
    ensures T.Pack([a, b, c, d, e, f, g, h])
         == [a as int * 16 + b, c as int * 16 + d, e as int * 16 + f, g as int * 16 + h]
  {
    var s := [a, b, c, d, e, f, g, h];
    PackAt(s, 0);
    PackAt(s, 1);
    PackAt(s, 2);
    PackAt(s, 3);
  }

  // ---------------------------------------------------------------------------------------------
  // Layouts
  // ---------------------------------------------------------------------------------------------

  /** A legacy transaction: nine items, in this order. */
  lemma LegacyLayout(t: LegacyTransaction)
    requires t.signature.Some? && R.Fits(TC.Fields(Legacy(t)))
    ensures var s := t.signature.value;
      var items := [R.Int(t.nonce), R.Int(t.gasPrice), R.Int(t.gasLimit),
                    R.Str(if t.to.None? then [] else ToBytes(t.to.value, 20)), R.Int(t.value), R.Str(t.data),
                    R.Int(s.v), R.Int(s.r), R.Int(s.s)];
      R.Fits(R.List(items)) && TC.Encode(Legacy(t)) == Some(R.Encode(R.List(items)))
  {
    hide R.Fits, R.Encode;
    var s := t.signature.value;
    assert TC.LegacyBase(t) + TC.SignatureValues(s)
        == [R.Int(t.nonce), R.Int(t.gasPrice), R.Int(t.gasLimit),
            R.Str(if t.to.None? then [] else ToBytes(t.to.value, 20)), R.Int(t.value), R.Str(t.data),
            R.Int(s.v), R.Int(s.r), R.Int(s.s)];
    assert [] + R.Encode(TC.Fields(Legacy(t))) == R.Encode(TC.Fields(Legacy(t)));
  }

  /** The first nine items of an EIP-1559 or a ZK transaction. */
  function TypedItems(t: Eip1559Transaction): seq<R.Value> {
    [R.Int(t.chainId), R.Int(t.nonce), R.Int(t.maxPriorityFee), R.Int(t.maxFee), R.Int(t.gasLimit),
     R.Str(if t.to.None? then [] else ToBytes(t.to.value, 20)), R.Int(t.value), R.Str(t.data),
     R.List(AccessItems(t.accessList))]
  }

  function AccessItems(entries: seq<AccessListEntry>): seq<R.Value> {
    seq(|entries|, i requires 0 <= i < |entries| =>
      R.List([R.Str(ToBytes(entries[i].address, 20)), R.List(KeyItems(entries[i].storageKeys))]))
  }

  function KeyItems(keys: seq<Word>): seq<R.Value> {
    seq(|keys|, i requires 0 <= i < |keys| => R.Str(ToBytes(keys[i], 32)))
  }

  lemma {:induction false} KeysAre(keys: seq<Word>)
    ensures TC.KeyValues(keys) == KeyItems(keys)
  {
    if keys != [] {
      KeysAre(keys[1..]);
      assert KeyItems(keys) == [R.Str(ToBytes(keys[0], 32))] + KeyItems(keys[1..]);
    }
  }

  lemma {:induction false} EntriesAre(entries: seq<AccessListEntry>)
    ensures TC.EntryValues(entries) == AccessItems(entries)
  {
    if entries != [] {
      EntriesAre(entries[1..]);
      KeysAre(entries[0].storageKeys);
      assert AccessItems(entries)
          == [R.List([R.Str(ToBytes(entries[0].address, 20)), R.List(KeyItems(entries[0].storageKeys))])]
             + AccessItems(entries[1..]);
    }
  }

  lemma TypedAre(t: Eip1559Transaction)
    ensures TC.TypedBase(t) == TypedItems(t)
  {
    EntriesAre(t.accessList);
  }

  /** An EIP-1559 transaction: type byte 2 and twelve items. */
  lemma TypedLayout(t: Eip1559Transaction)
    requires t.signature.Some? && R.Fits(TC.Fields(Eip1559(t)))
    ensures var s := t.signature.value;
      var items := TypedItems(t) + [R.Int(s.v), R.Int(s.r), R.Int(s.s)];
      R.Fits(R.List(items)) && TC.Encode(Eip1559(t)) == Some([0x02] + R.Encode(R.List(items)))
  {
    hide R.Fits, R.Encode, TC.TypedBase;
    TypedAre(t);
  }

  /** A ZK transaction: type byte 0x7E, the same nine items, proof type, proof, public inputs and signature. */
  lemma ZkLayout(t: Eip1559Transaction, proof: Proof, inputs: seq<Word>)
    requires t.signature.Some? && R.Fits(TC.Fields(Zk(t, proof, inputs)))
    ensures var s := t.signature.value;
      var kind := match proof.proofType case Groth16 => 0 case Plonk => 1 case Stark => 2;
      var items := TypedItems(t) + [R.Int(kind), R.Str(proof.data), R.List(TC.InputValues(inputs))]
                   + [R.Int(s.v), R.Int(s.r), R.Int(s.s)];
      R.Fits(R.List(items)) && TC.Encode(Zk(t, proof, inputs)) == Some([0x7E] + R.Encode(R.List(items)))
  {
    hide R.Fits, R.Encode, TC.TypedBase, TC.InputValues;
    TypedAre(t);
  }

  /** What is signed: under EIP-155 the chain and two zeros stand in for the signature of a legacy transaction. */
  lemma SigningLayout(tx: Transaction)
    requires R.Fits(TC.UnsignedFields(tx))
    ensures tx.Legacy? ==>
      var t := tx.legacy;
      var items := [R.Int(t.nonce), R.Int(t.gasPrice), R.Int(t.gasLimit),
                    R.Str(if t.to.None? then [] else ToBytes(t.to.value, 20)), R.Int(t.value), R.Str(t.data)]
                   + if t.chainId.None? then [] else [R.Int(t.chainId.value), R.Int(0), R.Int(0)];
      R.Fits(R.List(items)) && TC.SigningPayload(tx) == R.Encode(R.List(items))
    ensures tx.Eip1559? ==>
      R.Fits(R.List(TypedItems(tx.typed))) && TC.SigningPayload(tx) == [0x02] + R.Encode(R.List(TypedItems(tx.typed)))
    ensures tx.Zk? ==>
      var kind := match tx.proof.proofType case Groth16 => 0 case Plonk => 1 case Stark => 2;
      var items := TypedItems(tx.typed)
                   + [R.Int(kind), R.Str(tx.proof.data), R.List(TC.InputValues(tx.publicInputs))];
      R.Fits(R.List(items)) && TC.SigningPayload(tx) == [0x7E] + R.Encode(R.List(items))
  {
    hide R.Fits, R.Encode, TC.TypedBase, TC.InputValues;
    if tx.Legacy? {
      assert [] + R.Encode(TC.UnsignedFields(tx)) == R.Encode(TC.UnsignedFields(tx));
      assert R.Int(0) == R.Str([]);
    } else {
      TypedAre(tx.typed);
    }
  }

  /** A header: fifteen items in this order, and the base fee behind them if there is one. */
  lemma HeaderLayout(h: Header)
    requires R.Fits(R.List(HC.Fields(h)))
    ensures var items :=
        [R.Str(h.parentHash), R.Str(h.ommersHash), R.Str(ToBytes(h.coinbase, 20)), R.Str(h.stateRoot),
         R.Str(h.transactionsRoot), R.Str(h.receiptsRoot), R.Str(h.logsBloom), R.Int(h.difficulty), R.Int(h.number),
         R.Int(h.gasLimit), R.Int(h.gasUsed), R.Int(h.timestamp), R.Str(h.extraData), R.Str(h.mixHash), R.Str(h.nonce)]
        + if h.baseFee.None? then [] else [R.Int(h.baseFee.value)];
      R.Fits(R.List(items)) && HC.Encode(h) == R.Encode(R.List(items))
  {
    hide R.Fits, R.Encode;
  }

  /** A serialized account: nonce, balance, storage root and code hash. */
  lemma AccountLayout(k: T.Hash, a: World.Account)
    ensures var items := [R.Int(a.nonce), R.Int(a.balance), R.Str(StateRoot.MapRoot(k, StateRoot.StorageEntries(a.slots))),
                          R.Str(k(a.code))];
      R.Fits(R.List(items)) && StateRoot.AccountBytes(k, a) == R.Encode(R.List(items))
  {
    hide R.Encode, StateRoot.MapRoot, StateRoot.StorageEntries;
    StateRoot.FieldsFit(k, a);
  }

  /** A slot is filed under its 32-byte key as the encoded integer, and an account under its 20-byte address. */
  lemma StateKeys(k: T.Hash, w: World.State, a: Address, key: Word)
    ensures ToBytes(a, 20) in StateRoot.AccountEntries(k, w) <==> !World.IsEmpty(World.At(w, a))
    ensures ToBytes(a, 20) in StateRoot.AccountEntries(k, w) ==>
      StateRoot.AccountEntries(k, w)[ToBytes(a, 20)] == StateRoot.AccountBytes(k, World.At(w, a))
    ensures var slots := World.At(w, a).slots; var entries := StateRoot.StorageEntries(slots);
      && (ToBytes(key, 32) in entries <==> SlotStorage.SlotAt(slots, key).current != 0)
      && (ToBytes(key, 32) in entries ==>
            && R.Fits(R.Int(SlotStorage.SlotAt(slots, key).current))
            && entries[ToBytes(key, 32)] == R.Encode(R.Int(SlotStorage.SlotAt(slots, key).current)))
  {
    hide R.Encode, StateRoot.AccountEntries, StateRoot.StorageEntries, World.At, SlotStorage.SlotAt, ToBytes;
    assert StateRoot.AddressKey(a) == ToBytes(a, 20) && StateRoot.WordKey(key) == ToBytes(key, 32);
    WordFits(SlotStorage.SlotAt(World.At(w, a).slots, key).current);
  }

  // ---------------------------------------------------------------------------------------------
  // The example of EIP-155
  // ---------------------------------------------------------------------------------------------

  function Recipient(): Address {
    0x3535353535353535353535353535353535353535
  }

  /** Nonce 9, gas price 20 * 10^9, gas limit 21000, 10^18 to 0x3535...35, on chain 1. */
  const EIP155 := Legacy(LegacyTransaction(9, 20_000_000_000, 21_000, Some(Recipient()), 1_000_000_000_000_000_000, [],
                                           Some(1), None))

  function Thirties(n: nat): (s: seq<Byte>)
    ensures |s| == n
  {
    seq(n, _ => 0x35)
  }

  lemma {:induction false} MinimalOf(s: seq<Byte>, v: nat)
    requires s != [] && s[0] != 0 && FromBytes(s) == v
    ensures Minimal(v) == s && R.Int(v) == R.Str(s)
  {
    MinimalFrom(s);
  }

  lemma FromSnoc(s: seq<Byte>, b: Byte)
    ensures FromBytes(s + [b]) == FromBytes(s) * 256 + b
  {
    assert (s + [b])[..|s|] == s;
  }

  lemma Numbers()
    ensures R.Int(9) == R.Str([9]) && R.Int(1) == R.Str([1]) && R.Int(0) == R.Str([])
    ensures R.Int(21_000) == R.Str([0x52, 0x08])
    ensures R.Int(20_000_000_000) == R.Str([0x04, 0xA8, 0x17, 0xC8, 0x00])
    ensures R.Int(1_000_000_000_000_000_000) == R.Str([0x0D, 0xE0, 0xB6, 0xB3, 0xA7, 0x64, 0x00, 0x00])
  {
    MinimalSmall(9);
    MinimalSmall(1);
    Minimal2(0x52, 0x08);
    GasPriceBytes();
    ValueBytes();
  }

  lemma GasPriceBytes()
    ensures R.Int(20_000_000_000) == R.Str([0x04, 0xA8, 0x17, 0xC8, 0x00])
  {
    FromSnoc([], 0x04);
    FromSnoc([0x04], 0xA8);
    FromSnoc([0x04, 0xA8], 0x17);
    FromSnoc([0x04, 0xA8, 0x17], 0xC8);
    FromSnoc([0x04, 0xA8, 0x17, 0xC8], 0x00);
    assert [] + [0x04] == [0x04] && [0x04] + [0xA8] == [0x04, 0xA8] && [0x04, 0xA8] + [0x17] == [0x04, 0xA8, 0x17];
    assert [0x04, 0xA8, 0x17] + [0xC8] == [0x04, 0xA8, 0x17, 0xC8];
    assert [0x04, 0xA8, 0x17, 0xC8] + [0x00] == [0x04, 0xA8, 0x17, 0xC8, 0x00];
    MinimalOf([0x04, 0xA8, 0x17, 0xC8, 0x00], 20_000_000_000);
  }

  lemma ValueBytes()
    ensures R.Int(1_000_000_000_000_000_000) == R.Str([0x0D, 0xE0, 0xB6, 0xB3, 0xA7, 0x64, 0x00, 0x00])
  {
    hide FromBytes;
    NoBytes();
    FromSnoc([], 0x0D);
    FromSnoc([0x0D], 0xE0);
    FromSnoc([0x0D, 0xE0], 0xB6);
    FromSnoc([0x0D, 0xE0, 0xB6], 0xB3);
    FromSnoc([0x0D, 0xE0, 0xB6, 0xB3], 0xA7);
    FromSnoc([0x0D, 0xE0, 0xB6, 0xB3, 0xA7], 0x64);
    FromSnoc([0x0D, 0xE0, 0xB6, 0xB3, 0xA7, 0x64], 0x00);
    FromSnoc([0x0D, 0xE0, 0xB6, 0xB3, 0xA7, 0x64, 0x00], 0x00);
    assert [] + [0x0D] == [0x0D] && [0x0D] + [0xE0] == [0x0D, 0xE0] && [0x0D, 0xE0] + [0xB6] == [0x0D, 0xE0, 0xB6];
    assert [0x0D, 0xE0, 0xB6] + [0xB3] == [0x0D, 0xE0, 0xB6, 0xB3];
    assert [0x0D, 0xE0, 0xB6, 0xB3] + [0xA7] == [0x0D, 0xE0, 0xB6, 0xB3, 0xA7];
    assert [0x0D, 0xE0, 0xB6, 0xB3, 0xA7] + [0x64] == [0x0D, 0xE0, 0xB6, 0xB3, 0xA7, 0x64];
    assert [0x0D, 0xE0, 0xB6, 0xB3, 0xA7, 0x64] + [0x00] == [0x0D, 0xE0, 0xB6, 0xB3, 0xA7, 0x64, 0x00];
    assert [0x0D, 0xE0, 0xB6, 0xB3, 0xA7, 0x64, 0x00] + [0x00] == [0x0D, 0xE0, 0xB6, 0xB3, 0xA7, 0x64, 0x00, 0x00];
    MinimalOf([0x0D, 0xE0, 0xB6, 0xB3, 0xA7, 0x64, 0x00, 0x00], 1_000_000_000_000_000_000);
  }

  lemma NoBytes()
    ensures FromBytes([]) == 0
  {
  }

  lemma {:induction false} ThirtiesBack(n: nat, v: nat)
    requires v == RepeatedByte(n)
    ensures ToBytes(v, n) == Thirties(n)
  {
    if n > 0 {
      ThirtiesBack(n - 1, RepeatedByte(n - 1));
      assert v % 256 == 0x35 && v / 256 == RepeatedByte(n - 1);
      assert Thirties(n) == Thirties(n - 1) + [0x35];
    }
  }

  function RepeatedByte(n: nat): nat {
    if n == 0 then 0 else RepeatedByte(n - 1) * 256 + 0x35
  }

  lemma RecipientBytes()
    ensures ToBytes(Recipient(), 20) == Thirties(20)
  {
    assert RepeatedByte(4) == 0x35353535;
    assert RepeatedByte(8) == 0x3535353535353535;
    assert RepeatedByte(12) == 0x353535353535353535353535;
    assert RepeatedByte(16) == 0x35353535353535353535353535353535;
    assert RepeatedByte(20) == Recipient();
    ThirtiesBack(20, Recipient());
  }

  function Eip155Items(): seq<R.Value> {
    [R.Str([9]), R.Str([0x04, 0xA8, 0x17, 0xC8, 0x00]), R.Str([0x52, 0x08]), R.Str(Thirties(20)),
     R.Str([0x0D, 0xE0, 0xB6, 0xB3, 0xA7, 0x64, 0x00, 0x00]), R.Str([]), R.Str([1]), R.Str([]), R.Str([])]
  }

  lemma ShortItems()
    ensures forall j :: 0 <= j < |Eip155Items()| ==> Eip155Items()[j].Str? && |Eip155Items()[j].payload| <= 55
  {
  }

  lemma LastItems()
    ensures var tail := Eip155Items()[5..];
      R.AllFit(tail) && R.PayloadSize(tail) == 4 && R.EncodeItems(tail) == [0x80, 0x01, 0x80, 0x80]
  {
    var items := Eip155Items();
    hide R.AllFit, R.PayloadSize, R.EncodeItems;
    ItemsStep(items, 9);
    ItemsStep(items, 8);
    ItemsStep(items, 7);
    ItemsStep(items, 6);
    ItemsStep(items, 5);
  }

  lemma MiddleItems()
    ensures var tail := Eip155Items()[3..];
      && R.AllFit(tail) && R.PayloadSize(tail) == 34
      && R.EncodeItems(tail) == LastBytes()
  {
    var items := Eip155Items();
    ShortItems();
    hide R.AllFit, R.PayloadSize, R.EncodeItems, Thirties;
    LastItems();
    ItemsStep(items, 4);
    ItemsStep(items, 3);
  }

  function LastBytes(): seq<Byte> {
    [0x94] + Thirties(20) + [0x88, 0x0D, 0xE0, 0xB6, 0xB3, 0xA7, 0x64, 0x00, 0x00, 0x80, 0x01, 0x80, 0x80]
  }

  lemma AllItems()
    ensures var items := Eip155Items();
      && R.AllFit(items) && R.PayloadSize(items) == 44
      && R.EncodeItems(items) == [0x09] + ([0x85, 0x04, 0xA8, 0x17, 0xC8, 0x00] + ([0x82, 0x52, 0x08] + LastBytes()))
  {
    var items := Eip155Items();
    MiddleItems();
    ShortItems();
    hide R.AllFit, R.PayloadSize, R.EncodeItems, LastBytes, Thirties;
    ItemsStep(items, 2);
    ItemsStep(items, 1);
    ItemsStep(items, 0);
    assert items[0..] == items;
    assert [0x80 + 5] + [0x04, 0xA8, 0x17, 0xC8, 0x00] == [0x85, 0x04, 0xA8, 0x17, 0xC8, 0x00];
    assert [0x80 + 2] + [0x52, 0x08] == [0x82, 0x52, 0x08];
  }

  lemma Eip155Fields()
    ensures TC.UnsignedFields(EIP155) == R.List(Eip155Items())
  {
    Numbers();
    RecipientBytes();
    hide Minimal, ToBytes, R.Int;
  }

  /** The signing data printed in EIP-155. */
  lemma Eip155Vector()
    ensures R.Fits(TC.UnsignedFields(EIP155))
    ensures TC.SigningPayload(EIP155)
         == [0xEC, 0x09, 0x85, 0x04, 0xA8, 0x17, 0xC8, 0x00, 0x82, 0x52, 0x08, 0x94] + Thirties(20)
            + [0x88, 0x0D, 0xE0, 0xB6, 0xB3, 0xA7, 0x64, 0x00, 0x00, 0x80, 0x01, 0x80, 0x80]
  {
    Eip155Fields();
    AllItems();
    hide R.AllFit, R.PayloadSize, R.EncodeItems, Eip155Items, TC.UnsignedFields, R.Encode;
    ListForm(Eip155Items());
  }

  lemma ItemsStep(items: seq<R.Value>, i: nat)
    requires i <= |items| && forall j :: 0 <= j < |items| ==> items[j].Str? && |items[j].payload| <= 55
    requires i < |items| ==> R.AllFit(items[i + 1..])
    ensures R.AllFit(items[i..])
    ensures R.PayloadSize(items[i..]) == if i == |items| then 0 else R.Size(items[i]) + R.PayloadSize(items[i + 1..])
    ensures R.EncodeItems(items[i..])
         == if i == |items| then [] else Short(items[i].payload) + R.EncodeItems(items[i + 1..])
  {
    if i < |items| {
      assert items[i..][1..] == items[i + 1..];
      StringForm(items[i].payload);
    }
  }

  function Short(s: seq<Byte>): seq<Byte>
    requires |s| <= 55
  {
    if |s| == 1 && s[0] < 0x80 then s else [0x80 + |s|] + s
  }
}
