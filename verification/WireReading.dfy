/** Exactly which bytes are read as a transaction or a header, and as which: the accepted strings and no others. */
module WireReading {
  import opened Bytes
  import opened Evm
  import opened FieldCodec
  import opened Transactions
  import opened Blocks
  import HC = HeaderCodec
  import R = Rlp
  import TC = TransactionCodec
  import WF = WireFormat

  // ---------------------------------------------------------------------------------------------
  // What is accepted
  // ---------------------------------------------------------------------------------------------

  /** A number with any number of zero bytes in front. */
  predicate Number(v: R.Value, n: nat) {
    v.Str? && FromBytes(v.payload) == n
  }

  predicate Numbers(items: seq<R.Value>, numbers: seq<nat>) {
    |items| == |numbers| && forall i :: 0 <= i < |items| ==> Number(items[i], numbers[i])
  }

  /** Empty, or the twenty bytes of an address. */
  predicate To(v: R.Value, to: Option<Address>) {
    v == R.Str(if to.None? then [] else ToBytes(to.value, 20))
  }

  predicate Signed(f: seq<R.Value>, signature: Option<Signature>)
    requires |f| == 3
  {
    && signature.Some?
    && Number(f[0], signature.value.v) && Number(f[1], signature.value.r) && Number(f[2], signature.value.s)
  }

  /** The chain that a legacy `v` names: 27 and 28 name none, 35 + 2c and 36 + 2c name chain c, which is not 0. */
  ghost predicate NamesChain(v: nat, chainId: Option<nat>) {
    match chainId
    case None => v == 27 || v == 28
    case Some(c) => c >= 1 && (v == 35 + 2 * c || v == 36 + 2 * c)
  }

  ghost predicate LegacyForm(f: seq<R.Value>, t: LegacyTransaction) {
    && |f| == 9
    && Number(f[0], t.nonce) && Number(f[1], t.gasPrice) && Number(f[2], t.gasLimit) && To(f[3], t.to)
    && Number(f[4], t.value) && f[5] == R.Str(t.data)
    && Signed(f[6..], t.signature) && NamesChain(t.signature.value.v, t.chainId)
  }

  predicate TypedForm(f: seq<R.Value>, t: Eip1559Transaction)
    requires |f| == 9
  {
    && Number(f[0], t.chainId) && Number(f[1], t.nonce) && Number(f[2], t.maxPriorityFee) && Number(f[3], t.maxFee)
    && Number(f[4], t.gasLimit) && To(f[5], t.to) && Number(f[6], t.value) && f[7] == R.Str(t.data)
    // Addresses and keys of the access list in full length.
    && f[8] == R.List(WF.AccessItems(t.accessList))
    && t.chainId >= 1 && t.maxPriorityFee <= t.maxFee
  }

  /** The items of a transaction of any type. */
  ghost predicate Form(f: seq<R.Value>, tx: Transaction) {
    match tx
    case Legacy(t) => LegacyForm(f, t)
    case Eip1559(t) => |f| == 12 && TypedForm(f[..9], t) && Signed(f[9..], t.signature)
    case Zk(t, proof, inputs) =>
      && |f| == 15 && TypedForm(f[..9], t) && Signed(f[12..], t.signature)
      && Number(f[9], match proof.proofType case Groth16 => 0 case Plonk => 1 case Stark => 2)
      && f[10] == R.Str(proof.data) && f[11].List? && Numbers(f[11].items, inputs)
  }

  /** The bytes are the type byte, if any, and the encoding of such items, no string among them 55 bytes long. */
  ghost predicate Spells(data: seq<Byte>, tx: Transaction, f: seq<R.Value>) {
    && Form(f, tx) && R.Fits(R.List(f)) && R.Avoids55(R.List(f))
    && data == (match tx case Legacy(_) => [] case Eip1559(_) => [0x02] case Zk(_, _, _) => [0x7E]) + R.Encode(R.List(f))
  }

  // ---------------------------------------------------------------------------------------------
  // Fields
  // ---------------------------------------------------------------------------------------------

  lemma WordExactly(v: R.Value, w: Word)
    ensures TC.AsWord(v) == Some(w) <==> Number(v, w)
  {
    hide FromBytes;
  }

  lemma NatExactly(v: R.Value, n: nat)
    ensures AsNat(v) == Some(n) <==> Number(v, n)
  {
    hide FromBytes;
  }

  lemma AddressExactly(v: R.Value, a: Address)
    ensures AsAddress(v) == Some(a) <==> v == R.Str(ToBytes(a, 20))
  {
    hide FromBytes, ToBytes;
    AddressBack(a);
    if v.Str? {
      ToFromBytes(v.payload);
    }
  }

  lemma ToExactly(v: R.Value, to: Option<Address>)
    ensures TC.AsDestination(v) == Some(to) <==> To(v, to)
  {
    hide AsAddress, ToBytes;
    if to.Some? {
      AddressExactly(v, to.value);
    }
  }

  lemma KeyExactly(v: R.Value, key: Word)
    ensures TC.AsWord(v) == Some(key) && v.Str? && |v.payload| == 32 <==> v == R.Str(ToBytes(key, 32))
  {
    hide FromBytes, ToBytes;
    TC.KeyBack(key);
    if v.Str? {
      ToFromBytes(v.payload);
    }
  }

  lemma WordIsString(v: R.Value)
    ensures TC.AsWord(v).Some? ==> v.Str?
  {
  }

  lemma {:induction false} KeysExactly(items: seq<R.Value>, keys: seq<Word>)
    ensures TC.AsKeys(items) == Some(keys) <==> items == WF.KeyItems(keys)
  {
    hide TC.AsWord, ToBytes;
    if items != [] && keys != [] {
      KeyExactly(items[0], keys[0]);
      KeysExactly(items[1..], keys[1..]);
      assert WF.KeyItems(keys) == [WF.KeyItems(keys)[0]] + WF.KeyItems(keys[1..]);
      assert items == [items[0]] + items[1..] && keys == [keys[0]] + keys[1..];
      if TC.AsKeys(items) == Some(keys) {
        WordIsString(items[0]);
        assert keys == [TC.AsWord(items[0]).value] + TC.AsKeys(items[1..]).value;
        assert keys[1..] == TC.AsKeys(items[1..]).value;
      }
      if items == WF.KeyItems(keys) {
        assert items[0] == R.Str(ToBytes(keys[0], 32));
        assert items[1..] == WF.KeyItems(keys[1..]);
        assert TC.AsKeys(items[1..]) == Some(keys[1..]);
      }
    }
  }

  lemma {:induction false} EntriesExactly(items: seq<R.Value>, entries: seq<AccessListEntry>)
    ensures TC.AsEntries(items) == Some(entries) <==> items == WF.AccessItems(entries)
  {
    hide TC.AsKeys, AsAddress, ToBytes, WF.KeyItems;
    if items != [] && entries != [] {
      EntriesExactly(items[1..], entries[1..]);
      assert WF.AccessItems(entries) == [WF.AccessItems(entries)[0]] + WF.AccessItems(entries[1..]);
      assert items == [items[0]] + items[1..] && entries == [entries[0]] + entries[1..];
      if items[0].List? && |items[0].items| == 2 {
        var pair := items[0].items;
        assert pair == [pair[0], pair[1]];
        AddressExactly(pair[0], entries[0].address);
        if pair[1].List? {
          KeysExactly(pair[1].items, entries[0].storageKeys);
        }
      }
    }
  }

  lemma {:induction false} InputsExactly(items: seq<R.Value>, inputs: seq<Word>)
    ensures TC.AsInputs(items) == Some(inputs) <==> Numbers(items, inputs)
  {
    hide TC.AsWord, Number;
    if items != [] && inputs != [] {
      WordExactly(items[0], inputs[0]);
      InputsExactly(items[1..], inputs[1..]);
      assert items == [items[0]] + items[1..] && inputs == [inputs[0]] + inputs[1..];
      assert Numbers(items, inputs) <==> Number(items[0], inputs[0]) && Numbers(items[1..], inputs[1..]) by {
        assert forall i :: 1 <= i < |items| ==> items[i] == items[1..][i - 1];
        assert forall i :: 1 <= i < |inputs| ==> inputs[i] == inputs[1..][i - 1];
        assert forall i :: 0 <= i < |items| - 1 ==> items[1..][i] == items[i + 1];
        assert forall i :: 0 <= i < |inputs| - 1 ==> inputs[1..][i] == inputs[i + 1];
      }
    }
  }

  lemma SignatureExactly(f: seq<R.Value>, signature: Signature)
    requires |f| == 3
    ensures TC.AsSignature(f) == Some(signature) <==> Signed(f, Some(signature))
  {
    hide TC.AsWord, AsNat, Number;
    NatExactly(f[0], signature.v);
    WordExactly(f[1], signature.r);
    WordExactly(f[2], signature.s);
  }

  /** The chain read from `v` is the one it names, and the recovery number is what `v` adds to it. */
  lemma ChainExactly(v: nat, chainId: Option<nat>)
    ensures var r := TC.RecoveryId(v);
      && (r.Some? && r.value.1 == chainId <==> NamesChain(v, chainId))
      && (NamesChain(v, chainId) ==> r.value.0 == v - if chainId.None? then 27 else 35 + 2 * chainId.value)
  {
  }

  // ---------------------------------------------------------------------------------------------
  // Items
  // ---------------------------------------------------------------------------------------------

  lemma LegacyExactly(f: seq<R.Value>, t: LegacyTransaction)
    requires |f| == 9
    ensures TC.DecodeLegacy(f) == Some(Legacy(t)) <==> LegacyForm(f, t)
  {
    hide TC.AsWord, TC.AsDestination, TC.AsSignature, TC.RecoveryId, Number, To, Signed, NamesChain;
    WordExactly(f[0], t.nonce);
    WordExactly(f[1], t.gasPrice);
    WordExactly(f[2], t.gasLimit);
    ToExactly(f[3], t.to);
    WordExactly(f[4], t.value);
    if t.signature.Some? {
      SignatureExactly(f[6..], t.signature.value);
      ChainExactly(t.signature.value.v, t.chainId);
    } else {
      NoSignature(f[6..]);
    }
  }

  lemma NoSignature(f: seq<R.Value>)
    requires |f| == 3
    ensures !Signed(f, None)
  {
  }

  lemma TypedExactly(f: seq<R.Value>, sig: seq<R.Value>, t: Eip1559Transaction)
    requires |f| == 9 && |sig| == 3
    ensures TC.DecodeTyped(f, sig) == Some(t) <==> TypedForm(f, t) && Signed(sig, t.signature)
  {
    hide TC.AsWord, AsNat, TC.AsDestination, TC.AsSignature, TC.AsEntries, Number, To, Signed, WF.AccessItems;
    NatExactly(f[0], t.chainId);
    WordExactly(f[1], t.nonce);
    WordExactly(f[2], t.maxPriorityFee);
    WordExactly(f[3], t.maxFee);
    WordExactly(f[4], t.gasLimit);
    ToExactly(f[5], t.to);
    WordExactly(f[6], t.value);
    if f[8].List? {
      EntriesExactly(f[8].items, t.accessList);
    }
    if t.signature.Some? {
      SignatureExactly(sig, t.signature.value);
    } else {
      NoSignature(sig);
    }
  }

  lemma ZkExactly(f: seq<R.Value>, tx: Transaction)
    requires |f| == 15 && tx.Zk?
    ensures TC.DecodeZk(f) == Some(tx) <==> Form(f, tx)
  {
    hide TC.AsInputs, AsNat, TC.DecodeTyped, TypedForm, Signed, Number, Numbers;
    TypedExactly(f[..9], f[12..], tx.typed);
    if f[11].List? {
      InputsExactly(f[11].items, tx.publicInputs);
    }
    NatExactly(f[9], match tx.proof.proofType case Groth16 => 0 case Plonk => 1 case Stark => 2);
  }

  // ---------------------------------------------------------------------------------------------
  // Bytes
  // ---------------------------------------------------------------------------------------------

  lemma ItemsExactly(data: seq<Byte>, count: nat, f: seq<R.Value>)
    requires |data| < R.MAX_LENGTH
    ensures TC.ItemsOf(data, count) == Some(f) <==>
      |f| == count && R.Fits(R.List(f)) && R.Avoids55(R.List(f)) && data == R.Encode(R.List(f))
  {
    hide R.Decode, R.Encode, R.Fits, R.Avoids55;
    if R.Decode(data).Ok? {
      R.EncodeDecode(data);
    }
    if R.Fits(R.List(f)) {
      R.DecodeEncode(R.List(f));
    }
  }

  /** Some bytes are read as a transaction exactly if they spell it; nothing else is accepted. */
  lemma TransactionAccepted(data: seq<Byte>, tx: Transaction)
    requires |data| < R.MAX_LENGTH
    ensures TC.Decode(data) == Some(tx) <==> exists f :: Spells(data, tx, f)
  {
    hide R.Encode, R.Fits, R.Avoids55, TC.ItemsOf, TC.DecodeLegacy, TC.DecodeTyped, TC.DecodeZk, Form;
    if TC.Decode(data) == Some(tx) {
      var f := DecodedSpells(data, tx);
    }
    if f :| Spells(data, tx, f) {
      SpelledDecodes(data, tx, f);
    }
  }

  lemma DecodedSpells(data: seq<Byte>, tx: Transaction) returns (f: seq<R.Value>)
    requires |data| < R.MAX_LENGTH && TC.Decode(data) == Some(tx)
    ensures Spells(data, tx, f)
  {
    hide R.Encode, R.Fits, R.Avoids55, TC.ItemsOf, TC.DecodeLegacy, TC.DecodeTyped, TC.DecodeZk, LegacyForm, TypedForm, Signed;
    if data[0] >= 0xC0 {
      f := TC.ItemsOf(data, 9).value;
      ItemsExactly(data, 9, f);
      DecodedLegacy(f);
      LegacyExactly(f, tx.legacy);
      assert [] + R.Encode(R.List(f)) == data;
    } else if data[0] == 0x02 {
      f := TC.ItemsOf(data[1..], 12).value;
      ItemsExactly(data[1..], 12, f);
      TypedExactly(f[..9], f[9..], tx.typed);
      assert data == [0x02] + data[1..];
    } else {
      f := TC.ItemsOf(data[1..], 15).value;
      ItemsExactly(data[1..], 15, f);
      DecodedZk(f);
      ZkExactly(f, tx);
      assert data == [0x7E] + data[1..];
    }
  }

  lemma DecodedLegacy(f: seq<R.Value>)
    requires |f| == 9 && TC.DecodeLegacy(f).Some?
    ensures TC.DecodeLegacy(f).value.Legacy?
  {
  }

  lemma DecodedZk(f: seq<R.Value>)
    requires |f| == 15 && TC.DecodeZk(f).Some?
    ensures TC.DecodeZk(f).value.Zk?
  {
  }

  lemma SpelledDecodes(data: seq<Byte>, tx: Transaction, f: seq<R.Value>)
    requires |data| < R.MAX_LENGTH && Spells(data, tx, f)
    ensures TC.Decode(data) == Some(tx)
  {
    hide R.Encode, R.Fits, R.Avoids55, TC.ItemsOf, TC.DecodeLegacy, TC.DecodeTyped, TC.DecodeZk, LegacyForm, TypedForm, Signed;
    match tx
    case Legacy(t) =>
      R.FirstByte(R.List(f));
      assert data == R.Encode(R.List(f));
      SpelledLegacy(f, t);
      ItemsExactly(data, 9, f);
      LegacyExactly(f, t);
    case Eip1559(t) =>
      assert data[1..] == R.Encode(R.List(f));
      ItemsExactly(data[1..], 12, f);
      TypedExactly(f[..9], f[9..], t);
    case Zk(_, _, _) =>
      assert data[1..] == R.Encode(R.List(f));
      ItemsExactly(data[1..], 15, f);
      ZkExactly(f, tx);
  }

  lemma SpelledLegacy(f: seq<R.Value>, t: LegacyTransaction)
    requires LegacyForm(f, t)
    ensures |f| == 9
  {
  }

  // ---------------------------------------------------------------------------------------------
  // Headers
  // ---------------------------------------------------------------------------------------------

  /** Fifteen items, or sixteen with a base fee, of the right lengths, within the bounds of a header. */
  predicate HeaderForm(f: seq<R.Value>, h: Header) {
    && |f| == (if h.baseFee.None? then 15 else 16)
    && f[0] == R.Str(h.parentHash) && f[1] == R.Str(h.ommersHash) && f[2] == R.Str(ToBytes(h.coinbase, 20))
    && f[3] == R.Str(h.stateRoot) && f[4] == R.Str(h.transactionsRoot) && f[5] == R.Str(h.receiptsRoot)
    && f[6] == R.Str(h.logsBloom) && Number(f[7], h.difficulty) && Number(f[8], h.number) && Number(f[9], h.gasLimit)
    && Number(f[10], h.gasUsed) && Number(f[11], h.timestamp) && f[12] == R.Str(h.extraData) && f[13] == R.Str(h.mixHash)
    && f[14] == R.Str(h.nonce) && (h.baseFee.Some? ==> Number(f[15], h.baseFee.value))
    && h.gasUsed <= h.gasLimit && |h.extraData| <= 32 && |h.nonce| == 8
  }

  lemma FieldsExactly(f: seq<R.Value>, h: Header)
    ensures HC.FromFields(f) == Some(h) <==> HeaderForm(f, h)
  {
    hide AsNat, AsAddress, FromBytes, ToBytes;
    if |f| == 15 || |f| == 16 {
      AddressExactly(f[2], h.coinbase);
      NatExactly(f[7], h.difficulty);
      NatExactly(f[8], h.number);
      NatExactly(f[9], h.gasLimit);
      NatExactly(f[10], h.gasUsed);
      NatExactly(f[11], h.timestamp);
      if |f| == 16 && h.baseFee.Some? {
        NatExactly(f[15], h.baseFee.value);
      }
      if |f| == 16 && f[15].Str? {
        NatExactly(f[15], FromBytes(f[15].payload));
      }
    }
  }

  ghost predicate SpellsHeader(data: seq<Byte>, h: Header, f: seq<R.Value>) {
    HeaderForm(f, h) && R.Fits(R.List(f)) && R.Avoids55(R.List(f)) && data == R.Encode(R.List(f))
  }

  /** The same for headers. */
  lemma HeaderAccepted(data: seq<Byte>, h: Header)
    requires |data| < R.MAX_LENGTH
    ensures HC.Decode(data) == Some(h) <==> exists f :: SpellsHeader(data, h, f)
  {
    hide R.Decode, R.Encode, R.Fits, R.Avoids55, HC.FromFields, HeaderForm;
    if HC.Decode(data) == Some(h) {
      var f := R.Decode(data).value.items;
      R.EncodeDecode(data);
      FieldsExactly(f, h);
      assert SpellsHeader(data, h, f);
    }
    if f :| SpellsHeader(data, h, f) {
      R.DecodeEncode(R.List(f));
      FieldsExactly(f, h);
    }
  }
}
