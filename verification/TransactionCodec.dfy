/** The wire form of signed transactions, and exactly which of them survive it. */
module TransactionCodec {
  import opened Bytes
  import opened Evm
  import opened FieldCodec
  import opened Transactions
  import R = Rlp

  const EIP1559_TYPE: Byte := 0x02
  const ZK_TYPE: Byte := 0x7E

  // ---------------------------------------------------------------------------------------------
  // Fields
  // ---------------------------------------------------------------------------------------------

  function Destination(to: Option<Address>): R.Value {
    R.Str(if to.None? then [] else ToBytes(to.value, 20))
  }

  function KeyValues(keys: seq<Word>): seq<R.Value> {
    if keys == [] then [] else [R.Str(ToBytes(keys[0], 32))] + KeyValues(keys[1..])
  }

  function EntryValues(entries: seq<AccessListEntry>): seq<R.Value> {
    if entries == [] then []
    else
      [R.List([R.Str(ToBytes(entries[0].address, 20)), R.List(KeyValues(entries[0].storageKeys))])]
      + EntryValues(entries[1..])
  }

  function InputValues(inputs: seq<Word>): seq<R.Value> {
    if inputs == [] then [] else [R.Int(inputs[0])] + InputValues(inputs[1..])
  }

  function ProofNumber(p: ProofType): nat {
    match p
    case Groth16 => 0
    case Plonk => 1
    case Stark => 2
  }

  function SignatureValues(s: Signature): (f: seq<R.Value>)
    ensures |f| == 3
  {
    [R.Int(s.v), R.Int(s.r), R.Int(s.s)]
  }

  function LegacyBase(t: LegacyTransaction): (f: seq<R.Value>)
    ensures |f| == 6
  {
    [R.Int(t.nonce), R.Int(t.gasPrice), R.Int(t.gasLimit), Destination(t.to), R.Int(t.value), R.Str(t.data)]
  }

  function TypedBase(t: Eip1559Transaction): (f: seq<R.Value>)
    ensures |f| == 9
  {
    [R.Int(t.chainId), R.Int(t.nonce), R.Int(t.maxPriorityFee), R.Int(t.maxFee), R.Int(t.gasLimit), Destination(t.to),
     R.Int(t.value), R.Str(t.data), R.List(EntryValues(t.accessList))]
  }

  function ProofValues(proof: Proof, inputs: seq<Word>): seq<R.Value> {
    [R.Int(ProofNumber(proof.proofType)), R.Str(proof.data), R.List(InputValues(inputs))]
  }

  function SignatureOf(tx: Transaction): Option<Signature> {
    if tx.Legacy? then tx.legacy.signature else tx.typed.signature
  }

  /** All fields of a signed transaction. */
  function Fields(tx: Transaction): R.Value
    requires SignatureOf(tx).Some?
  {
    var signature := SignatureValues(SignatureOf(tx).value);
    match tx
    case Legacy(t) => R.List(LegacyBase(t) + signature)
    case Eip1559(t) => R.List(TypedBase(t) + signature)
    case Zk(t, proof, inputs) => R.List(TypedBase(t) + ProofValues(proof, inputs) + signature)
  }

  function TypePrefix(tx: Transaction): seq<Byte> {
    match tx
    case Legacy(_) => []
    case Eip1559(_) => [EIP1559_TYPE]
    case Zk(_, _, _) => [ZK_TYPE]
  }

  /** `None` for an unsigned transaction. */
  function Encode(tx: Transaction): Option<seq<Byte>>
    requires SignatureOf(tx).Some? ==> R.Fits(Fields(tx))
  {
    if SignatureOf(tx).None? then None else Some(TypePrefix(tx) + R.Encode(Fields(tx)))
  }

  // ---------------------------------------------------------------------------------------------
  // Reading back
  // ---------------------------------------------------------------------------------------------

  function AsWord(v: R.Value): Option<Word> {
    var n :- AsNat(v);
    if n < 0x1_0000000000000000_0000000000000000_0000000000000000_0000000000000000 then Some(n) else None
  }

  function AsDestination(v: R.Value): Option<Option<Address>> {
    var raw :- AsBytes(v);
    if raw == [] then Some(None)
    else
      var address :- AsAddress(v);
      Some(Some(address))
  }

  function AsKeys(items: seq<R.Value>): Option<seq<Word>> {
    if items == [] then Some([])
    else
      var key :- AsWord(items[0]);
      if |items[0].payload| != 32 then None
      else
        var rest :- AsKeys(items[1..]);
        Some([key] + rest)
  }

  function AsEntries(items: seq<R.Value>): Option<seq<AccessListEntry>> {
    if items == [] then Some([])
    else if items[0].Str? || |items[0].items| != 2 then None
    else
      var pair := items[0].items;
      var address :- AsAddress(pair[0]);
      if pair[1].Str? then None
      else
        var keys :- AsKeys(pair[1].items);
        var rest :- AsEntries(items[1..]);
        Some([AccessListEntry(address, keys)] + rest)
  }

  function AsInputs(items: seq<R.Value>): Option<seq<Word>> {
    if items == [] then Some([])
    else
      var first :- AsWord(items[0]);
      var rest :- AsInputs(items[1..]);
      Some([first] + rest)
  }

  function AsProofType(n: nat): Option<ProofType> {
    if n == 0 then Some(Groth16) else if n == 1 then Some(Plonk) else if n == 2 then Some(Stark) else None
  }

  function AsSignature(items: seq<R.Value>): Option<Signature>
    requires |items| == 3
  {
    var v :- AsNat(items[0]);
    var r :- AsWord(items[1]);
    var s :- AsWord(items[2]);
    Some(Signature(v, r, s))
  }

  /** Recovery number and embedded chain of a legacy `v`, as EIP-155 lays them out. */
  function RecoveryId(v: nat): (r: Option<(nat, Option<nat>)>)
    ensures r.Some? ==> r.value.0 < 2
  {
    if v == 27 || v == 28 then Some((v - 27, None))
    else if v >= 35 then
      var chain := (v - 35) / 2;
      if chain < 1 then None else Some((v - 35 - 2 * chain, Some(chain)))
    else None
  }

  function ItemsOf(data: seq<Byte>, count: nat): Option<seq<R.Value>> {
    match R.Decode(data)
    case Fail(_) => None
    case Ok(v) => if v.List? && |v.items| == count then Some(v.items) else None
  }

  function DecodeLegacy(f: seq<R.Value>): Option<Transaction>
    requires |f| == 9
  {
    var nonce :- AsWord(f[0]);
    var gasPrice :- AsWord(f[1]);
    var gasLimit :- AsWord(f[2]);
    var to :- AsDestination(f[3]);
    var value :- AsWord(f[4]);
    var data :- AsBytes(f[5]);
    var signature :- AsSignature(f[6..]);
    var recovered :- RecoveryId(signature.v);
    Some(Legacy(LegacyTransaction(nonce, gasPrice, gasLimit, to, value, data, recovered.1, Some(signature))))
  }

  /** The constructor's own checks. */
  predicate ValidTyped(t: Eip1559Transaction) {
    t.chainId >= 1 && t.maxFee >= t.maxPriorityFee
  }

  function DecodeTyped(f: seq<R.Value>, sig: seq<R.Value>): Option<Eip1559Transaction>
    requires |f| == 9 && |sig| == 3
  {
    var chainId :- AsNat(f[0]);
    var nonce :- AsWord(f[1]);
    var priority :- AsWord(f[2]);
    var maxFee :- AsWord(f[3]);
    var gasLimit :- AsWord(f[4]);
    var to :- AsDestination(f[5]);
    var value :- AsWord(f[6]);
    var data :- AsBytes(f[7]);
    if f[8].Str? then None
    else
      var entries :- AsEntries(f[8].items);
      var signature :- AsSignature(sig);
      var t := Eip1559Transaction(chainId, nonce, priority, maxFee, gasLimit, to, value, data, entries, Some(signature));
      if ValidTyped(t) then Some(t) else None
  }

  function DecodeZk(f: seq<R.Value>): Option<Transaction>
    requires |f| == 15
  {
    if f[11].Str? then None
    else
      var inputs :- AsInputs(f[11].items);
      var t :- DecodeTyped(f[..9], f[12..]);
      var number :- AsNat(f[9]);
      var proofType :- AsProofType(number);
      var data :- AsBytes(f[10]);
      Some(Zk(t, Proof(proofType, data), inputs))
  }

  /** `None` when decoding raises. */
  function Decode(data: seq<Byte>): Option<Transaction> {
    if data == [] then None
    else if data[0] >= 0xC0 then
      var f :- ItemsOf(data, 9);
      DecodeLegacy(f)
    else if data[0] == EIP1559_TYPE then
      var f :- ItemsOf(data[1..], 12);
      var t :- DecodeTyped(f[..9], f[9..]);
      Some(Eip1559(t))
    else if data[0] == ZK_TYPE then
      var f :- ItemsOf(data[1..], 15);
      DecodeZk(f)
    else None
  }

  // ---------------------------------------------------------------------------------------------
  // Round trip
  // ---------------------------------------------------------------------------------------------

  /** What the constructors insist on. */
  predicate Constructible(tx: Transaction) {
    match tx
    case Legacy(t) => t.chainId.Some? ==> t.chainId.value >= 1
    case Eip1559(t) => ValidTyped(t)
    case Zk(t, _, _) => ValidTyped(t)
  }

  /** A legacy `v` must say what the chain field says. */
  predicate ConsistentV(tx: Transaction)
    requires SignatureOf(tx).Some?
  {
    tx.Legacy? ==>
      var recovered := RecoveryId(tx.legacy.signature.value.v);
      recovered.Some? && recovered.value.1 == tx.legacy.chainId
  }

  lemma WordBack(w: Word)
    ensures AsWord(R.Int(w)) == Some(w)
  {
    FromMinimal(w);
  }

  lemma DestinationBack(to: Option<Address>)
    ensures AsDestination(Destination(to)) == Some(to)
  {
    if to.Some? {
      AddressBack(to.value);
    }
  }

  lemma SignatureBack(s: Signature)
    ensures AsSignature(SignatureValues(s)) == Some(s)
  {
    hide AsNat, AsWord;
    NatBack(s.v);
    WordBack(s.r);
    WordBack(s.s);
  }

  lemma KeyBack(key: Word)
    ensures AsWord(R.Str(ToBytes(key, 32))) == Some(key)
  {
    WordFits(key);
    FromToBytes(key, 32);
  }

  lemma {:induction false} KeysBack(keys: seq<Word>)
    ensures AsKeys(KeyValues(keys)) == Some(keys)
  {
    hide AsWord, ToBytes;
    if keys != [] {
      KeysBack(keys[1..]);
      KeyBack(keys[0]);
      assert KeyValues(keys)[1..] == KeyValues(keys[1..]);
      assert [keys[0]] + keys[1..] == keys;
    }
  }

  lemma {:induction false} EntriesBack(entries: seq<AccessListEntry>)
    ensures AsEntries(EntryValues(entries)) == Some(entries)
  {
    hide AsKeys, KeyValues, ToBytes, AsAddress;
    if entries != [] {
      EntriesBack(entries[1..]);
      KeysBack(entries[0].storageKeys);
      AddressBack(entries[0].address);
      assert EntryValues(entries)[1..] == EntryValues(entries[1..]);
      assert [entries[0]] + entries[1..] == entries;
    }
  }

  lemma {:induction false} InputsBack(inputs: seq<Word>)
    ensures AsInputs(InputValues(inputs)) == Some(inputs)
  {
    hide AsWord, R.Int;
    if inputs != [] {
      InputsBack(inputs[1..]);
      WordBack(inputs[0]);
      assert InputValues(inputs)[1..] == InputValues(inputs[1..]);
      assert [inputs[0]] + inputs[1..] == inputs;
    }
  }

  lemma LegacyBack(t: LegacyTransaction)
    requires t.signature.Some?
    ensures var recovered := RecoveryId(t.signature.value.v);
      DecodeLegacy(LegacyBase(t) + SignatureValues(t.signature.value))
      == if recovered.None? then None else Some(Legacy(t.(chainId := recovered.value.1)))
  {
    hide AsWord, AsDestination, AsSignature, SignatureValues, Destination, RecoveryId;
    var f := LegacyBase(t) + SignatureValues(t.signature.value);
    assert f[6..] == SignatureValues(t.signature.value);
    WordBack(t.nonce);
    WordBack(t.gasPrice);
    WordBack(t.gasLimit);
    DestinationBack(t.to);
    WordBack(t.value);
    SignatureBack(t.signature.value);
  }

  lemma TypedBack(t: Eip1559Transaction)
    requires t.signature.Some? && ValidTyped(t)
    ensures DecodeTyped(TypedBase(t), SignatureValues(t.signature.value)) == Some(t)
  {
    hide AsNat, AsWord, AsDestination, AsSignature, AsEntries, SignatureValues, Destination;
    NatBack(t.chainId);
    WordBack(t.nonce);
    WordBack(t.maxPriorityFee);
    WordBack(t.maxFee);
    WordBack(t.gasLimit);
    DestinationBack(t.to);
    WordBack(t.value);
    EntriesBack(t.accessList);
    SignatureBack(t.signature.value);
  }

  lemma ZkBack(t: Eip1559Transaction, proof: Proof, inputs: seq<Word>)
    requires t.signature.Some? && ValidTyped(t)
    ensures DecodeZk(TypedBase(t) + ProofValues(proof, inputs) + SignatureValues(t.signature.value))
            == Some(Zk(t, proof, inputs))
  {
    hide AsNat, AsWord, AsInputs, DecodeTyped, SignatureValues, TypedBase;
    var f := TypedBase(t) + ProofValues(proof, inputs) + SignatureValues(t.signature.value);
    assert f[..9] == TypedBase(t) && f[12..] == SignatureValues(t.signature.value);
    assert f[9] == ProofValues(proof, inputs)[0] && f[10] == ProofValues(proof, inputs)[1];
    assert f[11] == ProofValues(proof, inputs)[2];
    TypedBack(t);
    InputsBack(inputs);
    NatBack(ProofNumber(proof.proofType));
  }

  lemma ItemsBack(v: R.Value, count: nat)
    requires v.List? && |v.items| == count && R.Fits(v)
    ensures ItemsOf(R.Encode(v), count) == if R.Avoids55(v) then Some(v.items) else None
  {
    hide R.Decode, R.Encode, R.Avoids55, R.Fits;
    R.DecodeEncode(v);
  }

  /** A signed transaction is read back as itself exactly if no part of it is 55 bytes long on the wire and, for a legacy
      one, `v` agrees with the chain field. */
  lemma RoundTrip(tx: Transaction)
    requires SignatureOf(tx).Some? && Constructible(tx) && R.Fits(Fields(tx))
    ensures Decode(Encode(tx).value) == Some(tx) <==> R.Avoids55(Fields(tx)) && ConsistentV(tx)
  {
    hide R.Decode, R.Encode, R.Avoids55, R.Fits, DecodeLegacy, DecodeTyped, DecodeZk, TypedBase, LegacyBase, RecoveryId;
    var v, data := Fields(tx), Encode(tx).value;
    ItemsBack(v, |v.items|);
    match tx
    case Legacy(t) =>
      R.FirstByte(v);
      assert data == R.Encode(v);
      LegacyBack(t);
    case Eip1559(t) =>
      assert data[1..] == R.Encode(v);
      assert v.items[..9] == TypedBase(t) && v.items[9..] == SignatureValues(t.signature.value);
      TypedBack(t);
    case Zk(t, proof, inputs) =>
      assert data[1..] == R.Encode(v);
      ZkBack(t, proof, inputs);
  }

  // ---------------------------------------------------------------------------------------------
  // What a signature commits to
  // ---------------------------------------------------------------------------------------------

  function UnsignedFields(tx: Transaction): R.Value {
    match tx
    case Legacy(t) =>
      R.List(LegacyBase(t) + if t.chainId.None? then [] else [R.Int(t.chainId.value), R.Int(0), R.Int(0)])
    case Eip1559(t) => R.List(TypedBase(t))
    case Zk(t, proof, inputs) => R.List(TypedBase(t) + ProofValues(proof, inputs))
  }

  /** The bytes whose hash is signed. */
  function SigningPayload(tx: Transaction): seq<Byte>
    requires R.Fits(UnsignedFields(tx))
  {
    TypePrefix(tx) + R.Encode(UnsignedFields(tx))
  }

  /** The transaction with its signature removed. */
  function Unsigned(tx: Transaction): Transaction {
    match tx
    case Legacy(t) => Legacy(t.(signature := None))
    case Eip1559(t) => Eip1559(t.(signature := None))
    case Zk(t, proof, inputs) => Zk(t.(signature := None), proof, inputs)
  }

  /** Equal signing payloads mean equal transactions up to the signature: the kind, the chain and every field are
      covered, whatever their lengths. */
  lemma SigningPayloadBinds(t: Transaction, u: Transaction)
    requires R.Fits(UnsignedFields(t)) && R.Fits(UnsignedFields(u)) && SigningPayload(t) == SigningPayload(u)
    ensures Unsigned(t) == Unsigned(u)
  {
    hide R.Encode, R.Fits, LegacyBase, TypedBase, ProofValues;
    R.FirstByte(UnsignedFields(t));
    R.FirstByte(UnsignedFields(u));
    SamePrefix(t, u);
    R.EncodeInjective(UnsignedFields(t), UnsignedFields(u));
    match t
    case Legacy(a) => LegacyBinds(a, u.legacy);
    case Eip1559(a) => TypedBinds(a, u.typed);
    case Zk(a, proof, inputs) =>
      assert UnsignedFields(t).items[..9] == TypedBase(a) && UnsignedFields(u).items[..9] == TypedBase(u.typed);
      assert UnsignedFields(t).items[9..] == ProofValues(proof, inputs);
      assert UnsignedFields(u).items[9..] == ProofValues(u.proof, u.publicInputs);
      TypedBinds(a, u.typed);
      ProofBinds(proof, inputs, u.proof, u.publicInputs);
  }

  lemma SamePrefix(t: Transaction, u: Transaction)
    requires R.Fits(UnsignedFields(t)) && R.Fits(UnsignedFields(u)) && SigningPayload(t) == SigningPayload(u)
    requires |R.Encode(UnsignedFields(t))| > 0 && R.Encode(UnsignedFields(t))[0] >= 0xC0
    requires |R.Encode(UnsignedFields(u))| > 0 && R.Encode(UnsignedFields(u))[0] >= 0xC0
    ensures TypePrefix(t) == TypePrefix(u) && R.Encode(UnsignedFields(t)) == R.Encode(UnsignedFields(u))
  {
    hide R.Encode, R.Fits, UnsignedFields;
    var p, q := SigningPayload(t), SigningPayload(u);
    assert p[0] == q[0];
    assert R.Encode(UnsignedFields(t)) == p[|TypePrefix(t)|..];
    assert R.Encode(UnsignedFields(u)) == q[|TypePrefix(u)|..];
  }

  lemma LegacyBinds(a: LegacyTransaction, b: LegacyTransaction)
    requires UnsignedFields(Legacy(a)) == UnsignedFields(Legacy(b))
    ensures a.(signature := None) == b.(signature := None)
  {
    var f, g := UnsignedFields(Legacy(a)).items, UnsignedFields(Legacy(b)).items;
    assert f[..6] == LegacyBase(a) && g[..6] == LegacyBase(b);
    assert a.chainId.Some? ==> f[6] == R.Int(a.chainId.value);
    assert b.chainId.Some? ==> g[6] == R.Int(b.chainId.value);
    hide AsWord, AsNat, AsDestination, Destination;
    forall i | 0 <= i < 6
      ensures LegacyBase(a)[i] == LegacyBase(b)[i]
    {
    }
    WordBack(a.nonce);
    WordBack(b.nonce);
    WordBack(a.gasPrice);
    WordBack(b.gasPrice);
    WordBack(a.gasLimit);
    WordBack(b.gasLimit);
    DestinationBack(a.to);
    DestinationBack(b.to);
    WordBack(a.value);
    WordBack(b.value);
    if a.chainId.Some? && b.chainId.Some? {
      NatBack(a.chainId.value);
      NatBack(b.chainId.value);
    }
  }

  lemma TypedBinds(a: Eip1559Transaction, b: Eip1559Transaction)
    requires TypedBase(a) == TypedBase(b)
    ensures a.(signature := None) == b.(signature := None)
  {
    hide AsNat, AsWord, AsDestination, AsEntries, Destination, EntryValues;
    var f, g := TypedBase(a), TypedBase(b);
    assert forall i :: 0 <= i < 9 ==> f[i] == g[i];
    NatBack(a.chainId);
    NatBack(b.chainId);
    WordBack(a.nonce);
    WordBack(b.nonce);
    WordBack(a.maxPriorityFee);
    WordBack(b.maxPriorityFee);
    WordBack(a.maxFee);
    WordBack(b.maxFee);
    WordBack(a.gasLimit);
    WordBack(b.gasLimit);
    DestinationBack(a.to);
    DestinationBack(b.to);
    WordBack(a.value);
    WordBack(b.value);
    EntriesBack(a.accessList);
    EntriesBack(b.accessList);
  }

  lemma ProofBinds(p: Proof, inputs: seq<Word>, q: Proof, others: seq<Word>)
    requires ProofValues(p, inputs) == ProofValues(q, others)
    ensures p == q && inputs == others
  {
    hide AsInputs, InputValues;
    var f, g := ProofValues(p, inputs), ProofValues(q, others);
    assert f[0] == g[0] && f[1] == g[1] && f[2] == g[2];
    NatBack(ProofNumber(p.proofType));
    NatBack(ProofNumber(q.proofType));
    InputsBack(inputs);
    InputsBack(others);
  }
}
