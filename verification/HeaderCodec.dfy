/** Block headers as lists of fifteen or sixteen fields. */
module HeaderCodec {
  import opened Bytes
  import opened Evm
  import opened Blocks
  import opened FieldCodec
  import R = Rlp

  function Fields(h: Header): (f: seq<R.Value>)
    ensures |f| == if h.baseFee.None? then 15 else 16
  {
    [R.Str(h.parentHash), R.Str(h.ommersHash), R.Str(ToBytes(h.coinbase, 20)), R.Str(h.stateRoot),
     R.Str(h.transactionsRoot), R.Str(h.receiptsRoot), R.Str(h.logsBloom), R.Int(h.difficulty), R.Int(h.number),
     R.Int(h.gasLimit), R.Int(h.gasUsed), R.Int(h.timestamp), R.Str(h.extraData), R.Str(h.mixHash), R.Str(h.nonce)]
    + if h.baseFee.None? then [] else [R.Int(h.baseFee.value)]
  }

  function Encode(h: Header): seq<Byte>
    requires R.Fits(R.List(Fields(h)))
  {
    R.Encode(R.List(Fields(h)))
  }

  function AsDigest(v: R.Value): Option<Digest> {
    if v.Str? && |v.payload| == 32 then Some(v.payload) else None
  }

  /** `None` when the fields are malformed or the constructor refuses the header. */
  function FromFields(f: seq<R.Value>): Option<Header> {
    if |f| != 15 && |f| != 16 then None
    else
      var parentHash :- AsDigest(f[0]);
      var ommersHash :- AsDigest(f[1]);
      var coinbase :- AsAddress(f[2]);
      var stateRoot :- AsDigest(f[3]);
      var transactionsRoot :- AsDigest(f[4]);
      var receiptsRoot :- AsDigest(f[5]);
      var bloom :- AsBytes(f[6]);
      var difficulty :- AsNat(f[7]);
      var number :- AsNat(f[8]);
      var gasLimit :- AsNat(f[9]);
      var gasUsed :- AsNat(f[10]);
      var timestamp :- AsNat(f[11]);
      var extraData :- AsBytes(f[12]);
      var mixHash :- AsDigest(f[13]);
      var nonce :- AsBytes(f[14]);
      if |bloom| != 256 || (|f| == 16 && f[15].List?) then None
      else
        var baseFee := if |f| == 16 then AsNat(f[15]) else None;
        var h := Header(parentHash, ommersHash, coinbase, stateRoot, transactionsRoot, receiptsRoot, bloom, difficulty,
                        number, gasLimit, gasUsed, timestamp, extraData, mixHash, nonce, baseFee);
        if WellFormed(h) then Some(h) else None
  }

  function Decode(data: seq<Byte>): Option<Header> {
    match R.Decode(data)
    case Fail(_) => None
    case Ok(v) => if v.List? then FromFields(v.items) else None
  }

  lemma FieldsBack(h: Header)
    requires WellFormed(h)
    ensures FromFields(Fields(h)) == Some(h)
  {
    hide AsNat, AsAddress, Minimal, WellFormed, ToBytes;
    AddressBack(h.coinbase);
    NatBack(h.difficulty);
    NatBack(h.number);
    NatBack(h.gasLimit);
    NatBack(h.gasUsed);
    NatBack(h.timestamp);
    if h.baseFee.Some? {
      NatBack(h.baseFee.value);
    }
    SizesOf(h);
  }

  lemma SizesOf(h: Header)
    requires WellFormed(h)
    ensures |h.extraData| <= 32 && |h.nonce| == 8 && |h.logsBloom| == 256
  {
  }

  /** No number in the header takes exactly 55 bytes. */
  predicate NumbersAvoid55(h: Header) {
    && |Minimal(h.difficulty)| != 55 && |Minimal(h.number)| != 55 && |Minimal(h.gasLimit)| != 55
    && |Minimal(h.gasUsed)| != 55 && |Minimal(h.timestamp)| != 55
    && (h.baseFee.Some? ==> |Minimal(h.baseFee.value)| != 55)
  }

  lemma {:induction false} AllAvoid(items: seq<R.Value>)
    ensures R.AllAvoid55(items) <==> forall i :: 0 <= i < |items| ==> R.Avoids55(items[i])
  {
    hide R.Avoids55;
    if items != [] {
      AllAvoid(items[1..]);
      assert forall i :: 1 <= i < |items| ==> items[i] == items[1..][i - 1];
    }
  }

  lemma {:induction false} PayloadCovers(items: seq<R.Value>, i: nat)
    requires i < |items|
    ensures R.PayloadSize(items) >= R.Size(items[i])
  {
    if i > 0 {
      PayloadCovers(items[1..], i - 1);
    }
  }

  /** Only the numbers of a header can be 55 bytes long: the bloom alone makes the list longer. */
  lemma HeaderAvoids55(h: Header)
    requires WellFormed(h)
    ensures R.Avoids55(R.List(Fields(h))) <==> NumbersAvoid55(h)
  {
    hide R.PayloadSize, R.Size, R.AllAvoid55;
    var f := Fields(h);
    SizesOf(h);
    AllAvoid(f);
    PayloadCovers(f, 6);
    BloomSize(h.logsBloom);
    assert f[6] == R.Str(h.logsBloom);
    FieldLengths(h);
  }

  lemma BloomSize(bloom: Bloom)
    ensures R.Size(R.Str(bloom)) >= 256
  {
  }

  lemma FieldLengths(h: Header)
    requires WellFormed(h)
    ensures (forall i :: 0 <= i < |Fields(h)| ==> R.Avoids55(Fields(h)[i])) <==> NumbersAvoid55(h)
  {
    hide ToBytes;
    var f := Fields(h);
    assert f[7] == R.Int(h.difficulty) && f[8] == R.Int(h.number) && f[9] == R.Int(h.gasLimit);
    assert f[10] == R.Int(h.gasUsed) && f[11] == R.Int(h.timestamp);
    assert h.baseFee.Some? ==> f[15] == R.Int(h.baseFee.value);
  }

  /** Every constructible header is read back as itself exactly if none of its numbers takes 55 bytes. */
  lemma RoundTrip(h: Header)
    requires WellFormed(h) && R.Fits(R.List(Fields(h)))
    ensures Decode(Encode(h)) == Some(h) <==> NumbersAvoid55(h)
  {
    hide R.Decode, R.Encode, R.Avoids55, R.Fits, FromFields, Fields, WellFormed;
    R.DecodeEncode(R.List(Fields(h)));
    FieldsBack(h);
    HeaderAvoids55(h);
  }

  /** In particular every header whose numbers are words. */
  lemma WordHeadersRoundTrip(h: Header)
    requires WellFormed(h) && R.Fits(R.List(Fields(h)))
    requires h.difficulty < MODULUS && h.number < MODULUS && h.gasLimit < MODULUS && h.timestamp < MODULUS
    requires h.baseFee.Some? ==> h.baseFee.value < MODULUS
    ensures Decode(Encode(h)) == Some(h)
  {
    hide R.Fits, Fields, Encode, Decode;
    RoundTrip(h);
    WordFits(h.difficulty);
    WordFits(h.number);
    WordFits(h.gasLimit);
    WordFits(h.gasUsed);
    WordFits(h.timestamp);
    if h.baseFee.Some? {
      WordFits(h.baseFee.value);
    }
  }
}
