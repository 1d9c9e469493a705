/** Reading single fields of a decoded list: byte strings, numbers and addresses. */
module FieldCodec {
  import opened Bytes
  import opened Evm
  import R = Rlp

  function AsBytes(v: R.Value): Option<seq<Byte>> {
    if v.Str? then Some(v.payload) else None
  }

  function AsNat(v: R.Value): Option<nat> {
    if v.Str? then Some(FromBytes(v.payload)) else None
  }

  function AsAddress(v: R.Value): Option<Address> {
    if v.Str? && |v.payload| == 20 then
      ToFromBytes(v.payload);
      WordPower();
      Some(FromBytes(v.payload))
    else None
  }

  lemma NatBack(n: nat)
    ensures AsNat(R.Int(n)) == Some(n)
  {
    FromMinimal(n);
  }

  lemma AddressBack(a: Address)
    ensures AsAddress(R.Str(ToBytes(a, 20))) == Some(a)
  {
    WordPower();
    FromToBytes(a, 20);
  }
}
