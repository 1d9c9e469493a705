/** Recursive length prefix encoding: Appendix B of the Ethereum Yellow Paper, as the encoder and decoder implement it. */
module Rlp {
  import opened Bytes

  /** A byte string, or a list of values. */
  datatype Value = Str(payload: seq<Byte>) | List(items: seq<Value>)

  datatype Error =
    | UnexpectedEnd
    | TruncatedLength
    | NonCanonicalLength
    | TruncatedPayload
    | NonCanonicalSingleByte
    | ListLengthMismatch
    | EmptyInput
    | TrailingBytes

  datatype Result<+T> = Ok(value: T) | Fail(error: Error) {
    predicate IsFailure() { Fail? }
    function PropagateFailure<U>(): Result<U>
      requires Fail?
    {
      Fail(error)
    }
    function Extract(): T
      requires Ok?
    {
      value
    }
  }

  const STRING_BASE: Byte := 0x80
  const LIST_BASE: Byte := 0xC0

  /** Above every length a byte string can have in memory. */
  const MAX_LENGTH: int := 0x1_0000_0000_0000_0000

  // ---------------------------------------------------------------------------------------------
  // Sizes
  // ---------------------------------------------------------------------------------------------

  function HeaderSize(length: nat): (n: nat)
    ensures n > 0
  {
    if length <= 55 then 1 else 1 + |Minimal(length)|
  }

  function Size(v: Value): (n: nat)
    ensures n > 0
    decreases v, 1
  {
    match v
    case Str(s) => if |s| == 1 && s[0] < 0x80 then 1 else HeaderSize(|s|) + |s|
    case List(items) => HeaderSize(PayloadSize(items)) + PayloadSize(items)
  }

  function PayloadSize(items: seq<Value>): nat
    decreases items, 0
  {
    if items == [] then 0 else Size(items[0]) + PayloadSize(items[1..])
  }

  /** Every string and every list payload is shorter than 2^64 bytes. */
  predicate Fits(v: Value)
    decreases v, 1
  {
    match v
    case Str(s) => |s| < MAX_LENGTH
    case List(items) => PayloadSize(items) < MAX_LENGTH && AllFit(items)
  }

  predicate AllFit(items: seq<Value>)
    decreases items, 0
  {
    items == [] || (Fits(items[0]) && AllFit(items[1..]))
  }

  lemma {:induction false} LengthOfLength(length: nat)
    requires 55 < length < MAX_LENGTH
    ensures 1 <= |Minimal(length)| <= 8
  {
    assert Pow256(8) == MAX_LENGTH by {
      assert Pow256(4) == 0x1_0000_0000;
    }
    MinimalLength(length, 8);
  }

  // ---------------------------------------------------------------------------------------------
  // Encoding
  // ---------------------------------------------------------------------------------------------

  /** The prefix of a payload: one byte up to 55 bytes of payload, otherwise a length of length and the length. */
  function Header(base: Byte, length: nat): (h: seq<Byte>)
    requires base in {STRING_BASE, LIST_BASE} && length < MAX_LENGTH
    ensures |h| == HeaderSize(length)
  {
    if length <= 55 then [base + length]
    else
      LengthOfLength(length);
      [base + 55 + |Minimal(length)|] + Minimal(length)
  }

  function EncodeBytes(s: seq<Byte>): (e: seq<Byte>)
    requires |s| < MAX_LENGTH
    ensures |e| == Size(Str(s))
  {
    if |s| == 1 && s[0] < 0x80 then s else Header(STRING_BASE, |s|) + s
  }

  function Encode(v: Value): (e: seq<Byte>)
    requires Fits(v)
    ensures |e| == Size(v)
    decreases v, 1
  {
    match v
    case Str(s) => EncodeBytes(s)
    case List(items) => Header(LIST_BASE, PayloadSize(items)) + EncodeItems(items)
  }

  function EncodeItems(items: seq<Value>): (e: seq<Byte>)
    requires AllFit(items)
    ensures |e| == PayloadSize(items)
    decreases items, 0
  {
    if items == [] then [] else Encode(items[0]) + EncodeItems(items[1..])
  }

  /** Integers are encoded as their shortest big-endian byte string. */
  function Int(v: nat): Value {
    Str(Minimal(v))
  }

  // ---------------------------------------------------------------------------------------------
  // Decoding
  // ---------------------------------------------------------------------------------------------

  /** The payload length and payload offset announced by `prefix`; `longBase` itself is read as a long form. */
  function DecodeLength(data: seq<Byte>, offset: nat, prefix: Byte, shortBase: Byte, longBase: Byte)
    : (r: Result<(nat, nat)>)
    requires offset < |data| && shortBase <= prefix && shortBase <= longBase
    ensures r.Ok? ==> offset < r.value.1 <= |data|
  {
    if prefix < longBase then
      Ok((prefix - shortBase, offset + 1))
    else
      var start := offset + 1;
      var end := start + (prefix - longBase);
      if end > |data| then Fail(TruncatedLength)
      else
        var lengthBytes := data[start..end];
        if lengthBytes == [] || lengthBytes[0] == 0 then Fail(NonCanonicalLength)
        else Ok((FromBytes(lengthBytes), end))
  }

  /** Where the payload of the string or list at `offset` starts and ends. */
  function DecodePayload(data: seq<Byte>, offset: nat, base: Byte): (r: Result<(nat, nat)>)
    requires offset < |data| && base <= data[offset] && base in {STRING_BASE, LIST_BASE}
    ensures r.Ok? ==> offset < r.value.0 <= r.value.1 <= |data|
  {
    var prefix := data[offset];
    var (length, start) :- DecodeLength(data, offset, prefix, base, base + 55);
    if prefix > base + 55 && length <= 55 then Fail(NonCanonicalLength)
    else if start + length > |data| then Fail(TruncatedPayload)
    else Ok((start, start + length))
  }

  /** One item starting at `offset`, and the offset just after it. */
  function DecodeItem(data: seq<Byte>, offset: nat): (r: Result<(Value, nat)>)
    ensures r.Ok? ==> offset < r.value.1 <= |data|
    decreases |data| - offset, 0
  {
    if offset >= |data| then Fail(UnexpectedEnd)
    else
      var prefix := data[offset];
      if prefix <= 0x7F then Ok((Str([prefix]), offset + 1))
      else if prefix <= 0xBF then
        var (start, end) :- DecodePayload(data, offset, 0x80);
        var payload := data[start..end];
        if prefix <= 0xB7 && |payload| == 1 && payload[0] < 0x80 then Fail(NonCanonicalSingleByte)
        else Ok((Str(payload), end))
      else
        var (start, end) :- DecodePayload(data, offset, 0xC0);
        var (items, cursor) :- DecodeItems(data, start, end);
        if cursor != end then Fail(ListLengthMismatch) else Ok((List(items), cursor))
  }

  /** Items from `cursor` on until the cursor reaches or passes `end`. */
  function DecodeItems(data: seq<Byte>, cursor: nat, end: nat): (r: Result<(seq<Value>, nat)>)
    requires cursor <= |data| && end <= |data|
    ensures r.Ok? ==> cursor <= r.value.1 <= |data| && end <= r.value.1
    decreases |data| - cursor, 1
  {
    if cursor >= end then Ok(([], cursor))
    else
      var (item, next) :- DecodeItem(data, cursor);
      var (rest, last) :- DecodeItems(data, next, end);
      Ok(([item] + rest, last))
  }

  function Decode(data: seq<Byte>): Result<Value> {
    if data == [] then Fail(EmptyInput)
    else
      var (v, end) :- DecodeItem(data, 0);
      if end != |data| then Fail(TrailingBytes) else Ok(v)
  }

  // ---------------------------------------------------------------------------------------------
  // The decoder as a cursor loop
  // ---------------------------------------------------------------------------------------------

  /** Items already read, put in front of what the rest of the payload decodes to. */
  function Prepend(items: seq<Value>, r: Result<(seq<Value>, nat)>): Result<(seq<Value>, nat)> {
    match r
    case Fail(e) => Fail(e)
    case Ok((rest, last)) => Ok((items + rest, last))
  }

  lemma PrependNothing(r: Result<(seq<Value>, nat)>)
    ensures Prepend([], r) == r
  {
    if r.Ok? {
      assert [] + r.value.0 == r.value.0;
    }
  }

  lemma PrependItem(items: seq<Value>, item: Value, r: Result<(seq<Value>, nat)>)
    ensures Prepend(items, Prepend([item], r)) == Prepend(items + [item], r)
  {
    if r.Ok? {
      assert items + ([item] + r.value.0) == items + [item] + r.value.0;
    }
  }

  method ParseItem(data: seq<Byte>, offset: nat) returns (r: Result<(Value, nat)>)
    ensures r == DecodeItem(data, offset)
    decreases |data| - offset
  {
    if offset >= |data| {
      return Fail(UnexpectedEnd);
    }
    var prefix := data[offset];
    if prefix <= 0x7F {
      return Ok((Str([prefix]), offset + 1));
    }
    if prefix <= 0xBF {
      var header :- DecodeLength(data, offset, prefix, 0x80, 0xB7);
      var (length, start) := header;
      if prefix > 0xB7 && length <= 55 {
        return Fail(NonCanonicalLength);
      }
      var end := start + length;
      if end > |data| {
        return Fail(TruncatedPayload);
      }
      var payload := data[start..end];
      if prefix <= 0xB7 && length == 1 && payload[0] < 0x80 {
        return Fail(NonCanonicalSingleByte);
      }
      return Ok((Str(payload), end));
    }
    var header :- DecodeLength(data, offset, prefix, 0xC0, 0xF7);
    var (length, start) := header;
    if prefix > 0xF7 && length <= 55 {
      return Fail(NonCanonicalLength);
    }
    var end := start + length;
    if end > |data| {
      return Fail(TruncatedPayload);
    }
    var items: seq<Value> := [];
    var cursor := start;
    PrependNothing(DecodeItems(data, start, end));
    while cursor < end
      invariant start <= cursor <= |data|
      invariant DecodeItems(data, start, end) == Prepend(items, DecodeItems(data, cursor, end))
      decreases |data| - cursor
    {
      var step :- ParseItem(data, cursor);
      var (item, next) := step;
      PrependItem(items, item, DecodeItems(data, next, end));
      items := items + [item];
      cursor := next;
    }
    assert items + [] == items;
    if cursor != end {
      return Fail(ListLengthMismatch);
    }
    return Ok((List(items), end));
  }

  method Parse(data: seq<Byte>) returns (r: Result<Value>)
    ensures r == Decode(data)
  {
    if data == [] {
      return Fail(EmptyInput);
    }
    var item :- ParseItem(data, 0);
    var (v, end) := item;
    if end != |data| {
      return Fail(TrailingBytes);
    }
    return Ok(v);
  }

  // ---------------------------------------------------------------------------------------------
  // Round trips
  // ---------------------------------------------------------------------------------------------

  /** No string and no list anywhere in `v` has a payload of exactly 55 bytes. */
  predicate Avoids55(v: Value)
    decreases v, 1
  {
    match v
    case Str(s) => |s| != 55
    case List(items) => PayloadSize(items) != 55 && AllAvoid55(items)
  }

  predicate AllAvoid55(items: seq<Value>)
    decreases items, 0
  {
    items == [] || (Avoids55(items[0]) && AllAvoid55(items[1..]))
  }

  /** `part` occurs in `data` at `offset`. */
  predicate At(data: seq<Byte>, offset: nat, part: seq<Byte>)
    ensures At(data, offset, part) ==> offset + |part| <= |data|
  {
    offset + |part| <= |data| && forall i :: 0 <= i < |part| ==> part[i] == data[offset + i]
  }

  lemma AtSlice(data: seq<Byte>, offset: nat, part: seq<Byte>)
    requires offset + |part| <= |data|
    ensures At(data, offset, part) <==> data[offset..offset + |part|] == part
  {
    if At(data, offset, part) {
      assert data[offset..offset + |part|] == part;
    } else {
      var i :| 0 <= i < |part| && part[i] != data[offset + i];
      assert data[offset..offset + |part|][i] != part[i];
    }
  }

  lemma AtSplit(data: seq<Byte>, offset: nat, left: seq<Byte>, right: seq<Byte>)
    requires At(data, offset, left + right)
    ensures At(data, offset, left) && At(data, offset + |left|, right)
  {
    var all := left + right;
    forall i | 0 <= i < |left|
      ensures left[i] == data[offset + i]
    {
      assert left[i] == all[i];
    }
    forall i | 0 <= i < |right|
      ensures right[i] == data[offset + |left| + i]
    {
      assert right[i] == all[|left| + i];
    }
  }

  lemma AtJoin(data: seq<Byte>, offset: nat, left: seq<Byte>, right: seq<Byte>)
    requires At(data, offset, left) && At(data, offset + |left|, right)
    ensures At(data, offset, left + right)
  {
  }

  /** Reading a header back: exact, except that a 55-byte payload is refused. */
  lemma DecodeHeader(data: seq<Byte>, offset: nat, base: Byte, length: nat)
    requires base in {STRING_BASE, LIST_BASE} && length < MAX_LENGTH
    requires At(data, offset, Header(base, length)) && offset + HeaderSize(length) + length <= |data|
    ensures offset < |data| && base <= data[offset] && (base == STRING_BASE ==> data[offset] <= 0xBF)
    ensures length <= 55 <==> data[offset] <= base + 55
    ensures var start := offset + HeaderSize(length);
      DecodePayload(data, offset, base) == if length == 55 then Fail(NonCanonicalLength) else Ok((start, start + length))
  {
    hide Minimal, FromBytes;
    var h := Header(base, length);
    assert data[offset] == data[offset + 0] == h[0];
    if length > 55 {
      hide At;
      LengthOfLength(length);
      var m := Minimal(length);
      assert h == [h[0]] + m;
      AtSplit(data, offset, [h[0]], m);
      AtSlice(data, offset + 1, m);
      FromMinimal(length);
    }
  }

  lemma DecodeEncodedString(s: seq<Byte>, data: seq<Byte>, offset: nat)
    requires |s| < MAX_LENGTH && At(data, offset, EncodeBytes(s))
    ensures |s| != 55 ==> DecodeItem(data, offset) == Ok((Str(s), offset + Size(Str(s))))
    ensures |s| == 55 ==> DecodeItem(data, offset).Fail?
  {
    hide At, Header, HeaderSize, DecodePayload;
    if |s| == 1 && s[0] < 0x80 {
      AtSlice(data, offset, s);
      assert s == [s[0]] == [data[offset]];
    } else {
      AtSplit(data, offset, Header(STRING_BASE, |s|), s);
      DecodeHeader(data, offset, STRING_BASE, |s|);
      AtSlice(data, offset + HeaderSize(|s|), s);
    }
  }

  /** Decoding at an occurrence of Encode(v) gives v back exactly when v avoids 55-byte payloads, else an error. */
  lemma {:induction false} DecodeEncodedItem(v: Value, data: seq<Byte>, offset: nat)
    requires Fits(v) && At(data, offset, Encode(v))
    ensures Avoids55(v) ==> DecodeItem(data, offset) == Ok((v, offset + Size(v)))
    ensures !Avoids55(v) ==> DecodeItem(data, offset).Fail?
    decreases v, 1
  {
    hide At, Header, HeaderSize, DecodePayload;
    match v
    case Str(s) => DecodeEncodedString(s, data, offset);
    case List(items) =>
      var n := PayloadSize(items);
      assert Encode(v) == Header(LIST_BASE, n) + EncodeItems(items);
      AtSplit(data, offset, Header(LIST_BASE, n), EncodeItems(items));
      DecodeHeader(data, offset, LIST_BASE, n);
      if n != 55 {
        DecodeEncodedItems(items, data, offset + HeaderSize(n));
      }
  }

  lemma {:induction false} DecodeEncodedItems(items: seq<Value>, data: seq<Byte>, cursor: nat)
    requires AllFit(items) && At(data, cursor, EncodeItems(items))
    ensures var end := cursor + PayloadSize(items);
      && (AllAvoid55(items) ==> DecodeItems(data, cursor, end) == Ok((items, end)))
      && (!AllAvoid55(items) ==> DecodeItems(data, cursor, end).Fail?)
    decreases items, 0
  {
    hide At, DecodeItem, Encode, Size, Fits, Avoids55;
    if items != [] {
      AtSplit(data, cursor, Encode(items[0]), EncodeItems(items[1..]));
      DecodeEncodedItem(items[0], data, cursor);
      DecodeEncodedItems(items[1..], data, cursor + Size(items[0]));
      assert [items[0]] + items[1..] == items;
    }
  }

  /** decode(encode(v)) == v exactly when v contains no 55-byte payload. */
  lemma DecodeEncode(v: Value)
    requires Fits(v)
    ensures Decode(Encode(v)) == Ok(v) <==> Avoids55(v)
    ensures Decode(Encode(v)).Ok? ==> Decode(Encode(v)) == Ok(v)
  {
    DecodeEncodedItem(v, Encode(v), 0);
  }

  /** A payload that was accepted is preceded by its own header, and is not 55 bytes long. */
  lemma HeaderOfDecoded(data: seq<Byte>, offset: nat, base: Byte, start: nat, end: nat)
    requires base in {STRING_BASE, LIST_BASE} && offset < |data| < MAX_LENGTH
    requires base <= data[offset] <= base + 63
    requires DecodePayload(data, offset, base) == Ok((start, end))
    ensures At(data, offset, Header(base, end - start))
    ensures start == offset + HeaderSize(end - start) && end - start != 55
    ensures data[offset] <= base + 55 <==> end - start <= 55
  {
    hide Minimal, FromBytes;
    var prefix := data[offset];
    if prefix < base + 55 {
      assert Header(base, end - start) == [prefix];
    } else {
      hide At;
      AtSlice(data, offset, [prefix]);
      var bytes := data[offset + 1..start];
      assert end - start == FromBytes(bytes) && bytes != [] && bytes[0] != 0;
      MinimalFrom(bytes);
      assert Header(base, end - start) == [prefix] + bytes;
      AtSlice(data, offset + 1, bytes);
      AtJoin(data, offset, [prefix], bytes);
    }
  }

  lemma EncodeDecodedString(data: seq<Byte>, offset: nat)
    requires offset < |data| < MAX_LENGTH && data[offset] <= 0xBF && DecodeItem(data, offset).Ok?
    ensures var (v, end) := DecodeItem(data, offset).value;
      v.Str? && |v.payload| < MAX_LENGTH && |v.payload| != 55
      && At(data, offset, EncodeBytes(v.payload)) && offset + Size(v) == end
  {
    hide At, Header, HeaderSize, DecodePayload;
    var (v, end) := DecodeItem(data, offset).value;
    var s := v.payload;
    if data[offset] <= 0x7F {
      AtSlice(data, offset, s);
    } else {
      var (start, _) := DecodePayload(data, offset, STRING_BASE).value;
      HeaderOfDecoded(data, offset, STRING_BASE, start, end);
      AtSlice(data, start, s);
      AtJoin(data, offset, Header(STRING_BASE, |s|), s);
    }
  }

  lemma EncodeDecodedList(data: seq<Byte>, offset: nat, items: seq<Value>, start: nat, end: nat)
    requires offset < |data| < MAX_LENGTH && data[offset] > 0xBF
    requires DecodePayload(data, offset, LIST_BASE) == Ok((start, end))
    requires AllFit(items) && AllAvoid55(items) && At(data, start, EncodeItems(items)) && start + PayloadSize(items) == end
    ensures Fits(List(items)) && Avoids55(List(items))
    ensures At(data, offset, Encode(List(items))) && offset + Size(List(items)) == end
  {
    hide At, Header, HeaderSize, DecodePayload;
    HeaderOfDecoded(data, offset, LIST_BASE, start, end);
    AtJoin(data, offset, Header(LIST_BASE, end - start), EncodeItems(items));
    assert Encode(List(items)) == Header(LIST_BASE, end - start) + EncodeItems(items);
  }

  lemma {:induction false} EncodeDecodedItem(data: seq<Byte>, offset: nat)
    requires |data| < MAX_LENGTH
    ensures var r := DecodeItem(data, offset);
      r.Ok? ==>
        && Fits(r.value.0) && Avoids55(r.value.0)
        && At(data, offset, Encode(r.value.0)) && offset + Size(r.value.0) == r.value.1
    decreases |data| - offset, 0
  {
    hide At, DecodePayload, HeaderSize, Header;
    var r := DecodeItem(data, offset);
    if r.Ok? {
      if data[offset] <= 0xBF {
        EncodeDecodedString(data, offset);
      } else {
        var (start, end) := DecodePayload(data, offset, LIST_BASE).value;
        EncodeDecodedItems(data, start, end);
        EncodeDecodedList(data, offset, r.value.0.items, start, end);
      }
    }
  }

  lemma {:induction false} EncodeDecodedItems(data: seq<Byte>, cursor: nat, end: nat)
    requires cursor <= |data| && end <= |data| < MAX_LENGTH
    ensures var r := DecodeItems(data, cursor, end);
      r.Ok? ==>
        && AllFit(r.value.0) && AllAvoid55(r.value.0)
        && At(data, cursor, EncodeItems(r.value.0)) && cursor + PayloadSize(r.value.0) == r.value.1
    decreases |data| - cursor, 1
  {
    hide At, DecodeItem, Encode, Size, Fits, Avoids55;
    var r := DecodeItems(data, cursor, end);
    if r.Ok? {
      if cursor >= end {
        AtSlice(data, cursor, []);
      } else {
        EncodeDecodedItem(data, cursor);
        var (item, next) := DecodeItem(data, cursor).value;
        EncodeDecodedItems(data, next, end);
        var rest := DecodeItems(data, next, end).value.0;
        AtJoin(data, cursor, Encode(item), EncodeItems(rest));
        assert r.value.0 == [item] + rest && r.value.0[1..] == rest;
      }
    }
  }

  /** encode(decode(b)) == b for every accepted b, and nothing accepted holds a 55-byte payload. */
  lemma EncodeDecode(data: seq<Byte>)
    requires |data| < MAX_LENGTH && Decode(data).Ok?
    ensures Fits(Decode(data).value) && Avoids55(Decode(data).value) && Encode(Decode(data).value) == data
  {
    EncodeDecodedItem(data, 0);
    AtSlice(data, 0, Encode(Decode(data).value));
    assert data[0..|data|] == data;
  }

  /** The smallest failing input: a string of 55 bytes is encoded but never read back. */
  lemma FiftyFiveBytesAreLost()
    ensures var v := Str(Zeros(55)); Fits(v) && Decode(Encode(v)).Fail?
  {
    DecodeEncode(Str(Zeros(55)));
  }

  // ---------------------------------------------------------------------------------------------
  // Injectivity: holds for all values, 55-byte payloads included
  // ---------------------------------------------------------------------------------------------

  lemma HeaderPrefixFree(base: Byte, m: nat, n: nat, x: seq<Byte>, y: seq<Byte>)
    requires base in {STRING_BASE, LIST_BASE} && m < MAX_LENGTH && n < MAX_LENGTH
    requires Header(base, m) + x == Header(base, n) + y
    ensures m == n && x == y
  {
    var h, k := Header(base, m), Header(base, n);
    assert (h + x)[0] == (k + y)[0];
    if m > 55 { LengthOfLength(m); }
    if n > 55 { LengthOfLength(n); }
    assert |h| == |k|;
    assert h == (h + x)[..|h|] == (k + y)[..|k|] == k;
    assert x == (h + x)[|h|..] == (k + y)[|k|..] == y;
    if m > 55 {
      assert Minimal(m) == h[1..] == k[1..] == Minimal(n);
      FromMinimal(m);
      FromMinimal(n);
    }
  }

  /** The first byte tells single bytes, strings and lists apart. */
  lemma FirstByte(v: Value)
    requires Fits(v)
    ensures |Encode(v)| > 0
    ensures v.Str? && |v.payload| == 1 && v.payload[0] < 0x80 <==> Encode(v)[0] < 0x80
    ensures v.List? <==> Encode(v)[0] >= 0xC0
  {
    match v
    case Str(s) => if |s| > 55 { LengthOfLength(|s|); }
    case List(items) => if PayloadSize(items) > 55 { LengthOfLength(PayloadSize(items)); }
  }

  /** Prefix freeness for `header ++ payload` pairs under the same base. */
  lemma BlockPrefixFree(base: Byte, p: seq<Byte>, q: seq<Byte>, x: seq<Byte>, y: seq<Byte>)
    requires base in {STRING_BASE, LIST_BASE} && |p| < MAX_LENGTH && |q| < MAX_LENGTH
    requires Header(base, |p|) + p + x == Header(base, |q|) + q + y
    ensures p == q && x == y
  {
    hide Header, HeaderSize;
    var h, k := Header(base, |p|), Header(base, |q|);
    assert h + (p + x) == h + p + x && k + (q + y) == k + q + y;
    HeaderPrefixFree(base, |p|, |q|, p + x, q + y);
    assert p == (p + x)[..|p|] == (q + y)[..|q|] == q;
    assert x == (p + x)[|p|..] == (q + y)[|q|..] == y;
  }

  lemma {:induction false} EncodePrefixFree(v: Value, w: Value, x: seq<Byte>, y: seq<Byte>)
    requires Fits(v) && Fits(w) && Encode(v) + x == Encode(w) + y
    ensures v == w && x == y
    decreases v, 1
  {
    hide Header, HeaderSize;
    FirstByte(v);
    FirstByte(w);
    assert (Encode(v) + x)[0] == (Encode(w) + y)[0];
    if v.List? {
      BlockPrefixFree(LIST_BASE, EncodeItems(v.items), EncodeItems(w.items), x, y);
      ItemsInjective(v.items, w.items);
    } else if Encode(v)[0] < 0x80 {
      assert x == (Encode(v) + x)[1..] == (Encode(w) + y)[1..] == y;
    } else {
      BlockPrefixFree(STRING_BASE, v.payload, w.payload, x, y);
    }
  }

  lemma {:induction false} ItemsInjective(a: seq<Value>, b: seq<Value>)
    requires AllFit(a) && AllFit(b) && EncodeItems(a) == EncodeItems(b)
    ensures a == b
    decreases a, 0
  {
    if a != [] && b != [] {
      EncodePrefixFree(a[0], b[0], EncodeItems(a[1..]), EncodeItems(b[1..]));
      ItemsInjective(a[1..], b[1..]);
      assert a == [a[0]] + a[1..] && b == [b[0]] + b[1..];
    }
  }

  /** Two values with the same encoding are the same value. */
  lemma EncodeInjective(v: Value, w: Value)
    requires Fits(v) && Fits(w) && Encode(v) == Encode(w)
    ensures v == w
  {
    assert Encode(v) + [] == Encode(v) && Encode(w) + [] == Encode(w);
    EncodePrefixFree(v, w, [], []);
  }
}
