/** The protobuf wire layer (Protocol Buffers encoding guide, "Base 128 Varints" and "Message
    Structure"): varints, and the split of a message into tagged fields. */
module ProtoWire {
  import opened ByteStrings

  datatype WireError = TooLarge | InvalidEncoding | InvalidField | WrongType | InvalidScope

  const U64: nat := 0x1_0000_0000_0000_0000
  const U32: nat := 0x1_0000_0000

  // ---------------------------------------------------------------- varints

  function VarintBytes(n: nat): (s: seq<byte>)
    ensures |s| >= 1
  {
    if n < 128 then [n] else [n % 128 + 128] + VarintBytes(n / 128)
  }

  /** One past the largest value the bytes from position `k` of a 64-bit varint can hold. */
  function VarintLimit(k: nat): (n: nat)
    requires k <= 9
    ensures n >= 2 && (k < 9 ==> n >= 256)
    decreases 9 - k
  {
    if k == 9 then 2 else 128 * VarintLimit(k + 1)
  }

  lemma {:induction false} VarintLimitU64()
    ensures VarintLimit(0) == U64
  {
    assert VarintLimit(7) == 32768;
    assert VarintLimit(4) == 128 * 128 * 128 * VarintLimit(7);
    assert VarintLimit(2) == 128 * 128 * VarintLimit(4);
    assert VarintLimit(0) == 128 * 128 * VarintLimit(2);
  }

  datatype Read = Read(value: nat, used: nat)

  /** Read from position `k` of a varint: at most ten bytes, and the tenth at most 1. */
  function StrictVarint(bytes: seq<byte>, k: nat): (r: Option<Read>)
    requires k <= 10
    ensures r.Some? ==> 1 <= r.value.used <= |bytes|
    ensures r.Some? && k <= 9 ==> r.value.value < VarintLimit(k)
    decreases 10 - k
  {
    if k == 10 || |bytes| == 0 || (k == 9 && bytes[0] > 1) then None
    else if bytes[0] < 128 then Some(Read(bytes[0], 1))
    else match StrictVarint(bytes[1..], k + 1)
      case None => None
      case Some(r) => Some(Read(bytes[0] - 128 + 128 * r.value, r.used + 1))
  }

  /** Read from position `k` of a varint of at most ten bytes, whatever the tenth holds. */
  function LenientVarint(bytes: seq<byte>, k: nat): (r: Option<Read>)
    requires k <= 10
    ensures r.Some? ==> 1 <= r.value.used <= |bytes|
    decreases 10 - k
  {
    if k == 10 || |bytes| == 0 then None
    else if bytes[0] < 128 then Some(Read(bytes[0], 1))
    else match LenientVarint(bytes[1..], k + 1)
      case None => None
      case Some(r) => Some(Read(bytes[0] - 128 + 128 * r.value, r.used + 1))
  }

  /** Where the strict reader succeeds, the lenient one reads the same. */
  lemma {:induction false} LenientExtendsStrict(bytes: seq<byte>, k: nat)
    requires k <= 10 && StrictVarint(bytes, k).Some?
    ensures LenientVarint(bytes, k) == StrictVarint(bytes, k)
    decreases 10 - k
  {
    if bytes[0] >= 128 {
      LenientExtendsStrict(bytes[1..], k + 1);
    }
  }

  lemma {:induction false} ReadVarintBytes(n: nat, k: nat, rest: seq<byte>)
    requires k <= 9 && n < VarintLimit(k)
    ensures StrictVarint(VarintBytes(n) + rest, k) == Some(Read(n, |VarintBytes(n)|))
    decreases 9 - k
  {
    if n >= 128 {
      assert n / 128 < VarintLimit(k + 1);
      ReadVarintBytes(n / 128, k + 1, rest);
      assert (VarintBytes(n) + rest)[1..] == VarintBytes(n / 128) + rest;
    }
  }

  // ---------------------------------------------------------------- fields

  datatype Payload =
    | Varint(n: nat)
    | Fixed64(word: seq<byte>)
    | Delimited(data: seq<byte>)
    | Fixed32(word: seq<byte>)

  datatype RawField = RawField(tag: nat, payload: Payload)

  function WireType(p: Payload): nat {
    match p
    case Varint(_) => 0
    case Fixed64(_) => 1
    case Delimited(_) => 2
    case Fixed32(_) => 5
  }

  /** The payload that follows a key of the given wire type, and how many bytes it takes. */
  function ReadPayload(wire: nat, bytes: seq<byte>): (r: Option<(Payload, nat)>)
    ensures r.Some? ==> 1 <= r.value.1 <= |bytes| && WireType(r.value.0) == wire
    ensures r.Some? && r.value.0.Delimited? ==> |r.value.0.data| < r.value.1
    ensures r.Some? && r.value.0.Varint? ==> r.value.0.n < U64
  {
    VarintLimitU64();
    match wire
    case 0 => (
      match StrictVarint(bytes, 0)
      case None => None
      case Some(n) => Some((Varint(n.value), n.used))
    )
    case 1 => if |bytes| < 8 then None else Some((Fixed64(bytes[..8]), 8))
    case 2 => (
      match StrictVarint(bytes, 0)
      case None => None
      case Some(len) =>
        if |bytes| - len.used < len.value then None
        else Some((Delimited(bytes[len.used..len.used + len.value]), len.used + len.value))
    )
    case 5 => if |bytes| < 4 then None else Some((Fixed32(bytes[..4]), 4))
    case _ => None
  }

  /** The field that starts `bytes`, and how many bytes it takes (groups are refused). */
  function NextField(bytes: seq<byte>): (r: Result<(RawField, nat), WireError>)
    ensures r.Ok? ==> 2 <= r.value.1 <= |bytes| && r.value.0.tag >= 1
    ensures r.Ok? && r.value.0.payload.Delimited? ==> |r.value.0.payload.data| < r.value.1
    ensures r.Ok? && r.value.0.payload.Varint? ==> r.value.0.payload.n < U64
    ensures r.Err? ==> r.error == InvalidEncoding
  {
    match StrictVarint(bytes, 0)
    case None => Err(InvalidEncoding)
    case Some(key) =>
      if key.value / 8 == 0 then Err(InvalidEncoding)
      else match ReadPayload(key.value % 8, bytes[key.used..])
        case None => Err(InvalidEncoding)
        case Some((payload, used)) => Ok((RawField(key.value / 8, payload), key.used + used))
  }

  function EncodePayload(p: Payload): seq<byte> {
    match p
    case Varint(n) => VarintBytes(n)
    case Fixed64(word) => word
    case Delimited(data) => VarintBytes(|data|) + data
    case Fixed32(word) => word
  }

  function EncodeField(f: RawField): seq<byte> {
    VarintBytes(8 * f.tag + WireType(f.payload)) + EncodePayload(f.payload)
  }

  function EncodeFields(fs: seq<RawField>): seq<byte> {
    if fs == [] then [] else EncodeField(fs[0]) + EncodeFields(fs[1..])
  }

  /** The fields of a message, or nothing if it is not a sequence of fields. */
  function ParseFields(bytes: seq<byte>): Option<seq<RawField>>
    decreases |bytes|
  {
    if |bytes| == 0 then Some([])
    else match NextField(bytes)
      case Err(_) => None
      case Ok((f, used)) =>
        match ParseFields(bytes[used..])
        case None => None
        case Some(fs) => Some([f] + fs)
  }

  predicate ValidPayload(p: Payload) {
    match p
    case Varint(n) => n < U64
    case Delimited(data) => |data| < U64
    case Fixed64(word) => |word| == 8
    case Fixed32(word) => |word| == 4
  }

  predicate ValidField(f: RawField) {
    1 <= f.tag && 8 * f.tag + 7 < U64 && ValidPayload(f.payload)
  }

  lemma {:induction false} ReadPayloadOfEncode(p: Payload, rest: seq<byte>)
    requires ValidPayload(p)
    ensures ReadPayload(WireType(p), EncodePayload(p) + rest) == Some((p, |EncodePayload(p)|))
  {
    VarintLimitU64();
    match p
    case Varint(n) =>
      ReadVarintBytes(n, 0, rest);
    case Delimited(data) =>
      assert EncodePayload(p) + rest == VarintBytes(|data|) + (data + rest);
      ReadVarintBytes(|data|, 0, data + rest);
    case Fixed64(_) =>
    case Fixed32(_) =>
  }

  lemma {:induction false} NextFieldOfEncode(f: RawField, rest: seq<byte>)
    requires ValidField(f)
    ensures NextField(EncodeField(f) + rest) == Ok((f, |EncodeField(f)|))
  {
    hide StrictVarint, ReadPayload, EncodePayload, VarintBytes;
    VarintLimitU64();
    var key := 8 * f.tag + WireType(f.payload);
    var tail := EncodePayload(f.payload) + rest;
    assert EncodeField(f) + rest == VarintBytes(key) + tail;
    ReadVarintBytes(key, 0, tail);
    assert (EncodeField(f) + rest)[|VarintBytes(key)|..] == tail;
    ReadPayloadOfEncode(f.payload, rest);
  }

  predicate ValidFields(fs: seq<RawField>) {
    forall i :: 0 <= i < |fs| ==> ValidField(fs[i])
  }

  /** Splitting undoes joining. */
  lemma {:induction false} ParseOfEncode(fs: seq<RawField>)
    requires ValidFields(fs)
    ensures ParseFields(EncodeFields(fs)) == Some(fs)
  {
    hide NextField, EncodeField, ValidField;
    if fs == [] {
    } else {
      var rest := EncodeFields(fs[1..]);
      NextFieldOfEncode(fs[0], rest);
      ParseOfEncode(fs[1..]);
      assert EncodeFields(fs)[|EncodeField(fs[0])|..] == rest;
      assert fs == [fs[0]] + fs[1..];
    }
  }
}
