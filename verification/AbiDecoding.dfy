/** The strict decoder as a function of its input (codec.rs, `decode` and `decode_sequence`):
    it accepts one layout only and charges every node and every byte of text to one budget. */
module AbiDecoding {
  import opened ByteStrings
  import opened AbiTypes
  import opened AbiText
  import opened AbiEncoding

  datatype Budget = Budget(nodes: nat, bytes: nat)

  datatype Decoded<T> = Decoded(value: T, end: nat, budget: Budget)

  /** Progress through a sequence: values so far, next head, next tail, budget spent. */
  datatype Cursor = Cursor(values: seq<Json>, head: nat, tail: nat, budget: Budget)

  function SpendNode(b: Budget, depth: nat): Result<Budget, AbiError> {
    if b.nodes + 1 > MAX_VALUE_NODES || depth > MAX_DEPTH then Err(Limit) else Ok(b.(nodes := b.nodes + 1))
  }

  function SpendText(b: Budget, n: nat): Result<Budget, AbiError> {
    if b.bytes + n > MAX_DATA_BYTES then Err(Limit) else Ok(b.(bytes := b.bytes + n))
  }

  function WordAt(bytes: seq<byte>, offset: nat): (r: Result<seq<byte>, AbiError>)
    ensures r.Ok? ==> offset + 32 <= |bytes| && r.value == bytes[offset..offset + 32]
  {
    if offset + 32 > |bytes| then Err(Encoding) else Ok(bytes[offset..offset + 32])
  }

  /** A length or offset: the leading 24 bytes must be zero. */
  function SizeWord(bytes: seq<byte>, offset: nat): Result<nat, AbiError> {
    var w :- WordAt(bytes, offset);
    if !All(w[..24], 0) then Err(Encoding) else Ok(BeNat(w[24..]))
  }

  /** Strings and byte strings: length word, content, zero padding. */
  function DecBlob(kind: Kind, bytes: seq<byte>, offset: nat, budget: Budget): Result<Decoded<Json>, AbiError> {
    var len :- SizeWord(bytes, offset);
    if len > MAX_DATA_BYTES then Err(Limit)
    else
      var start := offset + 32;
      var end := start + Padded(len);
      if end > |bytes| then Err(Encoding)
      else if !All(bytes[start + len..end], 0) then Err(Encoding)
      else
        var raw := bytes[start..start + len];
        if kind.Str? then
          var b :- SpendText(budget, len);
          if !IsUtf8(raw) then Err(Encoding) else Ok(Decoded(String(raw), end, b))
        else
          var b :- SpendText(budget, 2 * len + 2);
          Ok(Decoded(String(ToHex(raw)), end, b))
  }

  function DecWord(kind: Kind, bytes: seq<byte>, offset: nat, budget: Budget, h: Hasher): Result<Decoded<Json>,
          AbiError> {
    var w :- WordAt(bytes, offset);
    if !PrimitiveWidth(kind) then Err(Encoding)
    else
      var v :- PrimitiveOfWord(kind, w, h);
      var b :- SpendText(budget, TextSize(v));
      Ok(Decoded(v, offset + 32, b))
  }

  function Dec(ty: AbiType, bytes: seq<byte>, offset: nat, budget: Budget, depth: nat,
          h: Hasher): Result<Decoded<Json>, AbiError>
    requires depth <= MAX_DEPTH + 1
    decreases MAX_DEPTH + 1 - depth, 0
  {
    var b :- SpendNode(budget, depth);
    match ty.kind
    case Tuple(fields) =>
      var d :- DecSeq(Fields(fields), bytes, offset, b, depth + 1, h);
      Ok(Decoded(List(d.value), d.end, d.budget))
    case Array(child, length) =>
      var n :- if length.Some? then Ok(length.value) else SizeWord(bytes, offset);
      if n > MAX_VALUE_NODES then Err(Limit)
      else
        var d :- DecSeq(Repeat(child, n), bytes, if length.Some? then offset else offset + 32, b, depth + 1, h);
        Ok(Decoded(List(d.value), d.end, d.budget))
    case Str => DecBlob(ty.kind, bytes, offset, b)
    case DynBytes => DecBlob(ty.kind, bytes, offset, b)
    case _ => DecWord(ty.kind, bytes, offset, b, h)
  }

  function DecSeq(s: Sequence, bytes: seq<byte>, base: nat, budget: Budget, depth: nat,
          h: Hasher): Result<Decoded<seq<Json>>, AbiError>
    requires depth <= MAX_DEPTH + 1
    decreases MAX_DEPTH + 1 - depth, 3
  {
    if base + s.Head() > |bytes| then Err(Encoding)
    else if s.MinimumNodes() > MAX_VALUE_NODES - budget.nodes || s.Len() > MAX_VALUE_NODES then Err(Limit)
    else
      var c :- DecUpTo(s, bytes, base, s.Len(), budget, depth, h);
      Ok(Decoded(c.values, c.tail, c.budget))
  }

  /** The state after `n` entries. */
  function DecUpTo(s: Sequence, bytes: seq<byte>, base: nat, n: nat, budget: Budget, depth: nat,
          h: Hasher): (r: Result<Cursor, AbiError>)
    requires depth <= MAX_DEPTH + 1 && n <= s.Len()
    decreases MAX_DEPTH + 1 - depth, 2, n
  {
    if n == 0 then Ok(Cursor([], base, base + s.Head(), budget))
    else
      var c :- DecUpTo(s, bytes, base, n - 1, budget, depth, h);
      DecStep(s.Get(n - 1), bytes, base, c, depth, h)
  }

  /** One entry: a dynamic entry's offset must be exactly where the previous tail ended. */
  function DecStep(ty: AbiType, bytes: seq<byte>, base: nat, c: Cursor, depth: nat, h: Hasher): (r: Result<Cursor,
          AbiError>)
    requires depth <= MAX_DEPTH + 1
    decreases MAX_DEPTH + 1 - depth, 1
  {
    if ty.dynamic then
      var relative :- SizeWord(bytes, c.head);
      if relative != c.tail - base then Err(Encoding)
      else
        var d :- Dec(ty, bytes, c.tail, c.budget, depth, h);
        Ok(Cursor(c.values + [d.value], c.head + ty.head, d.end, d.budget))
    else
      var d :- Dec(ty, bytes, c.head, c.budget, depth, h);
      if d.end != c.head + ty.head then Err(Encoding)
      else Ok(Cursor(c.values + [d.value], c.head + ty.head, c.tail, d.budget))
  }

  /** `AbiCoder::decode`. */
  function Decode(types: seq<AbiType>, bytes: seq<byte>, h: Hasher): Result<seq<Json>, AbiError> {
    if !SequenceLimit(types) then Err(Limit)
    else if |bytes| > MAX_DATA_BYTES then Err(Limit)
    else if |bytes| % 32 != 0 then Err(Encoding)
    else
      var d :- DecSeq(Fields(types), bytes, 0, Budget(0, 0), 0, h);
      if d.end != |bytes| then Err(Encoding) else Ok(d.value)
  }
}
