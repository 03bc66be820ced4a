/** `AbiCoder::encode` and `AbiCoder::decode` as they run (codec.rs). */
module AbiCodec {
  import opened ByteStrings
  import opened AbiTypes
  import opened AbiText
  import opened AbiEncoding
  import opened AbiDecoding
  import opened AbiMeasure
  import opened AbiWriter

  // ---------------------------------------------------------------- encoding

  /** `encode` succeeds exactly on the encodable inputs and returns their encoding. The buffer it
      measured is exactly the one it fills, so its final length check cannot fail. */
  method Encode(types: seq<AbiType>, values: seq<Json>, h: Hasher) returns (r: Result<seq<byte>, AbiError>)
    requires Fields(types).Valid()
    ensures r.Ok? <==> Encodable(types, values, h)
    ensures r.Ok? ==> r.value == EncSeq(Fields(types), values, h)
    ensures r.Err? ==> r.error == Limit || r.error == Value
    ensures r == Err(Value) ==> !TypedSeq(Fields(types), values, h)
  {
    hide EncSeq, TypedUpTo, NodesUpTo, TextUpTo, AllWithinDepth, Splice;
    var size :- Validate(types, values, h);
    var output := new byte[size](_ => 0);
    WholeBuffer(output[..], EncSeq(Fields(types), values, h));
    var end := WriteSequence(Fields(types), values, 0, output, h);
    assert end == output.Length;
    return Ok(output[..]);
  }

  lemma {:induction false} WholeBuffer(buf: seq<byte>, data: seq<byte>)
    requires |buf| == |data|
    ensures Splice(buf, 0, data) == data
  {
  }

  method Validate(types: seq<AbiType>, values: seq<Json>, h: Hasher) returns (r: Result<nat, AbiError>)
    requires Fields(types).Valid()
    ensures r.Ok? <==> Encodable(types, values, h)
    ensures r.Ok? ==> r.value == |EncSeq(Fields(types), values, h)|
    ensures r.Err? ==> r.error == Limit || r.error == Value
    ensures r == Err(Value) ==> !TypedSeq(Fields(types), values, h)
  {
    hide EncSeq, TypedUpTo, NodesUpTo, TextUpTo, AllWithinDepth, AnyObject;
    if !SequenceLimit(types) {
      return Err(Limit);
    }
    if |types| != |values| {
      return Err(Value);
    }
    var p := PreflightValues(values);
    if p == Err(Value) {
      ObjectsAreUntyped(Fields(types), values, h);
    }
    var _ :- p;
    r := MeasureSequence(Fields(types), values, 0, h);
  }

  lemma {:induction false} ObjectIsUntyped(ty: AbiType, v: Json, h: Hasher)
    requires HasObject(v)
    ensures !Typed(ty, v, h)
    decreases v
  {
    hide PrimitiveWord, DecodeHex;
    if v.List? {
      if IsContainer(ty.kind) {
        var s := Entries(ty.kind, |v.items|);
        var i :| 0 <= i < |v.items| && HasObject(v.items[i]);
        if |v.items| == s.Len() {
          ObjectIsUntyped(s.Get(i), v.items[i], h);
          assert !TypedUpTo(s, v.items, |v.items|, h);
        }
      } else {
        HexIsText(v);
        if PrimitiveWidth(ty.kind) {
          WordNotList(ty.kind, v, h);
        }
      }
    } else {
      HexIsText(v);
      ObjectWord(ty.kind, h);
    }
  }

  lemma {:induction false} ObjectWord(kind: Kind, h: Hasher)
    ensures PrimitiveWidth(kind) ==> PrimitiveWord(kind, Object, h).Err?
  {
  }

  lemma {:induction false} ObjectsAreUntyped(s: Sequence, vs: seq<Json>, h: Hasher)
    requires AnyObject(vs)
    ensures !TypedSeq(s, vs, h)
  {
    hide Typed, HasObject;
    var i :| 0 <= i < |vs| && HasObject(vs[i]);
    if |vs| == s.Len() {
      ObjectIsUntyped(s.Get(i), vs[i], h);
    }
  }

  // ---------------------------------------------------------------- decoding

  lemma {:induction false} ErrorsStop(s: Sequence, bytes: seq<byte>, base: nat, i: nat, n: nat, b: Budget,
          depth: nat, h: Hasher)
    requires depth <= MAX_DEPTH + 1 && i <= n <= s.Len() && DecUpTo(s, bytes, base, i, b, depth, h).Err?
    ensures DecUpTo(s, bytes, base, n, b, depth, h) == DecUpTo(s, bytes, base, i, b, depth, h)
    decreases n
  {
    hide DecStep;
    if i == n {
    } else {
      ErrorsStop(s, bytes, base, i, n - 1, b, depth, h);
    }
  }

  method DecodeSequence(s: Sequence, bytes: seq<byte>, base: nat, meter: Meter, depth: nat, h: Hasher)
    returns (r: Result<(seq<Json>, nat), AbiError>)
    requires depth <= MAX_DEPTH + 1 && s.Valid()
    modifies meter
    ensures match DecSeq(s, bytes, base, old(meter.View()), depth, h) {
              case Ok(d) => r == Ok((d.value, d.end)) && meter.View() == d.budget
              case Err(e) => r == Err(e)
            }
    decreases MAX_DEPTH + 1 - depth, 3
  {
    hide DecStep, SizeWord;
    ghost var b := meter.View();
    var head: nat, tail: nat := base, base + s.Head();
    if tail > |bytes| {
      return Err(Encoding);
    }
    if s.MinimumNodes() > MAX_VALUE_NODES - meter.nodes || s.Len() > MAX_VALUE_NODES {
      return Err(Limit);
    }
    var values: seq<Json> := [];
    for i := 0 to s.Len()
      invariant DecUpTo(s, bytes, base, i, b, depth, h) == Ok(Cursor(values, head, tail, meter.View()))
    {
      ghost var c := Cursor(values, head, tail, meter.View());
      assert DecUpTo(s, bytes, base, i + 1, b, depth, h) == DecStep(s.Get(i), bytes, base, c, depth, h);
      if DecUpTo(s, bytes, base, i + 1, b, depth, h).Err? {
        ErrorsStop(s, bytes, base, i + 1, s.Len(), b, depth, h);
      }
      var found :- DecodeEntry(s.Get(i), bytes, base, head, tail, meter, depth, h, values);
      var (value, end) := found;
      values, head, tail := values + [value], head + s.Get(i).head, end;
    }
    return Ok((values, tail));
  }

  /** One entry: in the heads, or behind the tails where its offset must point. Returns the new end of the tails. */
  method DecodeEntry(ty: AbiType, bytes: seq<byte>, base: nat, head: nat, tail: nat, meter: Meter, depth: nat,
          h: Hasher, ghost values: seq<Json>)
    returns (r: Result<(Json, nat), AbiError>)
    requires depth <= MAX_DEPTH + 1 && ty.Valid()
    modifies meter
    ensures match DecStep(ty, bytes, base, Cursor(values, head, tail, old(meter.View())), depth, h) {
              case Ok(c) => r.Ok? && c == Cursor(values + [r.value.0], head + ty.head, r.value.1, meter.View())
              case Err(e) => r == Err(e)
            }
    decreases MAX_DEPTH + 1 - depth, 1
  {
    hide Dec, SizeWord;
    var offset := head;
    if ty.dynamic {
      var relative :- SizeWord(bytes, head);
      if relative != tail - base {
        return Err(Encoding);
      }
      offset := tail;
    }
    var found :- DecodeValue(ty, bytes, offset, meter, depth, h);
    var (value, end) := found;
    if ty.dynamic {
      return Ok((value, end));
    }
    if end != head + ty.head {
      return Err(Encoding);
    }
    return Ok((value, tail));
  }

  method DecodeValue(ty: AbiType, bytes: seq<byte>, offset: nat, meter: Meter, depth: nat, h: Hasher)
    returns (r: Result<(Json, nat), AbiError>)
    requires depth <= MAX_DEPTH + 1 && ty.Valid()
    modifies meter
    ensures match Dec(ty, bytes, offset, old(meter.View()), depth, h) {
              case Ok(d) => r == Ok((d.value, d.end)) && meter.View() == d.budget
              case Err(e) => r == Err(e)
            }
    decreases MAX_DEPTH + 1 - depth, 0
  {
    hide DecSeq, SizeWord, PrimitiveOfWord, DecBlob, TextSize, New;
    var _ :- meter.Node(depth);
    match ty.kind {
      case Tuple(fields) =>
        var found :- DecodeSequence(Fields(fields), bytes, offset, meter, depth + 1, h);
        var (values, end) := found;
        return Ok((List(values), end));
      case Array(child, length) =>
        var n :- if length.Some? then Ok(length.value) else SizeWord(bytes, offset);
        if n > MAX_VALUE_NODES {
          return Err(Limit);
        }
        var base := if length.Some? then offset else offset + 32;
        var found :- DecodeSequence(Repeat(child, n), bytes, base, meter, depth + 1, h);
        var (values, end) := found;
        return Ok((List(values), end));
      case Str =>
        r := DecodeBlob(ty.kind, bytes, offset, meter);
      case DynBytes =>
        r := DecodeBlob(ty.kind, bytes, offset, meter);
      case _ =>
        r := DecodeWord(ty.kind, bytes, offset, meter, h);
    }
  }

  method DecodeWord(kind: Kind, bytes: seq<byte>, offset: nat, meter: Meter, h: Hasher)
    returns (r: Result<(Json, nat), AbiError>)
    requires PrimitiveWidth(kind)
    modifies meter
    ensures match DecWord(kind, bytes, offset, old(meter.View()), h) {
              case Ok(d) => r == Ok((d.value, d.end)) && meter.View() == d.budget
              case Err(e) => r == Err(e)
            }
  {
    hide PrimitiveOfWord, TextSize;
    var w :- WordAt(bytes, offset);
    var value :- PrimitiveOfWord(kind, w, h);
    var _ :- meter.Text(TextSize(value));
    return Ok((value, offset + 32));
  }

  method DecodeBlob(kind: Kind, bytes: seq<byte>, offset: nat, meter: Meter) returns (r: Result<(Json, nat), AbiError>)
    modifies meter
    ensures match DecBlob(kind, bytes, offset, old(meter.View())) {
              case Ok(d) => r == Ok((d.value, d.end)) && meter.View() == d.budget
              case Err(e) => r == Err(e)
            }
  {
    hide SizeWord, IsUtf8, ToHex, All;
    var len :- SizeWord(bytes, offset);
    if len > MAX_DATA_BYTES {
      return Err(Limit);
    }
    var start := offset + 32;
    var end := start + Padded(len);
    if end > |bytes| || !All(bytes[start + len..end], 0) {
      return Err(Encoding);
    }
    var raw := bytes[start..start + len];
    if kind.Str? {
      var _ :- meter.Text(len);
      if !IsUtf8(raw) {
        return Err(Encoding);
      }
      return Ok((String(raw), end));
    } else {
      var _ :- meter.Text(len * 2 + 2);
      return Ok((String(ToHex(raw)), end));
    }
  }

  method DecodeValues(types: seq<AbiType>, bytes: seq<byte>, h: Hasher) returns (r: Result<seq<Json>, AbiError>)
    requires Fields(types).Valid()
    ensures r == Decode(types, bytes, h)
  {
    hide DecSeq;
    if !SequenceLimit(types) || |bytes| > MAX_DATA_BYTES {
      return Err(Limit);
    }
    if |bytes| % 32 != 0 {
      return Err(Encoding);
    }
    var meter := new Meter();
    var found :- DecodeSequence(Fields(types), bytes, 0, meter, 0, h);
    var (values, end) := found;
    if end != |bytes| {
      return Err(Encoding);
    }
    return Ok(values);
  }
}
