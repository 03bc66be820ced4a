/** Packed encoding (packed.rs): measured first, then appended piece by piece. */
module AbiPacked {
  import opened ByteStrings
  import opened AbiTypes
  import opened AbiText
  import opened AbiEncoding
  import opened AbiMeasure
  import opened AbiCodec

  predicate Supported(ty: AbiType) {
    match ty.kind
    case Tuple(_) => false
    case Array(child, _) => Supported(child)
    case _ => true
  }

  /** Declared width of a scalar in bytes. */
  function ScalarWidth(kind: Kind): (n: nat)
    requires IsWordKind(kind) && PrimitiveWidth(kind)
    ensures 1 <= n <= 32
  {
    match kind
    case Bool => 1
    case Address => 20
    case Int(_, bits) => bits / 8
    case FixedBytes(size) => size
  }

  /** The part of a word that packing keeps. */
  function Narrow(kind: Kind, word: seq<byte>): seq<byte>
    requires IsWordKind(kind) && PrimitiveWidth(kind) && |word| == 32
  {
    if kind.FixedBytes? then word[..ScalarWidth(kind)] else word[32 - ScalarWidth(kind)..]
  }

  function Packed(ty: AbiType, v: Json, array_: bool, h: Hasher): seq<byte>
    decreases v, 0
  {
    match ty.kind
    case Array(child, _) => if v.List? then PackedUpTo(child, v.items, |v.items|, h) else []
    case Str => if v.String? then v.text else []
    case DynBytes => if DecodeHex(v).Ok? then DecodeHex(v).value else []
    case Tuple(_) => []
    case _ =>
      if !PrimitiveWidth(ty.kind) || PrimitiveWord(ty.kind, v, h).Err? then []
      else if array_ then PrimitiveWord(ty.kind, v, h).value
      else Narrow(ty.kind, PrimitiveWord(ty.kind, v, h).value)
  }

  function PackedUpTo(child: AbiType, vs: seq<Json>, n: nat, h: Hasher): seq<byte>
    requires n <= |vs|
    decreases vs, 1, n
  {
    if n == 0 then [] else PackedUpTo(child, vs, n - 1, h) + Packed(child, vs[n - 1], true, h)
  }

  function PackedFields(types: seq<AbiType>, vs: seq<Json>, n: nat, h: Hasher): seq<byte>
    requires n <= |types| && n <= |vs|
  {
    if n == 0 then [] else PackedFields(types, vs, n - 1, h) + Packed(types[n - 1], vs[n - 1], false, h)
  }

  // ---------------------------------------------------------------- measuring

  function PackedSize(ty: AbiType, v: Json, array_: bool): Result<nat, AbiError>
    decreases v, 0
  {
    match ty.kind
    case Array(child, _) => if v.List? then SizeUpTo(child, v.items, |v.items|) else Err(Value)
    case Str => if v.String? then Ok(|v.text|) else Err(Value)
    case DynBytes => if v.String? then Ok((if |v.text| < 2 then 0 else |v.text| - 2) / 2) else Err(Value)
    case Tuple(_) => Err(Schema)
    case _ => if array_ then Ok(32) else if PrimitiveWidth(ty.kind) then Ok(ScalarWidth(ty.kind)) else Err(Value)
  }

  function SizeUpTo(child: AbiType, vs: seq<Json>, n: nat): Result<nat, AbiError>
    requires n <= |vs|
    decreases vs, 1, n
  {
    if n == 0 then Ok(0)
    else
      var sum :- SizeUpTo(child, vs, n - 1);
      var last :- PackedSize(child, vs[n - 1], true);
      if sum + last > MAX_DATA_BYTES then Err(Limit) else Ok(sum + last)
  }

  // ---------------------------------------------------------------- never longer than the canonical encoding

  lemma {:induction false} PackedShort(ty: AbiType, v: Json, array_: bool, h: Hasher)
    requires ty.Valid() && Typed(ty, v, h)
    ensures |Packed(ty, v, array_, h)| <= |Enc(ty, v, h)|
    decreases v, 0
  {
    hide PrimitiveWord, DecodeHex, Word, EncSeq, TypedSeq;
    if ty.kind.Array? {
      ArrayParts(ty, v, h);
      var s := Repeat(ty.kind.child, |v.items|);
      UpToShort(ty.kind.child, v.items, |v.items|, h);
      EncSeqLength(s, v.items, h);
      SequenceTotals(s);
    }
  }

  lemma {:induction false} ArrayParts(ty: AbiType, v: Json, h: Hasher)
    requires ty.Valid() && ty.kind.Array? && Typed(ty, v, h)
    ensures v.List? && ty.kind.child.Valid() && Repeat(ty.kind.child, |v.items|).Valid()
    ensures TypedSeq(Repeat(ty.kind.child, |v.items|), v.items, h)
    ensures |EncSeq(Repeat(ty.kind.child, |v.items|), v.items, h)| <= |Enc(ty, v, h)|
  {
    hide EncSeq, Word;
  }

  lemma {:induction false} UpToShort(child: AbiType, vs: seq<Json>, n: nat, h: Hasher)
    requires child.Valid() && n <= |vs| && TypedSeq(Repeat(child, |vs|), vs, h)
    ensures var s := Repeat(child, |vs|); |PackedUpTo(child, vs, n, h)| <= s.HeadUpTo(n) + |Tails(s, vs, n, h)|
    decreases vs, 1, n
  {
    hide Typed, Enc, Packed;
    if n == 0 {
    } else {
      var s := Repeat(child, |vs|);
      UpToShort(child, vs, n - 1, h);
      assert s.Get(n - 1) == child;
      PackedShort(child, vs[n - 1], true, h);
      if !child.dynamic {
        StaticLength(child, vs[n - 1], h);
      }
    }
  }

  lemma {:induction false} FieldsShort(types: seq<AbiType>, vs: seq<Json>, n: nat, h: Hasher)
    requires Fields(types).Valid() && TypedSeq(Fields(types), vs, h) && n <= |vs|
    ensures |PackedFields(types, vs, n, h)| <= Fields(types).HeadUpTo(n) + |Tails(Fields(types), vs, n, h)|
  {
    hide Typed, Enc, Packed;
    if n == 0 {
    } else {
      var s := Fields(types);
      FieldsShort(types, vs, n - 1, h);
      assert s.Get(n - 1) == types[n - 1] && types[n - 1].Valid();
      PackedShort(types[n - 1], vs[n - 1], false, h);
      if !types[n - 1].dynamic {
        StaticLength(types[n - 1], vs[n - 1], h);
      }
    }
  }

  /** The packed output is never longer than the canonical encoding. */
  lemma {:induction false} PackedIsShorter(types: seq<AbiType>, vs: seq<Json>, h: Hasher)
    requires Fields(types).Valid() && TypedSeq(Fields(types), vs, h)
    ensures |PackedFields(types, vs, |vs|, h)| <= |EncSeq(Fields(types), vs, h)|
  {
    hide Typed, Enc, Packed, PackedFields, EncSeq, Tails;
    FieldsShort(types, vs, |vs|, h);
    EncSeqLength(Fields(types), vs, h);
    SequenceTotals(Fields(types));
  }

  // ---------------------------------------------------------------- measured exactly

  lemma {:induction false} HexLength(v: Json)
    requires DecodeHex(v).Ok?
    ensures v.String? && |v.text| >= 2 && |DecodeHex(v).value| == (|v.text| - 2) / 2
  {
  }

  /** The measured size is the length of what is written. */
  lemma {:induction false} SizeExact(ty: AbiType, v: Json, array_: bool, h: Hasher)
    requires ty.Valid() && Typed(ty, v, h) && Supported(ty) && |Enc(ty, v, h)| <= MAX_DATA_BYTES
    ensures PackedSize(ty, v, array_) == Ok(|Packed(ty, v, array_, h)|)
    decreases v, 0
  {
    hide PrimitiveWord, DecodeHex, EncSeq, TypedSeq, Enc;
    match ty.kind
    case Array(child, _) =>
      ArrayParts(ty, v, h);
      var s := Repeat(child, |v.items|);
      EncSeqLength(s, v.items, h);
      SequenceTotals(s);
      SizeUpToExact(child, v.items, |v.items|, h);
    case DynBytes => HexLength(v);
    case Str =>
    case _ =>
  }

  lemma {:induction false} SizeUpToExact(child: AbiType, vs: seq<Json>, n: nat, h: Hasher)
    requires child.Valid() && Supported(child) && n <= |vs| && TypedSeq(Repeat(child, |vs|), vs, h)
    requires var s := Repeat(child, |vs|); s.HeadUpTo(|vs|) + |Tails(s, vs, |vs|, h)| <= MAX_DATA_BYTES
    ensures SizeUpTo(child, vs, n) == Ok(|PackedUpTo(child, vs, n, h)|)
    decreases vs, 1, n
  {
    hide Typed, Enc, Packed, PackedSize;
    if n == 0 {
    } else {
      var s := Repeat(child, |vs|);
      SizeUpToExact(child, vs, n - 1, h);
      assert s.Get(n - 1) == child;
      ElementShort(child, vs, n - 1, h);
      SizeExact(child, vs[n - 1], true, h);
      UpToShort(child, vs, n, h);
      PartsGrow(s, vs, n, h);
    }
  }

  lemma {:induction false} ElementShort(child: AbiType, vs: seq<Json>, i: nat, h: Hasher)
    requires child.Valid() && i < |vs| && TypedSeq(Repeat(child, |vs|), vs, h)
    requires var s := Repeat(child, |vs|); s.HeadUpTo(|vs|) + |Tails(s, vs, |vs|, h)| <= MAX_DATA_BYTES
    ensures Typed(child, vs[i], h) && |Enc(child, vs[i], h)| <= MAX_DATA_BYTES
  {
    hide Typed, Enc, Tails;
    var s := Repeat(child, |vs|);
    assert s.Get(i) == child;
    if child.dynamic {
      TailsGrow(s, vs, i, |vs|, h);
    } else {
      StaticLength(child, vs[i], h);
      HeadBound(child);
    }
  }

  lemma {:induction false} PartsGrow(s: Sequence, vs: seq<Json>, n: nat, h: Hasher)
    requires n <= |vs| == s.Len()
    ensures s.HeadUpTo(n) + |Tails(s, vs, n, h)| <= s.HeadUpTo(|vs|) + |Tails(s, vs, |vs|, h)|
    decreases |vs| - n
  {
    hide Enc;
    if n == |vs| {
    } else {
      PartsGrow(s, vs, n + 1, h);
    }
  }

  // ---------------------------------------------------------------- nothing is lost of a scalar

  /** Sign or zero extension back to a word. */
  function Widen(kind: Kind, b: seq<byte>): seq<byte>
    requires IsWordKind(kind) && PrimitiveWidth(kind) && |b| == ScalarWidth(kind)
  {
    if kind.FixedBytes? then b + Zeros(32 - |b|)
    else seq(32 - |b|, _ => if kind.Int? && kind.signed && b[0] >= 128 then 255 else 0) + b
  }

  lemma {:induction false} ScalarRecovered(kind: Kind, v: Json, h: Hasher)
    requires IsWordKind(kind) && PrimitiveWidth(kind) && PrimitiveWord(kind, v, h).Ok?
    ensures Widen(kind, Narrow(kind, PrimitiveWord(kind, v, h).value)) == PrimitiveWord(kind, v, h).value
  {
    hide PrimitiveWord, CanonicalPrimitive, PrimitiveOfWord, Zeros;
    var w := PrimitiveWord(kind, v, h).value;
    PrimitiveRoundTrip(kind, v, h);
    var m := ScalarWidth(kind);
    WordIsExtended(kind, w, h);
    if kind.FixedBytes? {
      assert w == w[..m] + w[m..];
    } else {
      assert w == w[..32 - m] + w[32 - m..];
    }
  }

  /** A canonical word is its scalar part, extended. */
  lemma {:induction false} WordIsExtended(kind: Kind, w: seq<byte>, h: Hasher)
    requires IsWordKind(kind) && PrimitiveWidth(kind) && |w| == 32 && PrimitiveOfWord(kind, w, h).Ok?
    ensures var m := ScalarWidth(kind);
            if kind.FixedBytes? then w[m..] == Zeros(32 - m)
            else w[..32 - m] == seq(32 - m, _ => if kind.Int? && kind.signed && w[32 - m] >= 128 then 255 else 0)
  {
    hide SignedDecimal, ChecksumText, BeNat, Pow;
    var m := ScalarWidth(kind);
    if kind.FixedBytes? {
      assert All(w[m..], 0);
    } else {
      assert All(w[..32 - m], if kind.Int? && kind.signed && w[32 - m] >= 128 then 255 else 0);
    }
  }

  /** A fixed array of scalars packs to its canonical encoding. */
  lemma {:induction false} ScalarArrayPacked(ty: AbiType, v: Json, array_: bool, h: Hasher)
    requires ty.Valid() && Typed(ty, v, h) && ty.kind.Array? && ty.kind.length.Some? && IsWordKind(ty.kind.child.kind)
    ensures Packed(ty, v, array_, h) == Enc(ty, v, h)
  {
    hide PrimitiveWord, EncSeq, TypedSeq, Word, PackedUpTo, Heads, Tails;
    var child := ty.kind.child;
    ArrayParts(ty, v, h);
    var s := Repeat(child, |v.items|);
    WordIsStatic(child);
    ScalarsPacked(child, v.items, |v.items|, h);
    StaticTails(s, v.items, |v.items|, h);
    assert EncSeq(s, v.items, h) == Heads(s, v.items, |v.items|, h) + [] by { SeqIsLayout(s, v.items, h); }
    assert [] + EncSeq(s, v.items, h) == EncSeq(s, v.items, h);
  }

  lemma {:induction false} SeqIsLayout(s: Sequence, vs: seq<Json>, h: Hasher)
    requires TypedSeq(s, vs, h)
    ensures EncSeq(s, vs, h) == Heads(s, vs, |vs|, h) + Tails(s, vs, |vs|, h)
  {
    hide Heads, Tails, TypedUpTo;
  }

  lemma {:induction false} WordIsStatic(ty: AbiType)
    requires ty.Valid() && IsWordKind(ty.kind)
    ensures !ty.dynamic
  {
  }

  lemma {:induction false} ScalarsPacked(child: AbiType, vs: seq<Json>, n: nat, h: Hasher)
    requires child.Valid() && IsWordKind(child.kind) && !child.dynamic && TypedSeq(Repeat(child, |vs|), vs, h)
            && n <= |vs|
    ensures PackedUpTo(child, vs, n, h) == Heads(Repeat(child, |vs|), vs, n, h)
  {
    hide Typed, Packed, Enc, Tails;
    if n == 0 {
    } else {
      var s := Repeat(child, |vs|);
      ScalarsPacked(child, vs, n - 1, h);
      assert s.Get(n - 1) == child;
      ScalarPacked(child, vs[n - 1], h);
      assert Heads(s, vs, n, h) == Heads(s, vs, n - 1, h) + HeadEntry(s, vs, n - 1, h);
    }
  }

  lemma {:induction false} ScalarPacked(ty: AbiType, v: Json, h: Hasher)
    requires IsWordKind(ty.kind) && Typed(ty, v, h)
    ensures Packed(ty, v, true, h) == Enc(ty, v, h)
  {
  }

  // ---------------------------------------------------------------- the operation

  class Output {
    var bytes: seq<byte>

    constructor ()
      ensures bytes == []
    {
      bytes := [];
    }

    method Extend(piece: seq<byte>)
      modifies this
      ensures bytes == old(bytes) + piece
    {
      bytes := bytes + piece;
    }
  }

  method Write(ty: AbiType, v: Json, array_: bool, out: Output, h: Hasher)
    requires ty.Valid() && Typed(ty, v, h) && Supported(ty)
    modifies out
    ensures out.bytes == old(out.bytes) + Packed(ty, v, array_, h)
    decreases v, 0
  {
    hide PrimitiveWord, DecodeHex, TypedSeq;
    match ty.kind {
      case Array(child, _) =>
        ArrayParts(ty, v, h);
        WriteAll(child, v.items, out, h);
      case Str => out.Extend(v.text);
      case DynBytes => out.Extend(DecodeHex(v).value);
      case _ =>
        var word := PrimitiveWord(ty.kind, v, h).value;
        if array_ {
          out.Extend(word);
        } else {
          out.Extend(Narrow(ty.kind, word));
        }
    }
  }

  method WriteAll(child: AbiType, vs: seq<Json>, out: Output, h: Hasher)
    requires child.Valid() && Supported(child) && TypedSeq(Repeat(child, |vs|), vs, h)
    modifies out
    ensures out.bytes == old(out.bytes) + PackedUpTo(child, vs, |vs|, h)
    decreases vs, 1
  {
    hide Typed, Packed;
    var i := 0;
    while i < |vs|
      invariant 0 <= i <= |vs| && out.bytes == old(out.bytes) + PackedUpTo(child, vs, i, h)
    {
      assert Repeat(child, |vs|).Get(i) == child;
      Write(child, vs[i], true, out, h);
      i := i + 1;
    }
  }

  /** Succeeds exactly on encodable values of tuple-free types; its size and length checks cannot fail. */
  method SolidityPacked(types: seq<AbiType>, values: seq<Json>, h: Hasher) returns (r: Result<seq<byte>, AbiError>)
    requires Fields(types).Valid()
    ensures r.Ok? <==> Encodable(types, values, h) && forall i :: 0 <= i < |types| ==> Supported(types[i])
    ensures r.Ok? ==>
            r.value == PackedFields(types, values, |values|, h)
            && |r.value| <= |EncSeq(Fields(types), values, h)|
  {
    hide Encodable, Packed, PackedSize, EncSeq, Supported, Typed, Enc;
    var valid := Validate(types, values, h);
    if valid.Err? {
      return Err(valid.error);
    }
    EncodableParts(types, values, h);
    var i := 0;
    while i < |types|
      invariant 0 <= i <= |types| && forall k :: 0 <= k < i ==> Supported(types[k])
    {
      if !Supported(types[i]) {
        return Err(Schema);
      }
      i := i + 1;
    }
    PackedIsShorter(types, values, h);
    var size: nat := 0;
    i := 0;
    while i < |types|
      invariant 0 <= i <= |types| && size == |PackedFields(types, values, i, h)| <= MAX_DATA_BYTES
    {
      FieldMeasured(types, values, i, h);
      size := size + PackedSize(types[i], values[i], false).value;
      i := i + 1;
    }
    var out := new Output();
    i := 0;
    while i < |types|
      invariant 0 <= i <= |types| && fresh(out) && out.bytes == PackedFields(types, values, i, h)
    {
      assert Fields(types).Get(i) == types[i] && types[i].Valid();
      Write(types[i], values[i], false, out, h);
      i := i + 1;
    }
    assert |out.bytes| == size;
    return Ok(out.bytes);
  }

  lemma {:induction false} EncodableParts(types: seq<AbiType>, values: seq<Json>, h: Hasher)
    requires Encodable(types, values, h)
    ensures TypedSeq(Fields(types), values, h) && |EncSeq(Fields(types), values, h)| <= MAX_DATA_BYTES
  {
  }

  /** Each field measures what it will write, and the running total stays within the limit. */
  lemma {:induction false} FieldMeasured(types: seq<AbiType>, values: seq<Json>, i: nat, h: Hasher)
    requires Fields(types).Valid() && Encodable(types, values, h) && i < |types| && Supported(types[i])
    ensures i < |values| && PackedSize(types[i], values[i], false) == Ok(|Packed(types[i], values[i], false, h)|)
    ensures |PackedFields(types, values, i + 1, h)| <= MAX_DATA_BYTES
  {
    hide Packed, PackedSize, EncSeq, Typed, Enc, Tails, NodesUpTo, TextUpTo, AllWithinDepth;
    var s := Fields(types);
    assert s.Get(i) == types[i] && types[i].Valid();
    EntryTyped(s, values, i, h);
    EntryShort(s, values, i, h);
    SizeExact(types[i], values[i], false, h);
    FieldsShort(types, values, i + 1, h);
    PartsGrow(s, values, i + 1, h);
    EncSeqLength(s, values, h);
    SequenceTotals(s);
  }
}
