/** Default values and their closed-form sizes (typed_value.rs). */
module AbiDefaults {
  import opened ByteStrings
  import opened AbiTypes
  import opened AbiText
  import opened AbiEncoding
  import opened AbiDecoding
  import opened AbiRoundTrip

  // ---------------------------------------------------------------- the values

  function ZeroText(): (t: Text)
    ensures t == [ZERO]
  {
    AsciiIsUtf8([ZERO]);
    [ZERO]
  }

  function EmptyText(): (t: Text)
    ensures t == []
  {
    []
  }

  function DefaultValue(ty: AbiType): Json
    decreases ty, 1
  {
    match ty.kind
    case Bool => Boolean(false)
    case Int(_, _) => String(ZeroText())
    case Str => String(EmptyText())
    case DynBytes => String(ToHex([]))
    case Address => String(ToHex(Zeros(20)))
    case FixedBytes(n) => String(ToHex(Zeros(n)))
    case Array(child, Some(n)) => List(Copies(DefaultValue(child), n))
    case Array(_, None) => List([])
    case Tuple(fields) => List(DefaultFields(ty, |fields|))
  }

  function DefaultFields(ty: AbiType, n: nat): (vs: seq<Json>)
    requires ty.kind.Tuple? && n <= |ty.kind.fields|
    ensures |vs| == n
    decreases ty, 0, n
  {
    if n == 0 then [] else DefaultFields(ty, n - 1) + [DefaultValue(ty.kind.fields[n - 1])]
  }

  function Defaults(types: seq<AbiType>): (vs: seq<Json>)
    ensures |vs| == |types|
    ensures forall i :: 0 <= i < |types| ==> vs[i] == DefaultValue(types[i])
  {
    if types == [] then [] else Defaults(types[..|types| - 1]) + [DefaultValue(types[|types| - 1])]
  }

  lemma {:induction false} FieldAt(ty: AbiType, n: nat, i: nat)
    requires ty.kind.Tuple? && i < n <= |ty.kind.fields|
    ensures DefaultFields(ty, n)[i] == DefaultValue(ty.kind.fields[i])
  {
    if i == n - 1 {
    } else {
      FieldAt(ty, n - 1, i);
    }
  }

  // ---------------------------------------------------------------- the closed-form sizes

  function DefaultTextSize(ty: AbiType): Result<nat, AbiError>
    decreases ty, 1
  {
    match ty.kind
    case Bool => Capped(0)
    case Str => Capped(0)
    case Int(_, _) => Capped(1)
    case Address => Capped(42)
    case DynBytes => Capped(2)
    case FixedBytes(n) => Capped(2 + 2 * n)
    case Array(child, Some(n)) =>
      if n == 0 then Capped(0)
      else
        var one :- DefaultTextSize(child);
        Capped(one * n)
    case Array(_, None) => Capped(0)
    case Tuple(fields) =>
      var sum :- FieldsTextSize(ty, |fields|);
      Capped(sum)
  }

  function FieldsTextSize(ty: AbiType, n: nat): Result<nat, AbiError>
    requires ty.kind.Tuple? && n <= |ty.kind.fields|
    decreases ty, 0, n
  {
    if n == 0 then Ok(0)
    else
      var sum :- FieldsTextSize(ty, n - 1);
      var last :- DefaultTextSize(ty.kind.fields[n - 1]);
      Ok(sum + last)
  }

  function EntrySize(ty: AbiType, body: nat): nat {
    body + if ty.dynamic then 32 else 0
  }

  function DefaultBodySize(ty: AbiType): Result<nat, AbiError>
    decreases ty, 1
  {
    match ty.kind
    case Array(child, Some(n)) =>
      if n == 0 then Capped(0)
      else
        var one :- DefaultBodySize(child);
        Capped(EntrySize(child, one) * n)
    case Tuple(fields) =>
      var sum :- FieldsBodySize(ty, |fields|);
      Capped(sum)
    case _ => Capped(32)
  }

  function FieldsBodySize(ty: AbiType, n: nat): Result<nat, AbiError>
    requires ty.kind.Tuple? && n <= |ty.kind.fields|
    decreases ty, 0, n
  {
    if n == 0 then Ok(0)
    else
      var sum :- FieldsBodySize(ty, n - 1);
      var last :- DefaultBodySize(ty.kind.fields[n - 1]);
      Ok(sum + EntrySize(ty.kind.fields[n - 1], last))
  }

  // ---------------------------------------------------------------- text

  /** The closed form is the text the built default uses, or an error exactly when that is too much. */
  lemma {:induction false} TextSizeExact(ty: AbiType)
    requires ty.Valid()
    ensures DefaultTextSize(ty) == Capped(TextSize(DefaultValue(ty)))
    decreases ty, 1
  {
    hide ToHex, New, PrimitiveWidth, IsUtf8, TextSize, DefaultValue, FieldsTextSize, TextUpTo;
    match ty.kind
    case Array(child, Some(n)) =>
      TextSizeExact(child);
      ArrayDefault(ty);
      ArrayText(DefaultValue(child), n);
    case Array(_, None) => NoText(ty);
    case Tuple(fields) =>
      FieldsTextExact(ty, |fields|);
      TupleDefault(ty);
      ListText(DefaultFields(ty, |fields|));
    case _ =>
      WordTexts(ty);
  }

  lemma {:induction false} ArrayText(v: Json, n: nat)
    ensures TextSize(List(Copies(v, n))) == TextSize(v) * n
    ensures n == 0 ==> TextSize(v) * n == 0
    ensures n > 0 ==> TextSize(v) <= TextSize(v) * n
  {
    CopiesCost(v, Copies(v, n), n);
    if n > 0 {
      MulGrows(TextSize(v), n);
    }
    assert n * TextSize(v) == TextSize(v) * n;
  }

  lemma {:induction false} NoText(ty: AbiType)
    requires IsDynamicArray(ty.kind)
    ensures TextSize(DefaultValue(ty)) == 0
  {
  }

  lemma {:induction false} ListText(vs: seq<Json>)
    ensures TextSize(List(vs)) == TextUpTo(vs, |vs|)
  {
  }

  lemma {:induction false} WordTexts(ty: AbiType)
    requires ty.Valid() && !IsContainer(ty.kind)
    ensures DefaultTextSize(ty) == Capped(TextSize(DefaultValue(ty))) && TextSize(DefaultValue(ty)) <= 66
  {
    hide ToHex, New, IsUtf8, Zeros;
  }

  lemma {:induction false} FieldsTextExact(ty: AbiType, n: nat)
    requires ty.Valid() && ty.kind.Tuple? && n <= |ty.kind.fields|
    ensures var total := TextUpTo(DefaultFields(ty, n), n);
            FieldsTextSize(ty, n) == Ok(total) || (FieldsTextSize(ty, n) == Err(Limit) && total > MAX_DATA_BYTES)
    decreases ty, 0, n
  {
    hide TextSize, DefaultTextSize, DefaultValue, New;
    if n == 0 {
    } else {
      FieldsTextExact(ty, n - 1);
      TextSizeExact(ty.kind.fields[n - 1]);
      ResourcePrefix(DefaultFields(ty, n - 1), DefaultFields(ty, n), n - 1);
    }
  }

  // ---------------------------------------------------------------- well-typed and canonical

  lemma {:induction false} ZeroInteger(signed: bool, bits: nat, h: Hasher)
    requires PrimitiveWidth(Int(signed, bits))
    ensures PrimitiveWord(Int(signed, bits), String(ZeroText()), h).Ok?
    ensures CanonicalPrimitive(Int(signed, bits), String(ZeroText()), h) == String(ZeroText())
  {
    hide Pow, ToBe;
    ReadSignedDecimal(false, 0);
    assert SignedDecimal(false, 0) == [ZERO];
    PowPositive(2, bits - if signed then 1 else 0);
  }

  lemma {:induction false} ZeroDigit(c: byte)
    requires IsHexDigit(c) && Nibble(c) == 0
    ensures c == ZERO
  {
  }

  /** Zero has no letters, so every checksum spelling of it is the plain one. */
  lemma {:induction false} ZeroAddressText(a: seq<byte>, h: Hasher)
    requires |a| == 20 && a == Zeros(20)
    ensures ChecksumText(a, h) == ToHex(a) && All(HexDigits(a), ZERO)
  {
    hide ChecksumText, Zeros;
    var s, t := ChecksumText(a, h), HexDigits(a);
    forall i | 0 <= i < 40 ensures s[2..][i] == ZERO && t[i] == ZERO {
      assert NibbleAt(a, i) == 0 by { ZeroNibble(a, i); }
      ZeroDigit(s[2..][i]);
    }
    assert s[2..] == t;
    assert s == s[..2] + s[2..];
  }

  lemma {:induction false} ZeroNibble(a: seq<byte>, i: nat)
    requires |a| == 20 && a == Zeros(20) && i < 40
    ensures NibbleAt(a, i) == 0
  {
  }

  lemma {:induction false} ZeroAddress(a: seq<byte>, h: Hasher)
    requires |a| == 20 && a == Zeros(20)
    ensures PrimitiveWord(Address, String(ToHex(a)), h).Ok?
    ensures CanonicalPrimitive(Address, String(ToHex(a)), h) == String(ToHex(a))
  {
    hide ChecksumText, HexDigits, FromNibbles, Zeros;
    ZeroAddressText(a, h);
    NibblesOfHexDigits(a);
    assert ToHex(a)[2..] == HexDigits(a);
    assert ParseAddress(String(ToHex(a)), h) == Ok(a);
  }

  lemma {:induction false} ZeroBytes(n: nat, h: Hasher)
    requires n <= 32
    ensures DecodeHex(String(ToHex(Zeros(n)))) == Ok(Zeros(n))
  {
    DecodeHexOfToHex(Zeros(n));
  }

  lemma {:induction false} WordDefault(ty: AbiType, h: Hasher)
    requires ty.Valid() && IsWordKind(ty.kind)
    ensures var v := DefaultValue(ty);
            PrimitiveWord(ty.kind, v, h).Ok? && CanonicalPrimitive(ty.kind, v, h) == v && !v.List?
  {
    match ty.kind
    case Int(signed, bits) => ZeroInteger(signed, bits, h);
    case Address => ZeroAddress(Zeros(20), h);
    case FixedBytes(n) => ZeroBytes(n, h);
    case Bool =>
  }

  /** What a default value is, and what it costs. */
  ghost predicate Exact(ty: AbiType, h: Hasher) {
    var v := DefaultValue(ty);
    && Typed(ty, v, h) && Canonical(ty, v, h) == v && Nodes(v) == ty.minimumNodes
    && (forall depth: nat :: depth + ty.depth <= MAX_DEPTH ==> WithinDepth(v, depth))
  }

  lemma {:induction false} SimpleExact(ty: AbiType, h: Hasher)
    requires ty.Valid() && !IsContainer(ty.kind)
    ensures Exact(ty, h) && |Enc(ty, DefaultValue(ty), h)| == 32
  {
    hide PrimitiveWord, CanonicalPrimitive, ToBe;
    var v := DefaultValue(ty);
    if IsWordKind(ty.kind) {
      WordDefault(ty, h);
    } else if ty.kind.DynBytes? {
      DecodeHexOfToHex([]);
    }
    assert Padded(0) == 0;
    assert Nodes(v) == 1;
  }

  lemma {:induction false} EmptyArrayExact(ty: AbiType, h: Hasher)
    requires ty.Valid() && IsDynamicArray(ty.kind)
    ensures Exact(ty, h) && |Enc(ty, DefaultValue(ty), h)| == 32
  {
    hide Word;
    var s := Repeat(ty.kind.child, 0);
    assert Heads(s, [], 0, h) == [] && Tails(s, [], 0, h) == [];
  }

  lemma {:induction false} CopiesTails(ty: AbiType, v: Json, vs: seq<Json>, n: nat, h: Hasher)
    requires n <= |vs| && forall i :: 0 <= i < |vs| ==> vs[i] == v
    ensures |Tails(Repeat(ty, |vs|), vs, n, h)| == if ty.dynamic then |Enc(ty, v, h)| * n else 0
  {
    hide Enc;
    if n == 0 {
    } else {
      CopiesTails(ty, v, vs, n - 1, h);
    }
  }

  lemma {:induction false} ArrayExact(ty: AbiType, h: Hasher)
    requires ty.Valid() && ty.kind.Array? && ty.kind.length.Some? && Exact(ty.kind.child, h)
    ensures Exact(ty, h)
  {
    hide Typed, Canonical, Enc, Nodes, DefaultValue, WithinDepth;
    var child, n := ty.kind.child, ty.kind.length.value;
    var v := DefaultValue(child);
    var vs := Copies(v, n);
    var s := Repeat(child, n);
    assert DefaultValue(ty) == List(vs) by { ArrayDefault(ty); }
    assert TypedSeq(s, vs, h);
    CopiesCanonical(child, v, vs, n, h);
    CopiesCost(v, vs, n);
    ListFacts(ty, vs, h);
    MinimumOfArray(ty);
    forall depth: nat | depth + ty.depth <= MAX_DEPTH ensures WithinDepth(List(vs), depth) {
      assert AllWithinDepth(vs, depth + 1);
      ListDepth(vs, depth);
    }
  }

  lemma {:induction false} ArrayDefault(ty: AbiType)
    requires ty.kind.Array? && ty.kind.length.Some?
    ensures DefaultValue(ty) == List(Copies(DefaultValue(ty.kind.child), ty.kind.length.value))
  {
  }

  lemma {:induction false} MinimumOfArray(ty: AbiType)
    requires ty.Valid() && ty.kind.Array? && ty.kind.length.Some?
    ensures ty.minimumNodes == 1 + ty.kind.length.value * ty.kind.child.minimumNodes
            && ty.depth == ty.kind.child.depth + 1
  {
  }

  lemma {:induction false} ListDepth(vs: seq<Json>, depth: nat)
    requires AllWithinDepth(vs, depth + 1) && depth <= MAX_DEPTH
    ensures WithinDepth(List(vs), depth)
  {
  }

  /** A container's facts, from those of its items. */
  lemma {:induction false} ListFacts(ty: AbiType, vs: seq<Json>, h: Hasher)
    requires IsContainer(ty.kind) && (ty.kind.Array? && ty.kind.length.Some? ==> ty.kind.length.value == |vs|)
    requires TypedSeq(Entries(ty.kind, |vs|), vs, h) && CanonicalSeq(Entries(ty.kind, |vs|), vs, h) == vs
    ensures Typed(ty, List(vs), h) && Canonical(ty, List(vs), h) == List(vs)
            && Nodes(List(vs)) == 1 + NodesUpTo(vs, |vs|)
  {
    hide TypedSeq, CanonicalSeq;
  }

  lemma {:induction false} CopiesCanonical(ty: AbiType, v: Json, vs: seq<Json>, n: nat, h: Hasher)
    requires n <= |vs| && (forall i :: 0 <= i < |vs| ==> vs[i] == v) && Canonical(ty, v, h) == v
    ensures CanonicalUpTo(Repeat(ty, |vs|), vs, n, h) == vs[..n]
  {
    hide Canonical;
    if n == 0 {
    } else {
      CopiesCanonical(ty, v, vs, n - 1, h);
    }
  }

  lemma {:induction false} DefaultIsExact(ty: AbiType, h: Hasher)
    requires ty.Valid()
    ensures Exact(ty, h)
    decreases ty, 1
  {
    hide Exact;
    match ty.kind
    case Array(child, Some(n)) =>
      DefaultIsExact(child, h);
      ArrayExact(ty, h);
    case Array(_, None) => EmptyArrayExact(ty, h);
    case Tuple(fields) =>
      forall i | 0 <= i < |fields| ensures Exact(fields[i], h) {
        DefaultIsExact(fields[i], h);
      }
      TupleExact(ty, h);
    case _ => SimpleExact(ty, h);
  }

  lemma {:induction false} TupleExact(ty: AbiType, h: Hasher)
    requires ty.Valid() && ty.kind.Tuple? && forall i :: 0 <= i < |ty.kind.fields| ==> Exact(ty.kind.fields[i], h)
    ensures Exact(ty, h)
  {
    hide Typed, Canonical, Enc, Nodes, DefaultValue, WithinDepth;
    var fields := ty.kind.fields;
    var vs := DefaultFields(ty, |fields|);
    assert DefaultValue(ty) == List(vs) by { TupleDefault(ty); }
    forall i | 0 <= i < |fields| ensures vs[i] == DefaultValue(fields[i]) {
      FieldAt(ty, |fields|, i);
    }
    assert TypedSeq(Fields(fields), vs, h) by {
      forall i | 0 <= i < |fields| ensures Typed(Fields(fields).Get(i), vs[i], h) {
        assert Exact(fields[i], h);
      }
    }
    FieldsCanonical(fields, vs, |vs|, h);
    FieldsNodes(fields, vs, |vs|, h);
    ListFacts(ty, vs, h);
    MinimumOfTuple(ty);
    forall depth: nat | depth + ty.depth <= MAX_DEPTH ensures WithinDepth(List(vs), depth) {
      forall i | 0 <= i < |vs| ensures WithinDepth(vs[i], depth + 1) {
        assert Exact(fields[i], h);
        FieldDepth(fields, i);
      }
      ListDepth(vs, depth);
    }
  }

  lemma {:induction false} TupleDefault(ty: AbiType)
    requires ty.kind.Tuple?
    ensures DefaultValue(ty) == List(DefaultFields(ty, |ty.kind.fields|))
  {
  }

  lemma {:induction false} MinimumOfTuple(ty: AbiType)
    requires ty.Valid() && ty.kind.Tuple?
    ensures ty.minimumNodes == 1 + Fields(ty.kind.fields).NodesUpTo(|ty.kind.fields|)
            && ty.depth == MaxDepth(ty.kind.fields)
  {
  }

  lemma {:induction false} FieldsCanonical(fields: seq<AbiType>, vs: seq<Json>, n: nat, h: Hasher)
    requires |vs| == |fields| && n <= |vs| && forall i :: 0 <= i < |fields| ==>
            Exact(fields[i], h) && vs[i] == DefaultValue(fields[i])
    ensures CanonicalUpTo(Fields(fields), vs, n, h) == vs[..n]
  {
    hide Typed, Canonical, Nodes, WithinDepth, DefaultValue;
    if n == 0 {
    } else {
      FieldsCanonical(fields, vs, n - 1, h);
      assert Exact(fields[n - 1], h) && Fields(fields).Get(n - 1) == fields[n - 1];
    }
  }

  lemma {:induction false} FieldsNodes(fields: seq<AbiType>, vs: seq<Json>, n: nat, h: Hasher)
    requires |vs| == |fields| && n <= |vs| && forall i :: 0 <= i < |fields| ==>
            Exact(fields[i], h) && vs[i] == DefaultValue(fields[i])
    ensures NodesUpTo(vs, n) == Fields(fields).NodesUpTo(n)
  {
    hide Typed, Canonical, Nodes, WithinDepth, DefaultValue;
    if n == 0 {
    } else {
      FieldsNodes(fields, vs, n - 1, h);
      assert Exact(fields[n - 1], h) && Fields(fields).Get(n - 1) == fields[n - 1];
    }
  }

  // ---------------------------------------------------------------- encoded size

  /** Head and tail bytes of one entry. */
  lemma {:induction false} EntryBytes(ty: AbiType, v: Json, h: Hasher)
    requires ty.Valid() && Typed(ty, v, h)
    ensures EntrySize(ty, |Enc(ty, v, h)|) == ty.head + if ty.dynamic then |Enc(ty, v, h)| else 0
  {
    hide Typed, Enc;
    if ty.dynamic {
      DynamicHead(ty);
    } else {
      StaticLength(ty, v, h);
    }
  }

  lemma {:induction false} Distribute(a: nat, b: nat, n: nat)
    ensures (a + b) * n == a * n + b * n
  {
  }

  lemma {:induction false} CopiesBytes(ty: AbiType, v: Json, n: nat, h: Hasher)
    requires ty.Valid() && Typed(ty, v, h)
    ensures |EncSeq(Repeat(ty, n), Copies(v, n), h)| == EntrySize(ty, |Enc(ty, v, h)|) * n
  {
    hide Typed, EncSeq, Heads, Tails, Enc;
    var s, vs, bytes := Repeat(ty, n), Copies(v, n), |Enc(ty, v, h)|;
    assert TypedSeq(s, vs, h);
    EncSeqLength(s, vs, h);
    CopiesTails(ty, v, vs, n, h);
    EntryBytes(ty, v, h);
    Distribute(ty.head, bytes, n);
  }

  lemma {:induction false} ArrayBytes(ty: AbiType, h: Hasher)
    requires ty.Valid() && ty.kind.Array? && ty.kind.length.Some?
    ensures |Enc(ty, DefaultValue(ty), h)|
            == EntrySize(ty.kind.child, |Enc(ty.kind.child, DefaultValue(ty.kind.child), h)|) * ty.kind.length.value
  {
    hide Typed, DefaultValue, Enc, EncSeq, EntrySize;
    var child, n := ty.kind.child, ty.kind.length.value;
    var v := DefaultValue(child);
    ArrayDefault(ty);
    assert Typed(child, v, h) by { DefaultIsExact(child, h); }
    FixedArrayEncoding(ty, Copies(v, n), h);
    CopiesBytes(child, v, n, h);
  }

  lemma {:induction false} FixedArrayEncoding(ty: AbiType, vs: seq<Json>, h: Hasher)
    requires ty.kind.Array? && ty.kind.length == Some(|vs|)
    ensures |Enc(ty, List(vs), h)| == |EncSeq(Repeat(ty.kind.child, |vs|), vs, h)|
  {
    hide EncSeq;
  }

  /** The closed form is the size of the encoded default, or an error exactly when that is too much. */
  lemma {:induction false} BodySizeExact(ty: AbiType, h: Hasher)
    requires ty.Valid()
    ensures DefaultBodySize(ty) == Capped(|Enc(ty, DefaultValue(ty), h)|)
    decreases ty, 1
  {
    hide Enc, DefaultValue, New;
    match ty.kind
    case Array(child, Some(n)) =>
      BodySizeExact(child, h);
      ArrayBytes(ty, h);
      if n > 0 {
        MulGrows(EntrySize(child, |Enc(child, DefaultValue(child), h)|), n);
      }
    case Array(_, None) => EmptyArrayExact(ty, h);
    case Tuple(fields) =>
      FieldsBodyExact(ty, |fields|, h);
      TupleBytes(ty, h);
    case _ => SimpleExact(ty, h);
  }

  lemma {:induction false} TupleBytes(ty: AbiType, h: Hasher)
    requires ty.Valid() && ty.kind.Tuple?
    ensures var s, vs := Fields(ty.kind.fields), DefaultFields(ty, |ty.kind.fields|);
            |Enc(ty, DefaultValue(ty), h)| == s.HeadUpTo(|vs|) + |Tails(s, vs, |vs|, h)|
  {
    hide Typed, DefaultValue, Heads, Tails, EncSeq;
    var s, vs := Fields(ty.kind.fields), DefaultFields(ty, |ty.kind.fields|);
    assert DefaultValue(ty) == List(vs) by { TupleDefault(ty); }
    assert TypedSeq(s, vs, h) by {
      DefaultIsExact(ty, h);
      TupleTyped(ty, vs, h);
    }
    EncSeqLength(s, vs, h);
    SequenceTotals(s);
  }

  lemma {:induction false} TupleTyped(ty: AbiType, vs: seq<Json>, h: Hasher)
    requires ty.kind.Tuple? && Typed(ty, List(vs), h)
    ensures TypedSeq(Fields(ty.kind.fields), vs, h)
  {
  }

  lemma {:induction false} FieldsBodyExact(ty: AbiType, n: nat, h: Hasher)
    requires ty.Valid() && ty.kind.Tuple? && n <= |ty.kind.fields|
    ensures var s, vs := Fields(ty.kind.fields), DefaultFields(ty, |ty.kind.fields|);
            var total := s.HeadUpTo(n) + |Tails(s, vs, n, h)|;
            FieldsBodySize(ty, n) == Ok(total) || (FieldsBodySize(ty, n) == Err(Limit) && total > MAX_DATA_BYTES)
    decreases ty, 0, n
  {
    hide Enc, DefaultValue, DefaultBodySize, New, DefaultFields, Typed;
    if n == 0 {
    } else {
      var fields := ty.kind.fields;
      var field, s, vs := fields[n - 1], Fields(fields), DefaultFields(ty, |fields|);
      FieldsBodyExact(ty, n - 1, h);
      BodySizeExact(field, h);
      FieldAt(ty, |fields|, n - 1);
      assert s.Get(n - 1) == field;
      assert Typed(field, DefaultValue(field), h) by { DefaultIsExact(field, h); }
      EntryBytes(field, DefaultValue(field), h);
      TailsStep(s, vs, n, h);
    }
  }

  lemma {:induction false} TailsStep(s: Sequence, vs: seq<Json>, n: nat, h: Hasher)
    requires 0 < n <= |vs| && n <= s.Len()
    ensures |Tails(s, vs, n, h)| == |Tails(s, vs, n - 1, h)| + if s.Get(n - 1).dynamic
            then |Enc(s.Get(n - 1), vs[n - 1], h)| else 0
    ensures s.HeadUpTo(n) == s.HeadUpTo(n - 1) + s.Get(n - 1).head
    ensures TextUpTo(vs, n) == TextUpTo(vs, n - 1) + TextSize(vs[n - 1])
  {
    hide Enc, TextSize;
  }

  // ---------------------------------------------------------------- whole lists

  lemma {:induction false} DefaultsAreExact(types: seq<AbiType>, h: Hasher)
    requires Fields(types).Valid()
    ensures var vs := Defaults(types);
            && TypedSeq(Fields(types), vs, h) && AllWithinDepth(vs, 0)
            && NodesUpTo(vs, |vs|) == Fields(types).MinimumNodes()
            && CanonicalSeq(Fields(types), vs, h) == vs
            && |EncSeq(Fields(types), vs, h)| == Fields(types).HeadUpTo(|vs|) + |Tails(Fields(types), vs, |vs|, h)|
  {
    hide Typed, Canonical, WithinDepth, DefaultValue, Defaults, Nodes, Tails, Heads, EncSeq, Enc;
    var s, vs := Fields(types), Defaults(types);
    forall i | 0 <= i < |types| ensures Exact(types[i], h) {
      DefaultIsExact(types[i], h);
    }
    forall i | 0 <= i < |vs| ensures Typed(s.Get(i), vs[i], h) && WithinDepth(vs[i], 0) {
      assert Exact(types[i], h) && types[i].Valid();
    }
    FieldsNodes(types, vs, |vs|, h);
    FieldsCanonical(types, vs, |vs|, h);
    assert vs[..|vs|] == vs;
    EncSeqLength(s, vs, h);
    SequenceTotals(s);
  }

  /** Defaults that are accepted encode, and decode back to themselves. */
  lemma {:induction false} DefaultsRoundTrip(types: seq<AbiType>, h: Hasher)
    requires Fields(types).Valid() && Encodable(types, Defaults(types), h)
    ensures Decode(types, EncSeq(Fields(types), Defaults(types), h), h) == Ok(Defaults(types))
  {
    hide Decode, EncSeq, CanonicalSeq, TypedSeq, NodesUpTo, TextUpTo, AllWithinDepth, Defaults, Tails;
    DefaultsAreExact(types, h);
    EncodeThenDecode(types, Defaults(types), h);
  }

  lemma {:induction false} UpToGrows(types: seq<AbiType>, n: nat, h: Hasher)
    requires n <= |types|
    ensures TextUpTo(Defaults(types), n) <= TextUpTo(Defaults(types), |types|)
            && BytesUpTo(types, n, h) <= BytesUpTo(types, |types|, h)
    decreases |types| - n
  {
    hide Defaults, Tails, TextUpTo, Sequence.HeadUpTo, TextSize, Enc;
    if n == |types| {
    } else {
      TailsStep(Fields(types), Defaults(types), n + 1, h);
      UpToGrows(types, n + 1, h);
    }
  }

  lemma {:induction false} PartTooLarge(types: seq<AbiType>, n: nat, h: Hasher)
    requires Fields(types).Valid() && n <= |types|
    requires TextUpTo(Defaults(types), n) > MAX_DATA_BYTES || BytesUpTo(types, n, h) > MAX_DATA_BYTES
    ensures !Encodable(types, Defaults(types), h)
  {
    hide EncSeq, CanonicalSeq, TypedSeq, NodesUpTo, AllWithinDepth, Defaults, Tails, TextUpTo, SequenceLimit,
         Sequence.HeadUpTo;
    UpToGrows(types, n, h);
    DefaultsAreExact(types, h);
  }

  /** Head and tail bytes of the first `n` defaults. */
  ghost function BytesUpTo(types: seq<AbiType>, n: nat, h: Hasher): nat
    requires n <= |types|
  {
    Fields(types).HeadUpTo(n) + |Tails(Fields(types), Defaults(types), n, h)|
  }

  lemma {:induction false} OneMore(types: seq<AbiType>, i: nat, h: Hasher)
    requires Fields(types).Valid() && i < |types|
    ensures DefaultTextSize(types[i]).Ok? ==>
            TextUpTo(Defaults(types), i + 1) == TextUpTo(Defaults(types), i) + DefaultTextSize(types[i]).value
    ensures DefaultTextSize(types[i]).Err? ==> TextUpTo(Defaults(types), i + 1) > MAX_DATA_BYTES
    ensures DefaultBodySize(types[i]).Ok? ==>
            BytesUpTo(types, i + 1, h) == BytesUpTo(types, i, h) + EntrySize(types[i], DefaultBodySize(types[i]).value)
    ensures DefaultBodySize(types[i]).Err? ==> BytesUpTo(types, i + 1, h) > MAX_DATA_BYTES
  {
    hide Tails, TextUpTo, DefaultTextSize, DefaultBodySize, DefaultValue, Enc, TextSize, Typed, Defaults;
    var ty, s, vs := types[i], Fields(types), Defaults(types);
    assert s.Get(i) == ty;
    TextSizeExact(ty);
    BodySizeExact(ty, h);
    assert Typed(ty, vs[i], h) by { DefaultIsExact(ty, h); }
    EntryBytes(ty, vs[i], h);
    TailsStep(s, vs, i + 1, h);
  }

  lemma {:induction false} DefaultsFit(types: seq<AbiType>, h: Hasher)
    requires Fields(types).Valid() && SequenceLimit(types)
    requires TextUpTo(Defaults(types), |types|) <= MAX_DATA_BYTES && BytesUpTo(types, |types|, h) <= MAX_DATA_BYTES
    ensures Encodable(types, Defaults(types), h)
  {
    hide EncSeq, CanonicalSeq, TypedSeq, NodesUpTo, AllWithinDepth, Tails, TextUpTo, Defaults;
    DefaultsAreExact(types, h);
  }

  /** Accepts exactly the type lists whose defaults encode, before building any of them. */
  method DefaultValues(types: seq<AbiType>, ghost h: Hasher) returns (r: Result<seq<Json>, AbiError>)
    requires Fields(types).Valid()
    ensures r.Ok? <==> Encodable(types, Defaults(types), h)
    ensures r.Ok? ==> r.value == Defaults(types)
  {
    hide Encodable, Tails, TextUpTo, DefaultTextSize, DefaultBodySize, Defaults, BytesUpTo;
    if !SequenceLimit(types) {
      if Encodable(types, Defaults(types), h) {
        LimitIsNeeded(types, Defaults(types), h);
      }
      return Err(Limit);
    }
    NothingYet(types, Defaults(types), h);
    var text, encoded, i := 0, 0, 0;
    while i < |types|
      invariant 0 <= i <= |types| && text == TextUpTo(Defaults(types), i) <= MAX_DATA_BYTES
      invariant encoded == BytesUpTo(types, i, h) <= MAX_DATA_BYTES
    {
      OneMore(types, i, h);
      var more, body := DefaultTextSize(types[i]), DefaultBodySize(types[i]);
      if more.Err? || body.Err? {
        PartTooLarge(types, i + 1, h);
        return Err(Limit);
      }
      text := text + more.value;
      encoded := encoded + EntrySize(types[i], body.value);
      if text > MAX_DATA_BYTES || encoded > MAX_DATA_BYTES {
        PartTooLarge(types, i + 1, h);
        return Err(Limit);
      }
      i := i + 1;
    }
    DefaultsFit(types, h);
    return Ok(Defaults(types));
  }

  lemma {:induction false} LimitIsNeeded(types: seq<AbiType>, values: seq<Json>, h: Hasher)
    requires Encodable(types, values, h)
    ensures SequenceLimit(types)
  {
  }

  lemma {:induction false} NothingYet(types: seq<AbiType>, vs: seq<Json>, h: Hasher)
    ensures TextUpTo(vs, 0) == 0 && BytesUpTo(types, 0, h) == 0
  {
  }
}
