/** The two directions of the codec for whole parameter lists, with every resource limit. */
module AbiRoundTrip {
  import opened ByteStrings
  import opened AbiTypes
  import opened AbiText
  import opened AbiEncoding
  import opened AbiDecoding
  import opened AbiSoundness
  import opened AbiCompleteness

  /** Whatever `decode` accepts, `encode` accepts, and gives back the same bytes. */
  lemma {:induction false} DecodeThenEncode(types: seq<AbiType>, bytes: seq<byte>, h: Hasher)
    requires Fields(types).Valid() && Decode(types, bytes, h).Ok?
    ensures var values := Decode(types, bytes, h).value;
            && Encodable(types, values, h)
            && EncSeq(Fields(types), values, h) == bytes
            && CanonicalSeq(Fields(types), values, h) == values
  {
    hide DecSeq, EncSeq, CanonicalSeq, TypedUpTo, NodesUpTo, TextUpTo, AllWithinDepth;
    DecSeqSound(Fields(types), bytes, 0, Budget(0, 0), 0, h);
    assert bytes[0..|bytes|] == bytes;
  }

  /** Whatever `encode` accepts, `decode` gives back in canonical spelling, exactly when that
      spelling fits the decoder's text budget. */
  lemma {:induction false} EncodeThenDecode(types: seq<AbiType>, values: seq<Json>, h: Hasher)
    requires Fields(types).Valid() && Encodable(types, values, h)
    ensures var canonical := CanonicalSeq(Fields(types), values, h);
            Decode(types, EncSeq(Fields(types), values, h), h)
            == if TextUpTo(canonical, |canonical|) <= MAX_DATA_BYTES then Ok(canonical) else Err(Limit)
  {
    hide DecSeq, EncSeq, CanonicalSeq, TypedUpTo, NodesUpTo, TextUpTo, AllWithinDepth;
    var s := Fields(types);
    var bytes := EncSeq(s, values, h);
    assert WholeWords(|bytes|) by {
      EncSeqWholeWords(s, values, h);
    }
    assert bytes[0..|bytes|] == bytes;
    DecSeqComplete(s, values, bytes, 0, Budget(0, 0), 0, h);
  }

  /** The accepted byte strings are exactly the encodings of encodable canonical values. */
  lemma {:induction false} DecodeImage(types: seq<AbiType>, bytes: seq<byte>, values: seq<Json>, h: Hasher)
    requires Fields(types).Valid()
    ensures Decode(types, bytes, h) == Ok(values)
            <==> (Encodable(types, values, h)
                  && CanonicalSeq(Fields(types), values, h) == values
                  && EncSeq(Fields(types), values, h) == bytes)
  {
    hide Decode, EncSeq, CanonicalSeq, TypedSeq, NodesUpTo, TextUpTo, AllWithinDepth;
    if Decode(types, bytes, h).Ok? {
      DecodeThenEncode(types, bytes, h);
    }
    if Encodable(types, values, h) {
      EncodeThenDecode(types, values, h);
    }
  }

  /** Two byte strings that decode to the same values are the same byte string. */
  lemma {:induction false} DecodeInjective(types: seq<AbiType>, a: seq<byte>, b: seq<byte>, h: Hasher)
    requires Fields(types).Valid() && Decode(types, a, h).Ok? && Decode(types, a, h) == Decode(types, b, h)
    ensures a == b
  {
    hide Decode, EncSeq, CanonicalSeq, Encodable;
    DecodeThenEncode(types, a, h);
    DecodeThenEncode(types, b, h);
  }

  // ---------------------------------------------------------------- why the text condition is needed

  /** Forty zero digits: the zero address spelled without its prefix. */
  const BareZeroAddress: Text := (AsciiIsUtf8(seq(40, _ => ZERO)); seq(40, _ => ZERO))

  const ADDRESS: AbiType := AbiType(Address, false, 32, 1, 0)
  const ADDRESSES: AbiType := AbiType(Array(ADDRESS, None), true, 32, 1, 1)

  function Copies(v: Json, n: nat): (vs: seq<Json>)
    ensures |vs| == n && forall i :: 0 <= i < n ==> vs[i] == v
  {
    seq(n, _ => v)
  }

  lemma {:induction false} CopiesCost(v: Json, vs: seq<Json>, n: nat)
    requires n <= |vs| && forall i :: 0 <= i < n ==> vs[i] == v
    ensures NodesUpTo(vs, n) == n * Nodes(v) && TextUpTo(vs, n) == n * TextSize(v)
  {
    hide Nodes, TextSize;
    if n == 0 {
    } else {
      CopiesCost(v, vs, n - 1);
      assert n * Nodes(v) == (n - 1) * Nodes(v) + Nodes(v);
      assert n * TextSize(v) == (n - 1) * TextSize(v) + TextSize(v);
    }
  }

  lemma {:induction false} CopiesLayout(ty: AbiType, v: Json, vs: seq<Json>, n: nat, h: Hasher)
    requires n <= |vs| && forall i :: 0 <= i < |vs| ==> vs[i] == v
    ensures forall i :: 0 <= i < n ==> CanonicalUpTo(Repeat(ty, |vs|), vs, n, h)[i] == Canonical(ty, v, h)
    ensures !ty.dynamic ==>
              |Heads(Repeat(ty, |vs|), vs, n, h)| == n * |Enc(ty, v, h)|
              && Tails(Repeat(ty, |vs|), vs, n, h) == []
  {
    hide Canonical, Enc, Word;
    if n == 0 {
    } else {
      CopiesLayout(ty, v, vs, n - 1, h);
    }
  }

  lemma {:induction false} ZeroAddressWord(h: Hasher)
    ensures var v := String(BareZeroAddress);
            && Typed(ADDRESS, v, h) && |Enc(ADDRESS, v, h)| == 32
            && TextSize(v) == 40 && TextSize(Canonical(ADDRESS, v, h)) == 42
            && Nodes(v) == 1
  {
    var hex := BareZeroAddress;
    assert DigitsIn(hex, 16) && !HasLower(hex) && !HasHexPrefix(hex);
  }

  lemma {:induction false} AddressListCost(n: nat, h: Hasher)
    ensures var v := List(Copies(String(BareZeroAddress), n));
            && Typed(ADDRESSES, v, h)
            && Nodes(v) == 1 + n && TextSize(v) == 40 * n && WithinDepth(v, 0)
            && |Enc(ADDRESSES, v, h)| == 32 + 32 * n
            && TextSize(Canonical(ADDRESSES, v, h)) == 42 * n
  {
    var v := String(BareZeroAddress);
    var items := Copies(v, n);
    var s := Repeat(ADDRESS, n);
    assert Enc(ADDRESSES, List(items), h) == Word(n) + EncSeq(s, items, h);
    assert Canonical(ADDRESSES, List(items), h) == List(CanonicalSeq(s, items, h));
    assert WithinDepth(v, 1);
    ZeroAddressWord(h);
    hide PrimitiveWord, Canonical, Word, Enc, BareZeroAddress;
    assert TypedSeq(s, items, h);
    CopiesLayout(ADDRESS, v, items, n, h);
    CopiesCost(v, items, n);
    CopiesCost(Canonical(ADDRESS, v, h), CanonicalSeq(s, items, h), n);
  }

  /** A list that `encode` accepts and whose encoding `decode` refuses: 25000 unprefixed addresses
      use 1000000 bytes of text, their checksummed spellings 1050000. */
  lemma {:induction false} EncodeAcceptsWhatDecodeRefuses(h: Hasher)
    ensures var values := [List(Copies(String(BareZeroAddress), 25000))];
            && Fields([ADDRESSES]).Valid()
            && Encodable([ADDRESSES], values, h)
            && Decode([ADDRESSES], EncSeq(Fields([ADDRESSES]), values, h), h) == Err(Limit)
  {
    var v := List(Copies(String(BareZeroAddress), 25000));
    AddressListCost(25000, h);
    SingleValue(ADDRESSES, v, h);
    hide Decode, Enc, EncSeq, CanonicalSeq, Typed, TypedSeq, Nodes, TextSize, WithinDepth, NodesUpTo, TextUpTo,
         AllWithinDepth;
    EncodeThenDecode([ADDRESSES], [v], h);
  }

  /** A one-parameter list, in terms of its value. */
  lemma {:induction false} SingleValue(ty: AbiType, v: Json, h: Hasher)
    requires ty.Valid() && Typed(ty, v, h)
    ensures var s, vs := Fields([ty]), [v];
            && s.Valid() && TypedSeq(s, vs, h)
            && s.MinimumNodes() == ty.minimumNodes
            && NodesUpTo(vs, 1) == Nodes(v) && TextUpTo(vs, 1) == TextSize(v)
            && (WithinDepth(v, 0) ==> AllWithinDepth(vs, 0))
            && CanonicalSeq(s, vs, h) == [Canonical(ty, v, h)]
            && TextUpTo([Canonical(ty, v, h)], 1) == TextSize(Canonical(ty, v, h))
            && EncSeq(s, vs, h) == (if ty.dynamic then Word(32) else []) + Enc(ty, v, h)
  {
    hide Enc, Canonical, Typed, Nodes, TextSize, WithinDepth, Word;
    var s, vs := Fields([ty]), [v];
    assert s.HeadUpTo(0) == 0 && s.NodesUpTo(0) == 0;
    if ty.dynamic {
      DynamicHead(ty);
    }
    assert Heads(s, vs, 1, h) == Heads(s, vs, 0, h) + HeadEntry(s, vs, 0, h);
    assert Tails(s, vs, 0, h) == [];
  }
}
