/** Whatever the decoder accepts is, byte for byte, the encoding of the values it returns, and
    those values are canonical and within every limit the encoder checks. */
module AbiSoundness {
  import opened ByteStrings
  import opened AbiTypes
  import opened AbiText
  import opened AbiEncoding
  import opened AbiDecoding

  /** A size word is the only spelling of its number. */
  lemma {:induction false} SizeWordIsWord(bytes: seq<byte>, offset: nat)
    requires SizeWord(bytes, offset).Ok?
    ensures offset + 32 <= |bytes|
    ensures bytes[offset..offset + 32] == Word(SizeWord(bytes, offset).value)
  {
    var w := bytes[offset..offset + 32];
    BeNatPrefixZero(w, 24);
    ToBeOfBeNat(w);
  }

  /** Budget after a value: every node and every text byte of it was charged. */
  predicate Charged(before: Budget, after: Budget, nodes: nat, text: nat) {
    && after.nodes == before.nodes + nodes
    && after.bytes == before.bytes + text
    && after.bytes <= MAX_DATA_BYTES
  }

  /** `v` is what `bytes[offset..end]` spells. */
  predicate Spells(ty: AbiType, v: Json, bytes: seq<byte>, offset: nat, end: nat, h: Hasher) {
    && Typed(ty, v, h)
    && Canonical(ty, v, h) == v
    && offset <= end <= |bytes|
    && bytes[offset..end] == Enc(ty, v, h)
  }

  predicate SpellsSeq(s: Sequence, vs: seq<Json>, bytes: seq<byte>, base: nat, end: nat, h: Hasher) {
    && TypedSeq(s, vs, h)
    && CanonicalSeq(s, vs, h) == vs
    && base <= end <= |bytes|
    && bytes[base..end] == EncSeq(s, vs, h)
  }

  predicate SoundValue(ty: AbiType, bytes: seq<byte>, offset: nat, b: Budget, depth: nat, d: Decoded<Json>, h: Hasher) {
    && Spells(ty, d.value, bytes, offset, d.end, h)
    && WithinDepth(d.value, depth)
    && Charged(b, d.budget, Nodes(d.value), TextSize(d.value))
    && d.budget.nodes <= MAX_VALUE_NODES
  }

  predicate SoundSeq(s: Sequence, bytes: seq<byte>, base: nat, b: Budget, depth: nat, d: Decoded<seq<Json>>,
          h: Hasher) {
    && SpellsSeq(s, d.value, bytes, base, d.end, h)
    && Spent(d.value, b, d.budget, depth)
  }

  /** Heads and tails read so far are the heads and tails of the values so far. */
  predicate Laid(s: Sequence, bytes: seq<byte>, base: nat, n: nat, c: Cursor, h: Hasher)
    requires n <= s.Len()
  {
    && |c.values| == n
    && TypedUpTo(s, c.values, n, h)
    && CanonicalUpTo(s, c.values, n, h) == c.values
    && base <= c.head <= |bytes| && c.head == base + s.HeadUpTo(n)
    && base + s.Head() <= c.tail <= |bytes|
    && bytes[base..c.head] == Heads(s, c.values, n, h)
    && bytes[base + s.Head()..c.tail] == Tails(s, c.values, n, h)
  }

  predicate Spent(vs: seq<Json>, b: Budget, after: Budget, depth: nat) {
    && AllWithinDepth(vs, depth)
    && Charged(b, after, NodesUpTo(vs, |vs|), TextUpTo(vs, |vs|))
    && after.nodes <= MAX_VALUE_NODES
  }

  predicate SoundCursor(s: Sequence, bytes: seq<byte>, base: nat, n: nat, b: Budget, depth: nat, c: Cursor, h: Hasher)
    requires n <= s.Len()
  {
    Laid(s, bytes, base, n, c, h) && Spent(c.values, b, c.budget, depth)
  }

  lemma {:induction false} BlobBytes(bytes: seq<byte>, offset: nat, len: nat)
    requires SizeWord(bytes, offset) == Ok(len)
    requires offset + 32 + Padded(len) <= |bytes| && All(bytes[offset + 32 + len..offset + 32 + Padded(len)], 0)
    ensures bytes[offset..offset + 32 + Padded(len)] == Blob(bytes[offset + 32..offset + 32 + len])
  {
    hide Word, SizeWord;
    SizeWordIsWord(bytes, offset);
    var start, end := offset + 32, offset + 32 + Padded(len);
    assert bytes[start + len..end] == Zeros(Padded(len) - len);
    assert bytes[offset..end] == bytes[offset..start] + bytes[start..start + len] + bytes[start + len..end];
  }

  lemma {:induction false} BlobSound(ty: AbiType, bytes: seq<byte>, offset: nat, b: Budget, h: Hasher)
    requires ty.kind.Str? || ty.kind.DynBytes?
    requires DecBlob(ty.kind, bytes, offset, b).Ok?
    ensures var d := DecBlob(ty.kind, bytes, offset, b).value;
            && Spells(ty, d.value, bytes, offset, d.end, h)
            && d.value.String?
            && Charged(b, d.budget, 0, TextSize(d.value))
  {
    hide DecodeHex, Blob, SizeWord, All, Spells, Padded, IsUtf8, ToHex;
    var len := SizeWord(bytes, offset).value;
    assert Padded(len) >= len by { PaddedBound(len); }
    BlobBytes(bytes, offset, len);
    BlobSpells(ty, bytes[offset + 32..offset + 32 + len], bytes, offset, offset + 32 + Padded(len), h);
  }

  lemma {:induction false} PaddedBound(n: nat)
    ensures n <= Padded(n)
  {
  }

  /** A blob spells the text, or the hexadecimal text, of its content. */
  lemma {:induction false} BlobSpells(ty: AbiType, raw: seq<byte>, bytes: seq<byte>, offset: nat, end: nat, h: Hasher)
    requires offset <= end <= |bytes| && bytes[offset..end] == Blob(raw) && |raw| <= MAX_DATA_BYTES
    ensures ty.kind.Str? && IsUtf8(raw) ==> Spells(ty, String(raw), bytes, offset, end, h)
    ensures ty.kind.DynBytes? ==> Spells(ty, String(ToHex(raw)), bytes, offset, end, h)
  {
    hide DecodeHex, Blob, ToHex;
    DecodeHexOfToHex(raw);
  }

  lemma {:induction false} WordSound(ty: AbiType, bytes: seq<byte>, offset: nat, b: Budget, h: Hasher)
    requires IsWordKind(ty.kind) && DecWord(ty.kind, bytes, offset, b, h).Ok?
    ensures var d := DecWord(ty.kind, bytes, offset, b, h).value;
            && Spells(ty, d.value, bytes, offset, d.end, h)
            && !d.value.List?
            && Charged(b, d.budget, 0, TextSize(d.value))
  {
    WordRoundTrip(ty.kind, WordAt(bytes, offset).value, h);
    hide PrimitiveWord, CanonicalPrimitive;
  }

  lemma {:induction false} DecSound(ty: AbiType, bytes: seq<byte>, offset: nat, b: Budget, depth: nat, h: Hasher)
    requires depth <= MAX_DEPTH + 1 && ty.Valid()
    requires b.bytes <= MAX_DATA_BYTES && Dec(ty, bytes, offset, b, depth, h).Ok?
    ensures SoundValue(ty, bytes, offset, b, depth, Dec(ty, bytes, offset, b, depth, h).value, h)
    decreases MAX_DEPTH + 1 - depth, 0
  {
    hide DecBlob, DecWord, DecSeq, SizeWord, SoundSeq, Spells, SpellsSeq, New;
    var b' := SpendNode(b, depth).value;
    match ty.kind
    case Tuple(fields) =>
      DecSeqSound(Fields(fields), bytes, offset, b', depth + 1, h);
      var d := DecSeq(Fields(fields), bytes, offset, b', depth + 1, h).value;
      ContainerSound(ty, bytes, offset, offset, b, b', depth, d, h);
    case Array(child, length) =>
      var n := if length.Some? then length.value else SizeWord(bytes, offset).value;
      var base := if length.Some? then offset else offset + 32;
      if length.None? {
        SizeWordIsWord(bytes, offset);
      }
      DecSeqSound(Repeat(child, n), bytes, base, b', depth + 1, h);
      var d := DecSeq(Repeat(child, n), bytes, base, b', depth + 1, h).value;
      SpellsLength(Repeat(child, n), bytes, base, b', depth + 1, d, h);
      ContainerSound(ty, bytes, offset, base, b, b', depth, d, h);
    case Str =>
      BlobSound(ty, bytes, offset, b', h);
    case DynBytes =>
      BlobSound(ty, bytes, offset, b', h);
    case _ =>
      WordSound(ty, bytes, offset, b', h);
  }

  lemma {:induction false} SpellsLength(s: Sequence, bytes: seq<byte>, base: nat, b: Budget, depth: nat,
          d: Decoded<seq<Json>>, h: Hasher)
    requires SoundSeq(s, bytes, base, b, depth, d, h)
    ensures |d.value| == s.Len()
  {
    hide TypedUpTo, EncSeq, CanonicalSeq;
  }

  lemma {:induction false} ContainerSound(ty: AbiType, bytes: seq<byte>, offset: nat, base: nat, b: Budget,
          b': Budget, depth: nat, d: Decoded<seq<Json>>, h: Hasher)
    requires IsContainer(ty.kind) && SpendNode(b, depth) == Ok(b')
    requires ty.kind.Array? && ty.kind.length.Some? ==> ty.kind.length.value == |d.value|
    requires SoundSeq(Entries(ty.kind, |d.value|), bytes, base, b', depth + 1, d, h)
    requires if IsDynamicArray(ty.kind) then base == offset + 32 <= |bytes|
            && bytes[offset..base] == Word(|d.value|) else base == offset
    ensures SoundValue(ty, bytes, offset, b, depth, Decoded(List(d.value), d.end, d.budget), h)
  {
    hide TypedSeq, EncSeq, CanonicalSeq, Word;
    assert bytes[offset..d.end] == bytes[offset..base] + bytes[base..d.end];
  }

  lemma {:induction false} DecSeqSound(s: Sequence, bytes: seq<byte>, base: nat, b: Budget, depth: nat, h: Hasher)
    requires depth <= MAX_DEPTH + 1 && s.Valid()
    requires b.bytes <= MAX_DATA_BYTES && b.nodes <= MAX_VALUE_NODES && DecSeq(s, bytes, base, b, depth, h).Ok?
    ensures SoundSeq(s, bytes, base, b, depth, DecSeq(s, bytes, base, b, depth, h).value, h)
    decreases MAX_DEPTH + 1 - depth, 3
  {
    var n := s.Len();
    hide Heads, Tails, Typed, Canonical, CanonicalUpTo;
    DecUpToSound(s, bytes, base, n, b, depth, h);
    SequenceTotals(s);
    var c := DecUpTo(s, bytes, base, n, b, depth, h).value;
    assert bytes[base..c.tail] == bytes[base..c.head] + bytes[c.head..c.tail];
  }

  lemma {:induction false} DecUpToSound(s: Sequence, bytes: seq<byte>, base: nat, n: nat, b: Budget, depth: nat,
          h: Hasher)
    requires depth <= MAX_DEPTH + 1 && n <= s.Len() && s.Valid() && base + s.Head() <= |bytes|
    requires b.bytes <= MAX_DATA_BYTES && b.nodes <= MAX_VALUE_NODES && DecUpTo(s, bytes, base, n, b, depth, h).Ok?
    ensures SoundCursor(s, bytes, base, n, b, depth, DecUpTo(s, bytes, base, n, b, depth, h).value, h)
    decreases MAX_DEPTH + 1 - depth, 2, n
  {
    hide DecStep, Spent;
    if n == 0 {
      NothingSpent(b, depth);
    } else {
      DecUpToSound(s, bytes, base, n - 1, b, depth, h);
      var c := DecUpTo(s, bytes, base, n - 1, b, depth, h).value;
      DecStepSound(s, bytes, base, n - 1, b, c, depth, h);
    }
  }

  lemma {:induction false} NothingSpent(b: Budget, depth: nat)
    requires b.bytes <= MAX_DATA_BYTES && b.nodes <= MAX_VALUE_NODES
    ensures Spent([], b, b, depth)
  {
  }

  /** Appending an entry leaves everything about the earlier entries unchanged. */
  lemma {:induction false} Extend(s: Sequence, vs: seq<Json>, v: Json, h: Hasher)
    requires |vs| < s.Len()
    ensures var n, ws := |vs|, vs + [v];
            && Heads(s, ws, n, h) == Heads(s, vs, n, h)
            && Tails(s, ws, n, h) == Tails(s, vs, n, h)
            && CanonicalUpTo(s, ws, n, h) == CanonicalUpTo(s, vs, n, h)
            && HeadEntry(s, ws, n, h) == if s.Get(n).dynamic then Word(s.Head() + |Tails(s, vs, n, h)|)
              else Enc(s.Get(n), v, h)
  {
    hide Enc, Canonical, Heads, Tails, CanonicalUpTo, Word;
    var ws := vs + [v];
    HeadsPrefix(s, ws, vs, |vs|, h);
    TailsPrefix(s, ws, vs, |vs|, h);
    CanonicalPrefix(s, ws, vs, |vs|, h);
  }

  lemma {:induction false} SpendNext(vs: seq<Json>, v: Json, b: Budget, mid: Budget, after: Budget, depth: nat)
    requires Spent(vs, b, mid, depth)
    requires WithinDepth(v, depth) && Charged(mid, after, Nodes(v), TextSize(v)) && after.nodes <= MAX_VALUE_NODES
    ensures Spent(vs + [v], b, after, depth)
  {
    hide Nodes, TextSize, WithinDepth;
    ResourcePrefix(vs + [v], vs, |vs|);
  }

  lemma {:induction false} DecStepSound(s: Sequence, bytes: seq<byte>, base: nat, n: nat, b: Budget, c: Cursor,
          depth: nat, h: Hasher)
    requires depth <= MAX_DEPTH + 1 && n < s.Len() && s.Valid() && base + s.Head() <= |bytes|
    requires b.bytes <= MAX_DATA_BYTES && SoundCursor(s, bytes, base, n, b, depth, c, h)
    requires DecStep(s.Get(n), bytes, base, c, depth, h).Ok?
    ensures SoundCursor(s, bytes, base, n + 1, b, depth, DecStep(s.Get(n), bytes, base, c, depth, h).value, h)
    decreases MAX_DEPTH + 1 - depth, 1
  {
    hide Dec, Spells, SizeWord, Spent, Laid, WithinDepth, Charged, New, Word;
    var ty := s.Get(n);
    LaidBounds(s, bytes, base, n, c, h);
    var c' := DecStep(ty, bytes, base, c, depth, h).value;
    var offset := if ty.dynamic then c.tail else c.head;
    SpentBounds(c.values, b, c.budget, depth);
    DecSound(ty, bytes, offset, c.budget, depth, h);
    var d := Dec(ty, bytes, offset, c.budget, depth, h).value;
    SpellsBounds(ty, d.value, bytes, offset, d.end, h);
    if ty.dynamic {
      DynamicHead(ty);
      SizeWordIsWord(bytes, c.head);
    }
    StepSound(s, bytes, base, n, b, c, c', depth, d, h);
  }

  lemma {:induction false} LaidBounds(s: Sequence, bytes: seq<byte>, base: nat, n: nat, c: Cursor, h: Hasher)
    requires n <= s.Len() && Laid(s, bytes, base, n, c, h)
    ensures base <= c.head <= |bytes| && base <= c.tail <= |bytes|
  {
  }

  lemma {:induction false} SpentBounds(vs: seq<Json>, b: Budget, after: Budget, depth: nat)
    requires Spent(vs, b, after, depth)
    ensures after.bytes <= MAX_DATA_BYTES && after.nodes <= MAX_VALUE_NODES
  {
  }

  lemma {:induction false} SpellsBounds(ty: AbiType, v: Json, bytes: seq<byte>, offset: nat, end: nat, h: Hasher)
    requires Spells(ty, v, bytes, offset, end, h)
    ensures offset <= end <= |bytes|
  {
  }

  lemma {:induction false} StepSound(s: Sequence, bytes: seq<byte>, base: nat, n: nat, b: Budget, c: Cursor,
          c': Cursor, depth: nat, d: Decoded<Json>, h: Hasher)
    requires n < s.Len() && base + s.Head() <= |bytes| && SoundCursor(s, bytes, base, n, b, depth, c, h)
    requires var ty := s.Get(n);
             && SoundValue(ty, bytes, if ty.dynamic then c.tail else c.head, c.budget, depth, d, h)
             && c' == Cursor(c.values + [d.value], c.head + ty.head, if ty.dynamic then d.end else c.tail, d.budget)
             && c'.head <= |bytes|
             && if ty.dynamic then ty.head == 32 && bytes[c.head..c'.head] == Word(c.tail - base) else d.end == c'.head
    ensures SoundCursor(s, bytes, base, n + 1, b, depth, c', h)
  {
    hide Laid, Spells, Spent, Word;
    SpendNext(c.values, d.value, b, c.budget, d.budget, depth);
    LayNext(s, bytes, base, n, c, c', d.value, d.end, h);
  }

  lemma {:induction false} LayNext(s: Sequence, bytes: seq<byte>, base: nat, n: nat, c: Cursor, c': Cursor, v: Json,
          end: nat, h: Hasher)
    requires n < s.Len() && base + s.Head() <= |bytes| && Laid(s, bytes, base, n, c, h)
    requires var ty := s.Get(n);
             && Spells(ty, v, bytes, if ty.dynamic then c.tail else c.head, end, h)
             && c'.values == c.values + [v] && c'.head == c.head + ty.head <= |bytes|
             && c'.tail == (if ty.dynamic then end else c.tail)
             && if ty.dynamic then ty.head == 32 && bytes[c.head..c'.head] == Word(c.tail - base) else end == c'.head
    ensures Laid(s, bytes, base, n + 1, c', h)
  {
    hide Enc, Typed, TypedUpTo, Canonical, Word, HeadEntry, Heads, Tails, CanonicalUpTo, Sequence.Head,
         Sequence.HeadUpTo, Sequence.Get, Sequence.Len;
    var ty, ws := s.Get(n), c.values + [v];
    Extend(s, c.values, v, h);
    Appended(s, ws, n, h);
    assert c'.values == ws && ws[n] == v;
    SliceJoin(bytes, base, c.head, c'.head, Heads(s, ws, n, h), HeadEntry(s, ws, n, h));
    if ty.dynamic {
      SliceJoin(bytes, base + s.Head(), c.tail, c'.tail, Tails(s, ws, n, h), Enc(ty, v, h));
    }
    TypedNext(s, c.values, v, h);
  }

  lemma {:induction false} SliceJoin(bytes: seq<byte>, a: nat, b: nat, c: nat, x: seq<byte>, y: seq<byte>)
    requires a <= b <= c <= |bytes| && bytes[a..b] == x && bytes[b..c] == y
    ensures bytes[a..c] == x + y
  {
    assert bytes[a..c] == bytes[a..b] + bytes[b..c];
  }

  lemma {:induction false} TypedNext(s: Sequence, vs: seq<Json>, v: Json, h: Hasher)
    requires |vs| < s.Len() && TypedUpTo(s, vs, |vs|, h) && Typed(s.Get(|vs|), v, h)
    ensures TypedUpTo(s, vs + [v], |vs| + 1, h)
  {
    hide Typed;
  }

  /** One more entry, in each of the running sequences. */
  lemma {:induction false} Appended(s: Sequence, ws: seq<Json>, n: nat, h: Hasher)
    requires n < |ws| && n < s.Len()
    ensures Heads(s, ws, n + 1, h) == Heads(s, ws, n, h) + HeadEntry(s, ws, n, h)
    ensures Tails(s, ws, n + 1, h) == if s.Get(n).dynamic then Tails(s, ws, n, h) + Enc(s.Get(n), ws[n], h)
            else Tails(s, ws, n, h)
    ensures CanonicalUpTo(s, ws, n + 1, h) == CanonicalUpTo(s, ws, n, h) + [Canonical(s.Get(n), ws[n], h)]
    ensures s.HeadUpTo(n + 1) == s.HeadUpTo(n) + s.Get(n).head
  {
    hide Enc, Canonical, HeadEntry;
  }
}
