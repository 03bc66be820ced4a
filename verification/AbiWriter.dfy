/** The writer fills one zeroed buffer in place; what it leaves there is the encoding, and it
    touches nothing else (codec.rs, `write` and `write_sequence`). */
module AbiWriter {
  import opened ByteStrings
  import opened AbiTypes
  import opened AbiText
  import opened AbiEncoding

  /** `buf` with `data` written over it at `offset`. */
  function Splice(buf: seq<byte>, offset: nat, data: seq<byte>): (r: seq<byte>)
    requires offset + |data| <= |buf|
    ensures |r| == |buf|
  {
    buf[..offset] + data + buf[offset + |data|..]
  }

  predicate Blank(buf: seq<byte>, from: nat, len: nat) {
    from + len <= |buf| && forall i :: from <= i < from + len ==> buf[i] == 0
  }

  lemma {:induction false} SpliceAppend(buf: seq<byte>, p: nat, x: seq<byte>, y: seq<byte>)
    requires p + |x| + |y| <= |buf|
    ensures Splice(Splice(buf, p, x), p + |x|, y) == Splice(buf, p, x + y)
  {
  }

  lemma {:induction false} SpliceCommute(buf: seq<byte>, p: nat, x: seq<byte>, q: nat, y: seq<byte>)
    requires p + |x| <= q && q + |y| <= |buf|
    ensures Splice(Splice(buf, p, x), q, y) == Splice(Splice(buf, q, y), p, x)
  {
  }

  lemma {:induction false} SpliceNothing(buf: seq<byte>, p: nat)
    requires p <= |buf|
    ensures Splice(buf, p, []) == buf
  {
  }

  /** Bytes outside a write keep their value. */
  lemma {:induction false} SpliceOutside(buf: seq<byte>, p: nat, x: seq<byte>, from: nat, len: nat)
    requires p + |x| <= |buf| && Blank(buf, from, len)
    requires from + len <= p || p + |x| <= from
    ensures Blank(Splice(buf, p, x), from, len)
  {
  }

  /** Writing zeros over a blank stretch changes nothing. */
  lemma {:induction false} SpliceZeros(buf: seq<byte>, p: nat, n: nat)
    requires Blank(buf, p, n)
    ensures Splice(buf, p, Zeros(n)) == buf
  {
    assert buf[p..p + n] == Zeros(n);
    assert buf == buf[..p] + buf[p..p + n] + buf[p + n..];
  }

  method Put(output: array<byte>, offset: nat, data: seq<byte>)
    requires offset + |data| <= output.Length
    modifies output
    ensures output[..] == Splice(old(output[..]), offset, data)
  {
    forall i | 0 <= i < |data| {
      output[offset + i] := data[i];
    }
    assert forall i :: offset <= i < offset + |data| ==> output[i] == data[i - offset];
    assert output[..offset] == old(output[..])[..offset];
    assert output[offset..offset + |data|] == data;
    assert output[offset + |data|..] == old(output[..])[offset + |data|..];
    assert output[..] == output[..offset] + output[offset..offset + |data|] + output[offset + |data|..];
  }

  /** The buffer after the first `n` entries of a sequence were written. */
  ghost function Progress(buf: seq<byte>, s: Sequence, vs: seq<Json>, n: nat, base: nat, h: Hasher): (out: seq<byte>)
    requires n <= |vs| && n <= s.Len() && Fits(s, vs, n, h) && base + |EncSeq(s, vs, h)| <= |buf|
    ensures |out| == |buf|
  {
    Splice(Splice(buf, base, Heads(s, vs, n, h)), base + s.Head(), Tails(s, vs, n, h))
  }

  /** Heads stay in front of tails, and both inside the encoding. */
  predicate Fits(s: Sequence, vs: seq<Json>, n: nat, h: Hasher)
    requires n <= |vs| && n <= s.Len()
  {
    && |Heads(s, vs, n, h)| == s.HeadUpTo(n) <= s.Head()
    && s.Head() + |Tails(s, vs, n, h)| <= |EncSeq(s, vs, h)|
  }

  /** Every prefix of a well-typed sequence fits. */
  lemma {:induction false} Room(s: Sequence, vs: seq<Json>, n: nat, h: Hasher)
    requires s.Valid() && TypedSeq(s, vs, h) && n <= |vs|
    ensures Fits(s, vs, n, h)
  {
    hide Enc, EncSeq, Typed, Tails, Heads;
    EncSeqLength(s, vs, h);
    SequenceTotals(s);
    PrefixTyped(s, vs, n, h);
    LayoutLength(s, vs, n, h);
    HeadsGrow(s, n, s.Len());
    if n < |vs| {
      TailsGrow(s, vs, n, |vs|, h);
    }
  }

  lemma {:induction false} PrefixTyped(s: Sequence, vs: seq<Json>, n: nat, h: Hasher)
    requires TypedSeq(s, vs, h) && n <= |vs|
    ensures TypedUpTo(s, vs, n, h)
  {
    hide Typed;
  }

  lemma {:induction false} HeadsGrow(s: Sequence, m: nat, n: nat)
    requires m <= n <= s.Len()
    ensures s.HeadUpTo(m) <= s.HeadUpTo(n)
    decreases n
  {
    if m == n {
    } else {
      HeadsGrow(s, m, n - 1);
    }
  }

  /** Writing the next static entry: it lands on blank bytes and extends the heads. */
  lemma {:induction false} SpliceStatic(buf: seq<byte>, base: nat, heads: seq<byte>, q: nat, tails: seq<byte>,
          e: seq<byte>, end: nat)
    requires base + |heads| + |e| <= q && q + |tails| <= end && Blank(buf, base, end - base)
    ensures var b := Splice(Splice(buf, base, heads), q, tails);
            && Blank(b, base + |heads|, |e|)
            && Splice(b, base + |heads|, e) == Splice(Splice(buf, base, heads + e), q, tails)
  {
    hide Splice;
    var p := base + |heads|;
    SpliceOutside(buf, base, heads, p, |e|);
    SpliceOutside(Splice(buf, base, heads), q, tails, p, |e|);
    SpliceCommute(Splice(buf, base, heads), p, e, q, tails);
    SpliceAppend(buf, base, heads, e);
  }

  /** Writing the next dynamic entry: its offset extends the heads, its encoding the tails. */
  lemma {:induction false} SpliceDynamic(buf: seq<byte>, base: nat, heads: seq<byte>, w: seq<byte>, q: nat,
          tails: seq<byte>, e: seq<byte>, end: nat)
    requires base + |heads| + |w| <= q && q + |tails| + |e| <= end && Blank(buf, base, end - base)
    ensures var mid := Splice(Splice(Splice(buf, base, heads), q, tails), base + |heads|, w);
            && Blank(mid, q + |tails|, |e|)
            && Splice(mid, q + |tails|, e) == Splice(Splice(buf, base, heads + w), q, tails + e)
  {
    hide Splice;
    var p, t := base + |heads|, q + |tails|;
    var b1 := Splice(buf, base, heads);
    SpliceOutside(buf, base, heads, t, |e|);
    SpliceOutside(b1, q, tails, t, |e|);
    SpliceOutside(Splice(b1, q, tails), p, w, t, |e|);
    SpliceCommute(b1, p, w, q, tails);
    SpliceAppend(buf, base, heads, w);
    SpliceAppend(Splice(buf, base, heads + w), q, tails, e);
  }

  lemma {:induction false} LayoutNext(s: Sequence, vs: seq<Json>, n: nat, h: Hasher)
    requires n < |vs| && n < s.Len()
    ensures var heads, tails, e := Heads(s, vs, n, h), Tails(s, vs, n, h), Enc(s.Get(n), vs[n], h);
            if s.Get(n).dynamic then
              Heads(s, vs, n + 1, h) == heads + Word(s.Head() + |tails|) && Tails(s, vs, n + 1, h) == tails + e
            else
              Heads(s, vs, n + 1, h) == heads + e && Tails(s, vs, n + 1, h) == tails
  {
    hide Enc, Word;
  }

  lemma {:induction false} ProgressStatic(buf: seq<byte>, s: Sequence, vs: seq<Json>, n: nat, base: nat, h: Hasher)
    requires s.Valid() && TypedSeq(s, vs, h) && n < |vs| && !s.Get(n).dynamic && Blank(buf, base, |EncSeq(s, vs, h)|)
    ensures Fits(s, vs, n, h) && Fits(s, vs, n + 1, h) && |Tails(s, vs, n, h)| == |Tails(s, vs, n + 1, h)|
    ensures var e := Enc(s.Get(n), vs[n], h);
            && Blank(Progress(buf, s, vs, n, base, h), base + s.HeadUpTo(n), |e|)
            && Splice(Progress(buf, s, vs, n, base, h), base + s.HeadUpTo(n), e) == Progress(buf, s, vs, n + 1, base, h)
  {
    hide Enc, EncSeq, Typed, Splice, Heads, Tails, Blank;
    Room(s, vs, n, h);
    Room(s, vs, n + 1, h);
    LayoutNext(s, vs, n, h);
    var heads, tails, e := Heads(s, vs, n, h), Tails(s, vs, n, h), Enc(s.Get(n), vs[n], h);
    BlankFits(buf, base, |EncSeq(s, vs, h)|);
    SpliceStatic(buf, base, heads, base + s.Head(), tails, e, base + |EncSeq(s, vs, h)|);
  }

  lemma {:induction false} ProgressDynamic(buf: seq<byte>, s: Sequence, vs: seq<Json>, n: nat, base: nat, h: Hasher)
    requires s.Valid() && TypedSeq(s, vs, h) && n < |vs| && s.Get(n).dynamic && Blank(buf, base, |EncSeq(s, vs, h)|)
    ensures Fits(s, vs, n, h) && Fits(s, vs, n + 1, h) && s.HeadUpTo(n) + 32 <= s.Head()
    ensures |Tails(s, vs, n + 1, h)| == |Tails(s, vs, n, h)| + |Enc(s.Get(n), vs[n], h)|
    ensures var t, e := |Tails(s, vs, n, h)|, Enc(s.Get(n), vs[n], h);
            var mid := Splice(Progress(buf, s, vs, n, base, h), base + s.HeadUpTo(n), Word(s.Head() + t));
            && Blank(mid, base + s.Head() + t, |e|)
            && Splice(mid, base + s.Head() + t, e) == Progress(buf, s, vs, n + 1, base, h)
  {
    hide Enc, EncSeq, Typed, Splice, Heads, Tails, Blank, Word;
    Room(s, vs, n, h);
    Room(s, vs, n + 1, h);
    LayoutNext(s, vs, n, h);
    var heads, tails, e := Heads(s, vs, n, h), Tails(s, vs, n, h), Enc(s.Get(n), vs[n], h);
    var w := Word(s.Head() + |tails|);
    BlankFits(buf, base, |EncSeq(s, vs, h)|);
    SpliceDynamic(buf, base, heads, w, base + s.Head(), tails, e, base + |EncSeq(s, vs, h)|);
  }

  method WriteSequence(s: Sequence, vs: seq<Json>, base: nat, output: array<byte>, h: Hasher) returns (end: nat)
    requires s.Valid() && TypedSeq(s, vs, h) && Blank(output[..], base, |EncSeq(s, vs, h)|)
    modifies output
    ensures end == base + |EncSeq(s, vs, h)|
    ensures output[..] == Splice(old(output[..]), base, EncSeq(s, vs, h))
    decreases vs, 2
  {
    hide Enc, EncSeq, Typed, Splice, Word, Heads, Tails, Blank, Progress;
    ghost var buf := output[..];
    var head, tail := base, base + s.Head();
    StartWriting(buf, s, vs, base, h);
    for i := 0 to |vs|
      invariant Fits(s, vs, i, h)
      invariant head == base + s.HeadUpTo(i) && tail == base + s.Head() + |Tails(s, vs, i, h)|
      invariant base + |EncSeq(s, vs, h)| <= |buf| && output[..] == Progress(buf, s, vs, i, base, h)
    {
      tail := WriteEntry(s, vs, i, base, head, tail, output, buf, h);
      head := head + s.Get(i).head;
    }
    FinishWriting(buf, s, vs, base, h);
    return tail;
  }

  lemma {:induction false} HeadInside(s: Sequence, vs: seq<Json>, i: nat, base: nat, len: nat, h: Hasher)
    requires i <= |vs| && i <= s.Len() && Fits(s, vs, i, h) && s.HeadUpTo(i) + 32 <= s.Head()
            && base + |EncSeq(s, vs, h)| <= len
    ensures base + s.HeadUpTo(i) + 32 <= len
  {
    hide Sequence.Head, Sequence.HeadUpTo, Tails, Heads, EncSeq;
  }

  lemma {:induction false} EntryIsTyped(s: Sequence, vs: seq<Json>, i: nat, h: Hasher)
    requires i < |vs| && TypedSeq(s, vs, h) && s.Valid()
    ensures i < s.Len() && Typed(s.Get(i), vs[i], h) && s.Get(i).Valid()
  {
    hide Typed;
  }

  /** One entry: in the heads, or an offset there and the value behind the tails. */
  method WriteEntry(s: Sequence, vs: seq<Json>, i: nat, base: nat, head: nat, tail: nat, output: array<byte>,
          ghost buf: seq<byte>, h: Hasher)
    returns (end: nat)
    requires s.Valid() && TypedSeq(s, vs, h) && Blank(buf, base, |EncSeq(s, vs, h)|) && i < |vs|
    requires Fits(s, vs, i, h) && head == base + s.HeadUpTo(i) && tail == base + s.Head() + |Tails(s, vs, i, h)|
    requires base + |EncSeq(s, vs, h)| <= |buf| && output[..] == Progress(buf, s, vs, i, base, h)
    modifies output
    ensures Fits(s, vs, i + 1, h) && end == base + s.Head() + |Tails(s, vs, i + 1, h)|
    ensures output[..] == Progress(buf, s, vs, i + 1, base, h)
    decreases vs, 1
  {
    hide Enc, EncSeq, Typed, Splice, Word, Heads, Tails, Blank, Progress, Sequence.Head, Sequence.HeadUpTo;
    var ty := s.Get(i);
    assert |output[..]| == |buf|;
    EntryIsTyped(s, vs, i, h);
    hide TypedSeq, TypedUpTo;
    if ty.dynamic {
      ProgressDynamic(buf, s, vs, i, base, h);
      assert head + 32 <= |buf| by { HeadInside(s, vs, i, base, |buf|, h); }
      Put(output, head, Word(tail - base));
      end := Write(ty, vs[i], tail, output, h);
    } else {
      ProgressStatic(buf, s, vs, i, base, h);
      var _ := Write(ty, vs[i], head, output, h);
      end := tail;
    }
  }

  lemma {:induction false} StartWriting(buf: seq<byte>, s: Sequence, vs: seq<Json>, base: nat, h: Hasher)
    requires s.Valid() && TypedSeq(s, vs, h) && Blank(buf, base, |EncSeq(s, vs, h)|)
    ensures base + |EncSeq(s, vs, h)| <= |buf|
    ensures Fits(s, vs, 0, h) && |Tails(s, vs, 0, h)| == 0
    ensures Progress(buf, s, vs, 0, base, h) == buf
  {
    hide Enc, EncSeq, Typed, Splice;
    Room(s, vs, 0, h);
    SpliceNothing(buf, base);
    SpliceNothing(buf, base + s.Head());
  }

  lemma {:induction false} FinishWriting(buf: seq<byte>, s: Sequence, vs: seq<Json>, base: nat, h: Hasher)
    requires s.Valid() && TypedSeq(s, vs, h) && base + |EncSeq(s, vs, h)| <= |buf|
    ensures Fits(s, vs, |vs|, h) && s.Head() + |Tails(s, vs, |vs|, h)| == |EncSeq(s, vs, h)|
    ensures Progress(buf, s, vs, |vs|, base, h) == Splice(buf, base, EncSeq(s, vs, h))
  {
    hide Enc, Typed, Splice, Heads, Tails;
    EncSeqLength(s, vs, h);
    Room(s, vs, |vs|, h);
    SequenceTotals(s);
    SpliceAppend(buf, base, Heads(s, vs, |vs|, h), Tails(s, vs, |vs|, h));
  }

  method Write(ty: AbiType, v: Json, offset: nat, output: array<byte>, h: Hasher) returns (end: nat)
    requires ty.Valid() && Typed(ty, v, h) && Blank(output[..], offset, |Enc(ty, v, h)|)
    modifies output
    ensures end == offset + |Enc(ty, v, h)|
    ensures output[..] == Splice(old(output[..]), offset, Enc(ty, v, h))
    decreases v, 0
  {
    hide EncSeq, TypedUpTo, PrimitiveWord, DecodeHex, Word, Blob, Splice, Blank;
    match ty.kind {
      case Tuple(fields) =>
        end := WriteSequence(Fields(fields), v.items, offset, output, h);
      case Array(child, length) =>
        ghost var body := EncSeq(Repeat(child, |v.items|), v.items, h);
        if length.None? {
          LengthFirst(output[..], offset, Word(|v.items|), body);
          Put(output, offset, Word(|v.items|));
          end := WriteSequence(Repeat(child, |v.items|), v.items, offset + 32, output, h);
        } else {
          assert [] + body == body;
          end := WriteSequence(Repeat(child, |v.items|), v.items, offset, output, h);
        }
      case Str =>
        end := WriteBlob(v.text, offset, output);
      case DynBytes =>
        end := WriteBlob(DecodeHex(v).value, offset, output);
      case _ =>
        var w := PrimitiveWord(ty.kind, v, h).value;
        BlankFits(output[..], offset, |w|);
        Put(output, offset, w);
        end := offset + 32;
    }
  }

  lemma {:induction false} BlankFits(buf: seq<byte>, from: nat, len: nat)
    requires Blank(buf, from, len)
    ensures from + len <= |buf|
  {
  }

  lemma {:induction false} LengthFirst(buf: seq<byte>, offset: nat, w: seq<byte>, body: seq<byte>)
    requires Blank(buf, offset, |w + body|)
    ensures offset + |w| + |body| <= |buf| && Blank(Splice(buf, offset, w), offset + |w|, |body|)
    ensures Splice(Splice(buf, offset, w), offset + |w|, body) == Splice(buf, offset, w + body)
  {
    SpliceOutside(buf, offset, w, offset + |w|, |body|);
    SpliceAppend(buf, offset, w, body);
  }

  /** Strings and byte strings: the padding is what the buffer already held. */
  method WriteBlob(raw: seq<byte>, offset: nat, output: array<byte>) returns (end: nat)
    requires Blank(output[..], offset, |Blob(raw)|)
    modifies output
    ensures end == offset + |Blob(raw)|
    ensures output[..] == Splice(old(output[..]), offset, Blob(raw))
  {
    hide Word, Splice;
    ghost var buf := output[..];
    var pad := Padded(|raw|) - |raw|;
    Put(output, offset, Word(|raw|));
    Put(output, offset + 32, raw);
    SpliceAppend(buf, offset, Word(|raw|), raw);
    SpliceOutside(buf, offset, Word(|raw|) + raw, offset + 32 + |raw|, pad);
    SpliceZeros(output[..], offset + 32 + |raw|, pad);
    SpliceAppend(buf, offset, Word(|raw|) + raw, Zeros(pad));
    return offset + 32 + Padded(|raw|);
  }
}
