/** Strict decoding accepts exactly the canonical encodings of well-formed messages that fit the
    byte and message limits. */
module ProtoRoundTrip {
  import opened ByteStrings
  import opened ProtoWire
  import opened ProtoMessage

  // ---------------------------------------------------------------- field lists

  /** Merging a list of fields one after the other. */
  function MergeFields(kind: WireKind, acc: seq<Field>, raws: seq<RawField>): Option<seq<Field>>
    decreases raws
  {
    if raws == [] then Some(acc)
    else match MergeField(kind, acc, raws[0])
      case None => None
      case Some(acc') => MergeFields(kind, acc', raws[1..])
  }

  /** Walking a list of fields one after the other. */
  function WalkFields(raws: seq<RawField>, kind: WireKind, budget: nat): Result<nat, WireError> {
    if raws == [] then Ok(budget)
    else
      var b :- WalkField(raws[0], kind, budget);
      WalkFields(raws[1..], kind, b)
  }

  lemma {:induction false} EncodedFields(kind: WireKind, acc: seq<Field>, raws: seq<RawField>, budget: nat)
    requires ValidFields(raws)
    ensures MergeBytes(kind, acc, EncodeFields(raws)) == MergeFields(kind, acc, raws)
    ensures WalkRest(EncodeFields(raws), kind, budget) == WalkFields(raws, kind, budget)
    decreases raws
  {
    hide MergeField, WalkField, EncodeField, NextField;
    if raws == [] {
    } else {
      var rest := EncodeFields(raws[1..]);
      NextFieldOfEncode(raws[0], rest);
      NonEmptyField(raws[0]);
      assert EncodeFields(raws)[|EncodeField(raws[0])|..] == rest;
      var acc' := match MergeField(kind, acc, raws[0]) case None => [] case Some(a) => a;
      var b := match WalkField(raws[0], kind, budget) case Err(_) => 0 case Ok(n) => n;
      EncodedFields(kind, acc', raws[1..], b);
    }
  }

  lemma {:induction false} NonEmptyField(f: RawField)
    ensures |EncodeField(f)| >= 1
    ensures f.payload.Delimited? ==> |f.payload.data| < |EncodeField(f)|
  {
  }

  lemma {:induction false} ConcatFields(kind: WireKind, acc: seq<Field>, a: seq<RawField>, b: seq<RawField>,
          budget: nat)
    ensures MergeFields(kind, acc, a + b)
            == match MergeFields(kind, acc, a) { case None => None case Some(acc') => MergeFields(kind, acc', b) }
    ensures WalkFields(a + b, kind, budget)
            == match WalkFields(a, kind, budget) { case Err(e) => Err(e) case Ok(n) => WalkFields(b, kind, n) }
    decreases a
  {
    hide MergeField, WalkField;
    if a == [] {
      assert a + b == b;
    } else {
      assert (a + b)[1..] == a[1..] + b;
      var acc' := match MergeField(kind, acc, a[0]) case None => [] case Some(x) => x;
      var n := match WalkField(a[0], kind, budget) case Err(_) => 0 case Ok(n) => n;
      ConcatFields(kind, acc', a[1..], b, n);
    }
  }

  // ---------------------------------------------------------------- sizes

  lemma {:induction false} EncodeConcat(a: seq<RawField>, b: seq<RawField>)
    ensures EncodeFields(a + b) == EncodeFields(a) + EncodeFields(b)
  {
    hide EncodeField;
    if a == [] {
      assert a + b == b;
    } else {
      EncodeConcat(a[1..], b);
      assert (a + b)[1..] == a[1..] + b;
    }
  }

  /** A field inside an encoding is no longer than it. */
  lemma {:induction false} PartOfWhole(raws: seq<RawField>, i: nat)
    requires i < |raws|
    ensures |EncodeField(raws[i])| <= |EncodeFields(raws)|
    decreases raws
  {
    hide EncodeField;
    if i == 0 {
    } else {
      PartOfWhole(raws[1..], i - 1);
    }
  }

  predicate FitsWire(m: Message) {
    |EncodeMessage(m)| < U64
  }

  /** The raw fields of a well-formed message that fits are all valid on the wire. */
  lemma {:induction false} RawFieldsValid(kind: WireKind, fs: seq<Field>)
    requires forall i :: 0 <= i < |fs| ==> WellFormedField(kind, fs[i])
    requires |EncodeFields(RawFields(fs))| < U64
    ensures ValidFields(RawFields(fs))
    decreases fs
  {
    hide WellFormedField, EncodeFields, ValidFields, RawOf;
    if fs == [] {
      assert ValidFields([]) by {
        NoFieldsValid();
      }
    } else {
      EncodeConcat(RawOf(fs[0]), RawFields(fs[1..]));
      RawFieldsValid(kind, fs[1..]);
      RawOfValid(kind, fs[0]);
      ValidConcat(RawOf(fs[0]), RawFields(fs[1..]));
    }
  }

  lemma {:induction false} NoFieldsValid()
    ensures ValidFields([])
  {
  }

  lemma {:induction false} ValidConcat(a: seq<RawField>, b: seq<RawField>)
    requires ValidFields(a) && ValidFields(b)
    ensures ValidFields(a + b)
  {
    hide ValidField;
  }

  lemma {:induction false} RawOfValid(kind: WireKind, f: Field)
    requires WellFormedField(kind, f) && |EncodeFields(RawOf(f))| < U64
    ensures ValidFields(RawOf(f))
  {
    hide EncodeFields, EncodeField, EncodeMessage, WellFormed;
    ChildIsSchema(kind, f.tag);
    var raws := RawOf(f);
    assert forall i :: 0 <= i < |raws| ==> raws[i].tag == f.tag && (raws[i].payload.Delimited? || f.value.Num?) by {
      if f.value.List? {
        RawListShape(f.tag, f.value.ms);
      }
    }
    forall i | 0 <= i < |raws|
      ensures ValidField(raws[i])
    {
      PartOfWhole(raws, i);
      NonEmptyField(raws[i]);
    }
  }

  lemma {:induction false} RawListShape(tag: nat, ms: seq<Message>)
    ensures |RawList(tag, ms)| == |ms|
    ensures forall i :: 0 <= i < |ms| ==> RawList(tag, ms)[i] == RawField(tag, Delimited(EncodeMessage(ms[i])))
  {
    hide EncodeMessage;
    if ms == [] {
    } else {
      RawListShape(tag, ms[1..]);
    }
  }

  // ---------------------------------------------------------------- merging an encoding

  predicate AllBelow(fs: seq<Field>, tag: nat) {
    forall i :: 0 <= i < |fs| ==> fs[i].tag < tag
  }

  /** Decoding the encoding of a well-formed message gives the message back. */
  lemma {:induction false} MergeOfEncode(kind: WireKind, m: Message)
    requires WellFormed(kind, m) && FitsWire(m)
    ensures MergeBytes(kind, [], EncodeMessage(m)) == Some(m.fields)
    decreases m, 0
  {
    hide WellFormedField, MergeBytes, MergeFields, EncodeFields, RawFields;
    RawFieldsValid(kind, m.fields);
    EncodedFields(kind, [], RawFields(m.fields), 0);
    MergeFrom(kind, [], m.fields);
    assert [] + m.fields == m.fields;
  }

  lemma {:induction false} MergeFrom(kind: WireKind, done: seq<Field>, fs: seq<Field>)
    requires Ascending(done + fs) && forall i :: 0 <= i < |fs| ==> WellFormedField(kind, fs[i])
    requires |EncodeFields(RawFields(fs))| < U64
    ensures MergeFields(kind, done, RawFields(fs)) == Some(done + fs)
    decreases fs, 0
  {
    hide WellFormedField, MergeFields, EncodeFields, RawOf;
    if fs == [] {
      assert done + fs == done;
      MergeNothing(kind, done);
    } else {
      var f, rest := fs[0], fs[1..];
      assert done + [f] + rest == done + fs;
      EncodeConcat(RawOf(f), RawFields(rest));
      assert AllBelow(done, f.tag) by {
        assert (done + fs)[|done|] == f;
        assert forall i :: 0 <= i < |done| ==> (done + fs)[i] == done[i];
      }
      MergeFieldOf(kind, done, f);
      ConcatFields(kind, done, RawOf(f), RawFields(rest), 0);
      MergeFrom(kind, done + [f], rest);
    }
  }

  lemma {:induction false} MergeNothing(kind: WireKind, acc: seq<Field>)
    ensures MergeFields(kind, acc, []) == Some(acc)
  {
  }

  lemma {:induction false} MergeSingle(kind: WireKind, acc: seq<Field>, raw: RawField)
    ensures MergeFields(kind, acc, [raw]) == MergeField(kind, acc, raw)
  {
    hide MergeField;
    assert [raw][1..] == [];
    if MergeField(kind, acc, raw).Some? {
      MergeNothing(kind, MergeField(kind, acc, raw).value);
    }
  }

  lemma {:induction false} SetAppends(fs: seq<Field>, tag: nat, v: Value)
    requires AllBelow(fs, tag)
    ensures Set(fs, tag, v) == fs + [Field(tag, v)] && Get(fs, tag) == None
  {
  }

  lemma {:induction false} SetReplaces(fs: seq<Field>, tag: nat, old': Value, v: Value)
    ensures Set(fs + [Field(tag, old')], tag, v) == fs + [Field(tag, v)]
    ensures Get(fs + [Field(tag, old')], tag) == Some(old')
  {
    assert (fs + [Field(tag, old')])[..|fs|] == fs;
  }

  lemma {:induction false} MergeFieldOf(kind: WireKind, done: seq<Field>, f: Field)
    requires AllBelow(done, f.tag) && WellFormedField(kind, f) && |EncodeFields(RawOf(f))| < U64
    ensures MergeFields(kind, done, RawOf(f)) == Some(done + [f])
    decreases f, 0
  {
    hide MergeFields, EncodeFields, EncodeMessage, Set, Get, AllBelow, MergeBytes;
    ChildIsSchema(kind, f.tag);
    match f.value
    case List(ms) =>
      MergeList(kind, done, f.tag, [], ms);
      assert [] + ms == ms && f == Field(f.tag, List(ms));
    case Msg(m) =>
      SingleFits(f.tag, m);
      MergeSingle(kind, done, RawOf(f)[0]);
      SetAppends(done, f.tag, f.value);
      MergeOfEncode(Schema(kind, f.tag).value.kind, m);
      assert f == Field(f.tag, Msg(Message(m.fields)));
    case _ =>
      MergeSingle(kind, done, RawOf(f)[0]);
      SetAppends(done, f.tag, f.value);
      assert f == Field(f.tag, f.value);
  }

  lemma {:induction false} SingleFits(tag: nat, m: Message)
    requires |EncodeFields([RawField(tag, Delimited(EncodeMessage(m)))])| < U64
    ensures FitsWire(m)
  {
    hide EncodeMessage;
    PartOfWhole([RawField(tag, Delimited(EncodeMessage(m)))], 0);
    NonEmptyField(RawField(tag, Delimited(EncodeMessage(m))));
  }

  /** The accumulator while a repeated field is being read. */
  function Extended(done: seq<Field>, tag: nat, ms: seq<Message>): seq<Field> {
    if ms == [] then done else done + [Field(tag, List(ms))]
  }

  lemma {:induction false} MergeList(kind: WireKind, done: seq<Field>, tag: nat, before: seq<Message>, ms: seq<Message>)
    requires AllBelow(done, tag) && 1 <= tag <= 22 && Schema(kind, tag).Some? && Schema(kind, tag).value.Many?
    requires forall i :: 0 <= i < |ms| ==> WellFormed(Schema(kind, tag).value.kind, ms[i])
    requires |EncodeFields(RawList(tag, ms))| < U64
    ensures MergeFields(kind, Extended(done, tag, before), RawList(tag, ms)) == Some(Extended(done, tag, before + ms))
    decreases ms, 0
  {
    hide MergeFields, EncodeFields, EncodeMessage, MergeBytes, WellFormed, Set, Get, AllBelow;
    if ms == [] {
      assert before + ms == before;
      MergeNothing(kind, Extended(done, tag, before));
    } else {
      var raw := RawField(tag, Delimited(EncodeMessage(ms[0])));
      var acc := Extended(done, tag, before);
      EncodeConcat([raw], RawList(tag, ms[1..]));
      SingleFits(tag, ms[0]);
      MergeOfEncode(Schema(kind, tag).value.kind, ms[0]);
      MergeSingle(kind, acc, raw);
      SetAppends(done, tag, List([ms[0]]));
      SetReplaces(done, tag, List(before), List(before + [ms[0]]));
      assert Message(ms[0].fields) == ms[0];
      assert before == [] ==> before + [ms[0]] == [ms[0]];
      ConcatFields(kind, acc, [raw], RawList(tag, ms[1..]), 0);
      MergeList(kind, done, tag, before + [ms[0]], ms[1..]);
      assert before + [ms[0]] + ms[1..] == before + ms;
    }
  }

  // ---------------------------------------------------------------- walking an encoding

  function Spend(budget: nat, n: nat): Result<nat, WireError> {
    if n <= budget then Ok(budget - n) else Err(TooLarge)
  }

  /** The preflight walk charges an encoding exactly its number of messages. */
  lemma {:induction false} WalkOfEncode(kind: WireKind, m: Message, budget: nat)
    requires WellFormed(kind, m) && FitsWire(m)
    ensures Walk(EncodeMessage(m), kind, budget) == Spend(budget, Messages(m))
    decreases m, 0
  {
    hide WellFormedField, WalkRest, EncodeFields, RawFields, MergeBytes, MergeFields, WalkFields, MessagesIn,
         ValidFields, Ascending;
    if budget > 0 {
      RawFieldsValid(kind, m.fields);
      EncodedFields(kind, [], RawFields(m.fields), budget - 1);
      WalkFrom(kind, m.fields, budget - 1);
    }
  }

  lemma {:induction false} WalkFrom(kind: WireKind, fs: seq<Field>, budget: nat)
    requires forall i :: 0 <= i < |fs| ==> WellFormedField(kind, fs[i])
    requires |EncodeFields(RawFields(fs))| < U64
    ensures WalkFields(RawFields(fs), kind, budget) == Spend(budget, MessagesIn(fs))
    decreases fs, 0
  {
    hide WellFormedField, EncodeFields, RawOf, WalkField, MessagesInField;
    if fs == [] {
    } else {
      var f, rest := fs[0], fs[1..];
      EncodeConcat(RawOf(f), RawFields(rest));
      WalkFieldOf(kind, f, budget);
      ConcatFields(kind, [], RawOf(f), RawFields(rest), budget);
      if MessagesInField(f) <= budget {
        WalkFrom(kind, rest, budget - MessagesInField(f));
      }
    }
  }

  lemma {:induction false} WalkSingle(kind: WireKind, raw: RawField, budget: nat)
    ensures WalkFields([raw], kind, budget) == WalkField(raw, kind, budget)
  {
    hide WalkField;
    assert [raw][1..] == [];
  }

  lemma {:induction false} WalkFieldOf(kind: WireKind, f: Field, budget: nat)
    requires WellFormedField(kind, f) && |EncodeFields(RawOf(f))| < U64
    ensures WalkFields(RawOf(f), kind, budget) == Spend(budget, MessagesInField(f))
    decreases f, 0
  {
    hide EncodeFields, EncodeMessage, WalkFields, Walk;
    ChildIsSchema(kind, f.tag);
    match f.value
    case List(ms) =>
      WalkList(kind, f.tag, ms, budget);
    case Msg(m) =>
      SingleFits(f.tag, m);
      WalkSingle(kind, RawOf(f)[0], budget);
      WalkOfEncode(Schema(kind, f.tag).value.kind, m, budget);
    case _ =>
      WalkSingle(kind, RawOf(f)[0], budget);
  }

  lemma {:induction false} WalkList(kind: WireKind, tag: nat, ms: seq<Message>, budget: nat)
    requires Schema(kind, tag).Some? && Schema(kind, tag).value.Many?
    requires forall i :: 0 <= i < |ms| ==> WellFormed(Schema(kind, tag).value.kind, ms[i])
    requires |EncodeFields(RawList(tag, ms))| < U64
    ensures WalkFields(RawList(tag, ms), kind, budget) == Spend(budget, MessagesOf(ms))
    decreases ms, 0
  {
    hide EncodeFields, EncodeMessage, WellFormed, Walk, Messages;
    ChildIsSchema(kind, tag);
    if ms == [] {
    } else {
      var raw := RawField(tag, Delimited(EncodeMessage(ms[0])));
      EncodeConcat([raw], RawList(tag, ms[1..]));
      SingleFits(tag, ms[0]);
      WalkOfEncode(Schema(kind, tag).value.kind, ms[0], budget);
      WalkSingle(kind, raw, budget);
      ConcatFields(kind, [], [raw], RawList(tag, ms[1..]), budget);
      if Messages(ms[0]) <= budget {
        WalkList(kind, tag, ms[1..], budget - Messages(ms[0]));
      }
    }
  }

  // ---------------------------------------------------------------- what merging can produce

  lemma {:induction false} SetBelow(fs: seq<Field>, tag: nat, v: Value, bound: nat)
    requires AllBelow(fs, bound) && tag < bound
    ensures AllBelow(Set(fs, tag, v), bound) && AllBelow(Clear(fs, tag), bound)
  {
    if fs != [] && fs[|fs| - 1].tag > tag {
      SetBelow(fs[..|fs| - 1], tag, v, bound);
    }
  }

  predicate Fielded(kind: WireKind, fs: seq<Field>) {
    forall i :: 0 <= i < |fs| ==> WellFormedField(kind, fs[i])
  }

  lemma {:induction false} SetAscending(fs: seq<Field>, tag: nat, v: Value)
    requires Ascending(fs)
    ensures Ascending(Set(fs, tag, v)) && Ascending(Clear(fs, tag))
  {
    if fs != [] && fs[|fs| - 1].tag > tag {
      var init, last := fs[..|fs| - 1], fs[|fs| - 1];
      SetAscending(init, tag, v);
      SetBelow(init, tag, v, last.tag);
      AscendingSnoc(Set(init, tag, v), last);
      AscendingSnoc(Clear(init, tag), last);
    }
  }

  lemma {:induction false} AscendingSnoc(fs: seq<Field>, f: Field)
    requires Ascending(fs) && AllBelow(fs, f.tag)
    ensures Ascending(fs + [f])
  {
  }

  lemma {:induction false} SetFielded(kind: WireKind, fs: seq<Field>, tag: nat, v: Value)
    requires Fielded(kind, fs)
    ensures WellFormedField(kind, Field(tag, v)) ==> Fielded(kind, Set(fs, tag, v))
    ensures Fielded(kind, Clear(fs, tag))
  {
    hide WellFormedField;
    if fs != [] && fs[|fs| - 1].tag > tag {
      SetFielded(kind, fs[..|fs| - 1], tag, v);
    }
  }

  lemma {:induction false} SetWellFormed(kind: WireKind, fs: seq<Field>, tag: nat, v: Value)
    requires Ascending(fs) && Fielded(kind, fs)
    ensures WellFormedField(kind, Field(tag, v)) ==> Ascending(Set(fs, tag, v)) && Fielded(kind, Set(fs, tag, v))
    ensures Ascending(Clear(fs, tag)) && Fielded(kind, Clear(fs, tag))
  {
    hide WellFormedField, Ascending, Fielded, Set, Clear;
    SetAscending(fs, tag, v);
    SetFielded(kind, fs, tag, v);
  }

  lemma {:induction false} GetWellFormed(kind: WireKind, fs: seq<Field>, tag: nat)
    requires Fielded(kind, fs) && Get(fs, tag).Some?
    ensures WellFormedField(kind, Field(tag, Get(fs, tag).value))
  {
    hide WellFormedField;
    if fs[|fs| - 1].tag == tag {
      assert fs[|fs| - 1] == Field(tag, fs[|fs| - 1].value);
    } else {
      GetWellFormed(kind, fs[..|fs| - 1], tag);
    }
  }

  lemma {:induction false} MergeBytesWellFormed(kind: WireKind, acc: seq<Field>, bytes: seq<byte>)
    requires Ascending(acc) && Fielded(kind, acc) && MergeBytes(kind, acc, bytes).Some?
    ensures var fs := MergeBytes(kind, acc, bytes).value; Ascending(fs) && Fielded(kind, fs)
    decreases |bytes|, 1
  {
    hide Fielded, MergeField, NextField;
    if |bytes| == 0 {
    } else {
      var (f, used) := NextField(bytes).value;
      MergeFieldWellFormed(kind, acc, f);
      MergeBytesWellFormed(kind, MergeField(kind, acc, f).value, bytes[used..]);
    }
  }

  lemma {:induction false} MergeFieldWellFormed(kind: WireKind, acc: seq<Field>, f: RawField)
    requires Ascending(acc) && Fielded(kind, acc) && MergeField(kind, acc, f).Some?
    requires f.payload.Varint? ==> f.payload.n < U64
    ensures var fs := MergeField(kind, acc, f).value; Ascending(fs) && Fielded(kind, fs)
    decreases PayloadSize(f.payload), 3
  {
    hide Fielded, Ascending, MergeBytes, Set, Clear, Get;
    match Schema(kind, f.tag)
    case None =>
    case Some(Uint64) =>
      SetWellFormed(kind, acc, f.tag, Num(f.payload.n));
    case Some(Uint32) =>
      SetWellFormed(kind, acc, f.tag, Num(f.payload.n % U32));
    case Some(OptionalBytes) =>
      SetWellFormed(kind, acc, f.tag, Blob(f.payload.data));
    case Some(PlainBytes) =>
      SetWellFormed(kind, acc, f.tag, Blob(f.payload.data));
    case Some(One(k)) =>
      MergeOneWellFormed(kind, acc, f, k);
    case Some(Many(k)) =>
      MergeManyWellFormed(kind, acc, f, k);
  }

  lemma {:induction false} NoFieldsWellFormed(kind: WireKind)
    ensures Ascending([]) && Fielded(kind, [])
  {
  }

  lemma {:induction false} MergeOneWellFormed(kind: WireKind, acc: seq<Field>, f: RawField, k: WireKind)
    requires Ascending(acc) && Fielded(kind, acc) && MergeField(kind, acc, f).Some?
            && Schema(kind, f.tag) == Some(One(k))
    ensures var fs := MergeField(kind, acc, f).value; Ascending(fs) && Fielded(kind, fs)
    decreases PayloadSize(f.payload), 2
  {
    hide MergeBytes, Set, Get;
    var before := match Get(acc, f.tag) case Some(Msg(m)) => m.fields case _ => [];
    if Get(acc, f.tag).Some? {
      GetWellFormed(kind, acc, f.tag);
    }
    NoFieldsWellFormed(k);
    MergeBytesWellFormed(k, before, f.payload.data);
    var m := Message(MergeBytes(k, before, f.payload.data).value);
    FieldedIsWellFormed(k, m);
    assert WellFormedField(kind, Field(f.tag, Msg(m)));
    SetWellFormed(kind, acc, f.tag, Msg(Message(MergeBytes(k, before, f.payload.data).value)));
  }

  lemma {:induction false} MergeManyWellFormed(kind: WireKind, acc: seq<Field>, f: RawField, k: WireKind)
    requires Ascending(acc) && Fielded(kind, acc) && MergeField(kind, acc, f).Some?
            && Schema(kind, f.tag) == Some(Many(k))
    ensures var fs := MergeField(kind, acc, f).value; Ascending(fs) && Fielded(kind, fs)
    decreases PayloadSize(f.payload), 2
  {
    hide MergeBytes, Set, Get;
    var before := match Get(acc, f.tag) case Some(List(ms)) => ms case _ => [];
    if Get(acc, f.tag).Some? {
      GetWellFormed(kind, acc, f.tag);
    }
    NoFieldsWellFormed(k);
    MergeBytesWellFormed(k, [], f.payload.data);
    var m := Message(MergeBytes(k, [], f.payload.data).value);
    FieldedIsWellFormed(k, m);
    assert WellFormedField(kind, Field(f.tag, List(before + [m])));
    SetWellFormed(kind, acc, f.tag, List(before + [Message(MergeBytes(k, [], f.payload.data).value)]));
  }

  // ---------------------------------------------------------------- the strict decoder

  /** Strict decoding accepts a message's own encoding and nothing else: the byte limit, the message
      budget and the canonical form together are exactly the image of the bounded encoder. */
  lemma {:induction false} StrictDecodeImage(bytes: seq<byte>, m: Message)
    ensures StrictDecode(bytes) == Ok(m)
            <==> (WellFormed(Transaction, m) && EncodeMessage(m) == bytes
                  && |bytes| <= MAX_TRANSACTION_BYTES && Messages(m) <= MAX_TRANSACTION_MESSAGES)
  {
    hide Walk, MergeBytes, EncodeMessage, Fielded, WellFormedField, Messages;
    if StrictDecode(bytes) == Ok(m) {
      NoFieldsWellFormed(Transaction);
      MergeBytesWellFormed(Transaction, [], bytes);
      FieldedIsWellFormed(Transaction, m);
      WalkOfEncode(Transaction, m, MAX_TRANSACTION_MESSAGES);
    }
    if WellFormed(Transaction, m) && EncodeMessage(m) == bytes && |bytes| <= MAX_TRANSACTION_BYTES {
      WalkOfEncode(Transaction, m, MAX_TRANSACTION_MESSAGES);
      MergeOfEncode(Transaction, m);
      assert Message(m.fields) == m;
    }
  }

  lemma {:induction false} FieldedIsWellFormed(kind: WireKind, m: Message)
    requires Ascending(m.fields) && Fielded(kind, m.fields)
    ensures WellFormed(kind, m)
  {
    hide WellFormedField;
  }

  /** Distinct byte strings never decode to the same message. */
  lemma {:induction false} StrictDecodeInjective(a: seq<byte>, b: seq<byte>)
    requires StrictDecode(a).Ok? && StrictDecode(a) == StrictDecode(b)
    ensures a == b
  {
    hide StrictDecode, EncodeMessage, WellFormed, Messages;
    StrictDecodeImage(a, StrictDecode(a).value);
    StrictDecodeImage(b, StrictDecode(a).value);
  }
}
