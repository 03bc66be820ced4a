/** The two hand-written walkers as they run (lib.rs): the strict preflight with its message
    budget, and the lenient scan that decides whether bytes could carry transaction inputs. */
module ProtoWalkers {
  import opened ByteStrings
  import opened ProtoWire
  import opened ProtoMessage
  import opened ProtoRoundTrip

  // ---------------------------------------------------------------- preflight

  /** A varint read in progress: `n` so far, the next byte weighing `scale`. */
  ghost predicate Reading(whole: Option<Read>, rest: Option<Read>, i: nat, n: nat, scale: nat) {
    match rest
    case Some(r) => whole == Some(Read(n + scale * r.value, i + r.used))
    case None => whole == None
  }

  /** One more continuation byte. */
  lemma {:induction false} ReadingStep(whole: Option<Read>, rest: Option<Read>, i: nat, n: nat, scale: nat, b: byte,
          next: Option<Read>)
    requires b >= 128 && Reading(whole, rest, i, n, scale)
    requires rest == match next { case Some(r) => Some(Read(b - 128 + 128 * r.value, r.used + 1)) case None => None }
    ensures Reading(whole, next, i + 1, n + scale * (b % 128), scale * 128)
  {
    if next.Some? {
      var v := next.value.value;
      assert scale * (b - 128 + 128 * v) == scale * (b - 128) + scale * 128 * v;
    }
  }

  lemma {:induction false} ReadingStart(whole: Option<Read>)
    ensures Reading(whole, whole, 0, 0, 1)
  {
  }

  /** A digit at its weight. */
  function Weighed(digit: nat, scale: nat): nat {
    scale * digit
  }

  /** When the rest is a last byte or an error, so is the whole; otherwise the read goes on. */
  lemma {:induction false} ReadingOn(whole: Option<Read>, rest: seq<byte>, i: nat, n: nat, scale: nat)
    requires i <= 10 && Reading(whole, StrictVarint(rest, i), i, n, scale)
    ensures i == 10 || |rest| == 0 || (i == 9 && rest[0] > 1) ==> whole.None?
    ensures i < 10 && |rest| > 0 && !(i == 9 && rest[0] > 1) && rest[0] < 128 ==>
            whole == Some(Read(n + Weighed(rest[0] % 128, scale), i + 1))
    ensures i < 10 && |rest| > 0 && !(i == 9 && rest[0] > 1) && rest[0] >= 128 ==>
              Reading(whole, StrictVarint(rest[1..], i + 1), i + 1, n + Weighed(rest[0] % 128, scale),
                      Weighed(128, scale))
  {
    hide Reading;
    StrictVarintStep(rest, i);
    ReadingEnds(whole, StrictVarint(rest, i), i, n, scale);
    if i < 10 && |rest| > 0 && !(i == 9 && rest[0] > 1) {
      if rest[0] >= 128 {
        ReadingStep(whole, StrictVarint(rest, i), i, n, scale, rest[0], StrictVarint(rest[1..], i + 1));
      } else {
        assert rest[0] % 128 == rest[0];
      }
    }
  }

  lemma {:induction false} ReadingEnds(whole: Option<Read>, rest: Option<Read>, i: nat, n: nat, scale: nat)
    requires Reading(whole, rest, i, n, scale)
    ensures rest.None? ==> whole.None?
    ensures rest.Some? ==> whole == Some(Read(n + scale * rest.value.value, i + rest.value.used))
  {
  }

  lemma {:induction false} StrictVarintStep(rest: seq<byte>, i: nat)
    requires i <= 10
    ensures StrictVarint(rest, i) ==
            if i == 10 || |rest| == 0 || (i == 9 && rest[0] > 1) then None
            else if rest[0] < 128 then Some(Read(rest[0], 1))
            else match StrictVarint(rest[1..], i + 1) {
                case None => None
                case Some(r) => Some(Read(rest[0] - 128 + 128 * r.value, r.used + 1))
              }
  {
  }

  method ReadVarint(bytes: seq<byte>) returns (r: Result<(nat, seq<byte>), WireError>)
    ensures match StrictVarint(bytes, 0) {
              case Some(read) => r == Ok((read.value, bytes[read.used..]))
              case None => r == Err(InvalidEncoding)
            }
  {
    hide StrictVarint, Reading, VarintLimit, Weighed;
    var n: nat, scale: nat, rest := 0, 1, bytes;
    var i: nat := 0;
    ghost var whole := StrictVarint(bytes, 0);
    ReadingStart(whole);
    while i < 10
      invariant i <= 10 && i <= |bytes| && rest == bytes[i..]
      invariant Reading(whole, StrictVarint(rest, i), i, n, scale)
    {
      ReadingOn(whole, rest, i, n, scale);
      if |rest| == 0 {
        return Err(InvalidEncoding);
      }
      var b := rest[0];
      if i == 9 && b > 1 {
        return Err(InvalidEncoding);
      }
      rest := rest[1..];
      n := n + Weighed(b % 128, scale);
      if b < 128 {
        return Ok((n, rest));
      }
      scale, i := Weighed(128, scale), i + 1;
    }
    ReadingOn(whole, rest, i, n, scale);
    return Err(InvalidEncoding);
  }

  /** Read one field: its key, then a payload whose extent the wire type decides. */
  method TakeField(bytes: seq<byte>) returns (r: Result<(RawField, nat), WireError>)
    ensures r == NextField(bytes)
  {
    hide StrictVarint, ReadPayload;
    var first :- ReadVarint(bytes);
    var (key, rest) := first;
    var tag := key / 8;
    if tag == 0 {
      return Err(InvalidEncoding);
    }
    var second :- TakePayload(key % 8, rest);
    return Ok((RawField(tag, second.0), |bytes| - |rest| + second.1));
  }

  method TakePayload(wire: nat, rest: seq<byte>) returns (r: Result<(Payload, nat), WireError>)
    ensures r == match ReadPayload(wire, rest) { case Some(p) => Ok(p) case None => Err(InvalidEncoding) }
  {
    hide StrictVarint;
    match wire {
      case 0 =>
        var second :- ReadVarint(rest);
        return Ok((Varint(second.0), |rest| - |second.1|));
      case 1 =>
        if |rest| < 8 {
          return Err(InvalidEncoding);
        }
        return Ok((Fixed64(rest[..8]), 8));
      case 5 =>
        if |rest| < 4 {
          return Err(InvalidEncoding);
        }
        return Ok((Fixed32(rest[..4]), 4));
      case 2 =>
        var second :- ReadVarint(rest);
        var (len, body) := second;
        if |body| < len {
          return Err(InvalidEncoding);
        }
        ghost var used := |rest| - |body|;
        assert body == rest[used..] && body[..len] == rest[used..used + len];
        return Ok((Delimited(body[..len]), |rest| - |body| + len));
      case _ =>
        return Err(InvalidEncoding);
    }
  }

  /** One pass over the bytes; nested messages share what is left of the budget. */
  method Preflight(bytes: seq<byte>, kind: WireKind, budget: nat) returns (r: Result<nat, WireError>)
    ensures r == Walk(bytes, kind, budget)
    decreases |bytes|
  {
    hide StrictVarint, ReadPayload;
    if budget == 0 {
      return Err(TooLarge);
    }
    var left: nat, rest := budget - 1, bytes;
    while |rest| > 0
      invariant |rest| <= |bytes|
      invariant WalkRest(bytes, kind, budget - 1) == WalkRest(rest, kind, left)
    {
      var found :- TakeField(rest);
      var (f, used) := found;
      if f.payload.Delimited? && Child(kind, f.tag).Some? {
        left :- Preflight(f.payload.data, Child(kind, f.tag).value, left);
      }
      rest := rest[used..];
    }
    return Ok(left);
  }

  // ---------------------------------------------------------------- the lenient scan

  /** A field as the scan sees it: `used` counts the key and everything skipped. */
  datatype Skipped = Skipped(tag: nat, wire: nat, used: nat)

  /** How far a payload of the given wire type reaches; group marks have no payload. */
  function LenientSkip(wire: nat, rest: seq<byte>): (r: Option<nat>)
    ensures r.Some? ==> r.value <= |rest|
  {
    match wire
    case 0 => (
      match LenientVarint(rest, 0)
      case None => None
      case Some(n) => Some(n.used)
    )
    case 1 => if |rest| < 8 then None else Some(8)
    case 2 => (
      match LenientVarint(rest, 0)
      case None => None
      case Some(len) =>
        var total := len.value % U64 + len.used;
        if |rest| < total then None else Some(total)
    )
    case 3 => Some(0)
    case 4 => Some(0)
    case 5 => if |rest| < 4 then None else Some(4)
    case _ => None
  }

  function LenientNext(bytes: seq<byte>): (r: Option<Skipped>)
    ensures r.Some? ==> 1 <= r.value.used <= |bytes|
  {
    match LenientVarint(bytes, 0)
    case None => None
    case Some(k) =>
      var key := k.value % U64;
      if key / 8 == 0 then None
      else match LenientSkip(key % 8, bytes[k.used..])
        case None => None
        case Some(skip) => Some(Skipped(key / 8, key % 8, k.used + skip))
  }

  /** The scan from a point inside `depth` open groups, with the verdict so far. */
  function Scan(bytes: seq<byte>, depth: nat, inputs: bool): bool
    decreases |bytes|
  {
    if |bytes| == 0 then inputs && depth == 0
    else match LenientNext(bytes)
      case None => false
      case Some(f) =>
        if f.wire == 4 && depth == 0 then false
        else
          var depth' := if f.wire == 3 then depth + 1 else if f.wire == 4 then depth - 1 else depth;
          Scan(bytes[f.used..], depth', inputs || (f.wire == 2 && f.tag == 15 && depth == 0))
  }

  /** One byte of a lenient read. */
  lemma {:induction false} LenientAt(bytes: seq<byte>, i: nat)
    requires i <= 10 && i <= |bytes|
    ensures LenientVarint(bytes[i..], i)
            == if i == 10 || i == |bytes| then None
               else if bytes[i] < 128 then Some(Read(bytes[i], 1))
               else match LenientVarint(bytes[i + 1..], i + 1) {
                      case Some(r) => Some(Read(bytes[i] - 128 + 128 * r.value, r.used + 1))
                      case None => None
                    }
  {
    if i < |bytes| {
      assert bytes[i..][1..] == bytes[i + 1..];
    }
  }

  method ReadLenient(bytes: seq<byte>) returns (r: Option<Read>)
    ensures r == match LenientVarint(bytes, 0) { case Some(x) => Some(Read(x.value % U64, x.used)) case None => None }
  {
    hide LenientVarint;
    var value: nat, scale: nat, i: nat := 0, 1, 0;
    assert bytes[0..] == bytes;
    while i < 10 && i < |bytes|
      invariant i <= 10 && i <= |bytes|
      invariant Reading(LenientVarint(bytes, 0), LenientVarint(bytes[i..], i), i, value, scale)
    {
      var b := bytes[i];
      LenientAt(bytes, i);
      if b >= 128 {
        ReadingStep(LenientVarint(bytes, 0), LenientVarint(bytes[i..], i), i, value, scale, b,
                    LenientVarint(bytes[i + 1..], i + 1));
      }
      value := value + scale * (b % 128);
      if b < 128 {
        return Some(Read(value % U64, i + 1));
      }
      scale, i := scale * 128, i + 1;
    }
    LenientAt(bytes, i);
    return None;
  }

  method TakeLenient(bytes: seq<byte>) returns (r: Option<Skipped>)
    ensures r == LenientNext(bytes)
  {
    hide LenientVarint;
    var k := ReadLenient(bytes);
    if k.None? {
      return None;
    }
    var key := k.value.value;
    var rest := bytes[k.value.used..];
    if key / 8 == 0 {
      return None;
    }
    var skip := 0;
    match key % 8 {
      case 0 =>
        var n := ReadLenient(rest);
        if n.None? {
          return None;
        }
        skip := n.value.used;
      case 1 =>
        skip := 8;
      case 2 =>
        var len := ReadLenient(rest);
        if len.None? {
          return None;
        }
        skip := len.value.value + len.value.used;
      case 3 =>
      case 4 =>
      case 5 =>
        skip := 4;
      case _ =>
        return None;
    }
    if |rest| < skip {
      return None;
    }
    return Some(Skipped(key / 8, key % 8, k.value.used + skip));
  }

  /** Whether the bytes could be read as a transaction with inputs. */
  method HasTransactionInputs(bytes: seq<byte>) returns (found: bool)
    ensures found == Scan(bytes, 0, false)
  {
    hide LenientNext;
    var rest, depth: nat, inputs := bytes, 0, false;
    while |rest| > 0
      invariant Scan(bytes, 0, false) == Scan(rest, depth, inputs)
      decreases |rest|
    {
      var f := TakeLenient(rest);
      if f.None? {
        return false;
      }
      match f.value.wire {
        case 2 =>
          if f.value.tag == 15 && depth == 0 {
            inputs := true;
          }
        case 3 =>
          depth := depth + 1;
        case 4 =>
          if depth == 0 {
            return false;
          }
          depth := depth - 1;
        case _ =>
      }
      rest := rest[f.value.used..];
    }
    return inputs && depth == 0;
  }

  // ---------------------------------------------------------------- the two walkers agree

  predicate IsInputs(f: RawField) {
    f.tag == 15 && f.payload.Delimited?
  }

  /** A payload that the strict reader takes, the lenient one skips. */
  lemma {:induction false} SamePayload(wire: nat, rest: seq<byte>)
    requires ReadPayload(wire, rest).Some?
    ensures LenientSkip(wire, rest) == Some(ReadPayload(wire, rest).value.1)
  {
    hide LenientVarint, StrictVarint;
    VarintLimitU64();
    if wire == 0 || wire == 2 {
      LenientExtendsStrict(rest, 0);
    }
  }

  /** Where the strict walker finds a field, the lenient one finds the same field boundary. */
  lemma {:induction false} SameBoundary(bytes: seq<byte>)
    requires NextField(bytes).Ok?
    ensures var (f, used) := NextField(bytes).value;
            LenientNext(bytes) == Some(Skipped(f.tag, WireType(f.payload), used))
  {
    hide LenientVarint, StrictVarint, ReadPayload, LenientSkip;
    VarintLimitU64();
    LenientExtendsStrict(bytes, 0);
    var key := StrictVarint(bytes, 0).value;
    SamePayload(key.value % 8, bytes[key.used..]);
  }

  lemma {:induction false} ScanOfFields(bytes: seq<byte>, inputs: bool)
    requires ParseFields(bytes).Some?
    ensures Scan(bytes, 0, inputs)
            <==> inputs || exists i :: 0 <= i < |ParseFields(bytes).value| && IsInputs(ParseFields(bytes).value[i])
    decreases |bytes|
  {
    hide NextField, LenientNext;
    if |bytes| == 0 {
    } else {
      var (f, used) := NextField(bytes).value;
      var fs := ParseFields(bytes).value;
      SameBoundary(bytes);
      ScanOfFields(bytes[used..], inputs || IsInputs(f));
      var rest := ParseFields(bytes[used..]).value;
      assert fs[0] == f && forall i :: 0 <= i < |rest| ==> fs[i + 1] == rest[i];
      assert forall i :: 1 <= i < |fs| ==> fs[i] == rest[i - 1];
    }
  }

  lemma {:induction false} WalkParses(bytes: seq<byte>, kind: WireKind, budget: nat)
    requires WalkRest(bytes, kind, budget).Ok?
    ensures ParseFields(bytes).Some?
    decreases |bytes|
  {
    hide NextField, WalkField;
    if |bytes| == 0 {
    } else {
      var (f, used) := NextField(bytes).value;
      WalkParses(bytes[used..], kind, WalkField(f, kind, budget).value);
    }
  }

  /** On bytes that preflight accepts, the scan answers exactly whether there is a top-level
      length-delimited field 15. */
  lemma {:induction false} ScanAgreesWithPreflight(bytes: seq<byte>, budget: nat)
    requires Walk(bytes, Transaction, budget).Ok?
    ensures ParseFields(bytes).Some?
    ensures Scan(bytes, 0, false)
            <==> AnyInputs(ParseFields(bytes).value)
  {
    hide Scan, ParseFields, WalkRest;
    WalkParses(bytes, Transaction, budget - 1);
    ScanOfFields(bytes, false);
  }

  predicate AnyInputs(raws: seq<RawField>) {
    exists i :: 0 <= i < |raws| && IsInputs(raws[i])
  }

  predicate AnyInputsField(fs: seq<Field>) {
    exists i :: 0 <= i < |fs| && fs[i].tag == 15
  }

  lemma {:induction false} AnyInputsCons(raw: RawField, rest: seq<RawField>)
    ensures AnyInputs([raw] + rest) <==> IsInputs(raw) || AnyInputs(rest)
  {
    hide IsInputs;
    var all := [raw] + rest;
    assert all[0] == raw && forall i :: 0 <= i < |rest| ==> all[i + 1] == rest[i];
    assert forall i :: 1 <= i < |all| ==> all[i] == rest[i - 1];
  }

  lemma {:induction false} AnyInputsFieldCons(fs: seq<Field>)
    requires fs != []
    ensures AnyInputsField(fs) <==> fs[0].tag == 15 || AnyInputsField(fs[1..])
  {
    assert forall i :: 1 <= i < |fs| ==> fs[i] == fs[1..][i - 1];
    assert forall i :: 0 <= i < |fs[1..]| ==> fs[i + 1] == fs[1..][i];
  }

  lemma {:induction false} RawInputs(kind: WireKind, fs: seq<Field>)
    requires forall i :: 0 <= i < |fs| ==> WellFormedField(kind, fs[i])
    requires kind == Transaction
    ensures AnyInputs(RawFields(fs)) <==> AnyInputsField(fs)
    decreases fs
  {
    hide EncodeMessage, WellFormed, AnyInputs, AnyInputsField;
    if fs == [] {
      assert !AnyInputs([]) && !AnyInputsField([]) by { NoInputs(); }
    } else {
      RawInputs(kind, fs[1..]);
      RawInput(kind, fs[0]);
      AnyInputsCons(RawOf(fs[0])[0], RawFields(fs[1..]));
      AnyInputsFieldCons(fs);
      assert RawFields(fs) == [RawOf(fs[0])[0]] + RawFields(fs[1..]);
    }
  }

  lemma {:induction false} NoInputs()
    ensures !AnyInputs([]) && !AnyInputsField([])
  {
  }

  lemma {:induction false} RawInput(kind: WireKind, f: Field)
    requires kind == Transaction && WellFormedField(kind, f)
    ensures |RawOf(f)| == 1 && (IsInputs(RawOf(f)[0]) <==> f.tag == 15)
  {
    hide EncodeMessage, WellFormed;
  }

  /** Among strictly decoded transactions, the scan flags exactly those with an inputs field. */
  lemma {:induction false} ScanFlagsInputs(bytes: seq<byte>, m: Message)
    requires StrictDecode(bytes) == Ok(m)
    ensures Scan(bytes, 0, false) <==> AnyInputsField(m.fields)
  {
    hide Scan, ParseFields, Walk, MergeBytes, EncodeFields, RawFields, WellFormedField, Messages;
    StrictDecodeImage(bytes, m);
    ScanAgreesWithPreflight(bytes, MAX_TRANSACTION_MESSAGES);
    RawFieldsValid(Transaction, m.fields);
    ParseOfEncode(RawFields(m.fields));
    RawInputs(Transaction, m.fields);
  }
}
