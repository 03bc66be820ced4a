/** The transaction messages (proto.rs), their encoding, the lenient merge that the protobuf
    decoder performs, the preflight walk, and the strict decoder built from them (lib.rs). */
module ProtoMessage {
  import opened ByteStrings
  import opened ProtoWire

  const MAX_TRANSACTION_BYTES: nat := 0x10_0000
  const MAX_TRANSACTION_MESSAGES: nat := 16384

  // ---------------------------------------------------------------- schema

  datatype WireKind =
    | Transaction | AccessList | AccessTuple | Hash | Inputs | Input | OutPoint | Outputs | Output

  datatype FieldType =
    | Uint64
    | Uint32
    | OptionalBytes               // written whenever present, even when empty
    | PlainBytes                  // absent when empty
    | One(kind: WireKind)
    | Many(kind: WireKind)

  function Schema(kind: WireKind, tag: nat): Option<FieldType> {
    match (kind, tag)
    case (Transaction, 1) => Some(Uint64)
    case (Transaction, 2) => Some(OptionalBytes)
    case (Transaction, 3) => Some(Uint64)
    case (Transaction, 4) => Some(OptionalBytes)
    case (Transaction, 5) => Some(Uint64)
    case (Transaction, 6) => Some(OptionalBytes)
    case (Transaction, 7) => Some(OptionalBytes)
    case (Transaction, 8) => Some(OptionalBytes)
    case (Transaction, 9) => Some(One(AccessList))
    case (Transaction, 10) => Some(OptionalBytes)
    case (Transaction, 11) => Some(OptionalBytes)
    case (Transaction, 12) => Some(OptionalBytes)
    case (Transaction, 13) => Some(One(Hash))
    case (Transaction, 14) => Some(Uint32)
    case (Transaction, 15) => Some(One(Inputs))
    case (Transaction, 16) => Some(One(Outputs))
    case (Transaction, 17) => Some(OptionalBytes)
    case (Transaction, 18) => Some(OptionalBytes)
    case (Transaction, 19) => Some(One(Hash))
    case (Transaction, 20) => Some(One(Hash))
    case (Transaction, 21) => Some(Uint64)
    case (Transaction, 22) => Some(Uint64)
    case (AccessList, 1) => Some(Many(AccessTuple))
    case (AccessTuple, 1) => Some(PlainBytes)
    case (AccessTuple, 2) => Some(Many(Hash))
    case (Hash, 1) => Some(PlainBytes)
    case (Inputs, 1) => Some(Many(Input))
    case (Input, 1) => Some(One(OutPoint))
    case (Input, 2) => Some(OptionalBytes)
    case (OutPoint, 1) => Some(One(Hash))
    case (OutPoint, 2) => Some(Uint32)
    case (Outputs, 1) => Some(Many(Output))
    case (Output, 1) => Some(Uint32)
    case (Output, 2) => Some(OptionalBytes)
    case (Output, 3) => Some(OptionalBytes)
    case _ => None
  }

  /** The nested messages that the preflight walk descends into. */
  function Child(kind: WireKind, tag: nat): Option<WireKind> {
    match (kind, tag)
    case (Transaction, 9) => Some(AccessList)
    case (Transaction, 13) => Some(Hash)
    case (Transaction, 19) => Some(Hash)
    case (Transaction, 20) => Some(Hash)
    case (Transaction, 15) => Some(Inputs)
    case (Transaction, 16) => Some(Outputs)
    case (AccessList, 1) => Some(AccessTuple)
    case (AccessTuple, 2) => Some(Hash)
    case (Inputs, 1) => Some(Input)
    case (Input, 1) => Some(OutPoint)
    case (OutPoint, 1) => Some(Hash)
    case (Outputs, 1) => Some(Output)
    case _ => None
  }

  /** The walk's table names exactly the message-typed fields of the schema. */
  lemma {:induction false} ChildIsSchema(kind: WireKind, tag: nat)
    ensures Child(kind, tag) == match Schema(kind, tag) {
              case Some(One(k)) => Some(k)
              case Some(Many(k)) => Some(k)
              case _ => None
            }
    ensures Schema(kind, tag).Some? ==> 1 <= tag <= 22
  {
  }

  // ---------------------------------------------------------------- messages

  datatype Value =
    | Num(n: nat)
    | Blob(data: seq<byte>)
    | Msg(m: Message)
    | List(ms: seq<Message>)

  datatype Field = Field(tag: nat, value: Value)

  /** The fields that are present, in ascending tag order. */
  datatype Message = Message(fields: seq<Field>)

  predicate Ascending(fs: seq<Field>) {
    forall i, j :: 0 <= i < j < |fs| ==> fs[i].tag < fs[j].tag
  }

  predicate WellFormed(kind: WireKind, m: Message)
    decreases m, 0
  {
    && Ascending(m.fields)
    && forall i :: 0 <= i < |m.fields| ==> WellFormedField(kind, m.fields[i])
  }

  predicate WellFormedField(kind: WireKind, f: Field)
    decreases f, 0
  {
    match Schema(kind, f.tag)
    case Some(Uint64) => f.value.Num? && f.value.n < U64
    case Some(Uint32) => f.value.Num? && f.value.n < U32
    case Some(OptionalBytes) => f.value.Blob?
    case Some(PlainBytes) => f.value.Blob? && f.value.data != []
    case Some(One(k)) => f.value.Msg? && WellFormed(k, f.value.m)
    case Some(Many(k)) =>
      f.value.List? && f.value.ms != [] && forall i :: 0 <= i < |f.value.ms| ==> WellFormed(k, f.value.ms[i])
    case None => false
  }

  /** Nested messages, this one included. */
  function Messages(m: Message): (n: nat)
    ensures n >= 1
    decreases m, 0
  {
    1 + MessagesIn(m.fields)
  }

  function MessagesIn(fs: seq<Field>): nat
    decreases fs, 0
  {
    if fs == [] then 0 else MessagesInField(fs[0]) + MessagesIn(fs[1..])
  }

  function MessagesInField(f: Field): nat
    decreases f, 0
  {
    match f.value
    case Msg(m) => Messages(m)
    case List(ms) => MessagesOf(ms)
    case _ => 0
  }

  function MessagesOf(ms: seq<Message>): nat
    decreases ms, 0
  {
    if ms == [] then 0 else Messages(ms[0]) + MessagesOf(ms[1..])
  }

  // ---------------------------------------------------------------- encoding

  function EncodeMessage(m: Message): seq<byte>
    decreases m, 0
  {
    EncodeFields(RawFields(m.fields))
  }

  function RawFields(fs: seq<Field>): seq<RawField>
    decreases fs, 0
  {
    if fs == [] then [] else RawOf(fs[0]) + RawFields(fs[1..])
  }

  function RawOf(f: Field): seq<RawField>
    decreases f, 0
  {
    match f.value
    case Num(n) => [RawField(f.tag, Varint(n))]
    case Blob(data) => [RawField(f.tag, Delimited(data))]
    case Msg(m) => [RawField(f.tag, Delimited(EncodeMessage(m)))]
    case List(ms) => RawList(f.tag, ms)
  }

  function RawList(tag: nat, ms: seq<Message>): seq<RawField>
    decreases ms, 0
  {
    if ms == [] then [] else [RawField(tag, Delimited(EncodeMessage(ms[0])))] + RawList(tag, ms[1..])
  }

  // ---------------------------------------------------------------- the lenient decoder

  /** `fs` with the field `tag` set to `v`, kept in ascending order. */
  function Set(fs: seq<Field>, tag: nat, v: Value): seq<Field> {
    if fs == [] || fs[|fs| - 1].tag < tag then fs + [Field(tag, v)]
    else if fs[|fs| - 1].tag == tag then fs[..|fs| - 1] + [Field(tag, v)]
    else Set(fs[..|fs| - 1], tag, v) + [fs[|fs| - 1]]
  }

  function Get(fs: seq<Field>, tag: nat): Option<Value> {
    if fs == [] || fs[|fs| - 1].tag < tag then None
    else if fs[|fs| - 1].tag == tag then Some(fs[|fs| - 1].value)
    else Get(fs[..|fs| - 1], tag)
  }

  function Clear(fs: seq<Field>, tag: nat): seq<Field> {
    if fs == [] || fs[|fs| - 1].tag < tag then fs
    else if fs[|fs| - 1].tag == tag then fs[..|fs| - 1]
    else Clear(fs[..|fs| - 1], tag) + [fs[|fs| - 1]]
  }

  function PayloadSize(p: Payload): nat {
    if p.Delimited? then |p.data| else 0
  }

  /** Merge one field: unknown tags are skipped, scalars replaced, messages merged, lists extended. */
  function MergeField(kind: WireKind, acc: seq<Field>, f: RawField): Option<seq<Field>>
    decreases PayloadSize(f.payload), 2
  {
    if 8 * f.tag + WireType(f.payload) >= U32 then None
    else match Schema(kind, f.tag)
      case None => Some(acc)
      case Some(Uint64) => if f.payload.Varint? then Some(Set(acc, f.tag, Num(f.payload.n))) else None
      case Some(Uint32) => if f.payload.Varint? then Some(Set(acc, f.tag, Num(f.payload.n % U32))) else None
      case Some(OptionalBytes) => if f.payload.Delimited? then Some(Set(acc, f.tag, Blob(f.payload.data))) else None
      case Some(PlainBytes) =>
        if !f.payload.Delimited? then None
        else if f.payload.data == [] then Some(Clear(acc, f.tag)) else Some(Set(acc, f.tag, Blob(f.payload.data)))
      case Some(One(k)) =>
        if !f.payload.Delimited? then None
        else
          var before := match Get(acc, f.tag) case Some(Msg(m)) => m.fields case _ => [];
          (match MergeBytes(k, before, f.payload.data)
           case None => None
           case Some(fs) => Some(Set(acc, f.tag, Msg(Message(fs)))))
      case Some(Many(k)) =>
        if !f.payload.Delimited? then None
        else
          var before := match Get(acc, f.tag) case Some(List(ms)) => ms case _ => [];
          (match MergeBytes(k, [], f.payload.data)
           case None => None
           case Some(fs) => Some(Set(acc, f.tag, List(before + [Message(fs)]))))
  }

  function MergeBytes(kind: WireKind, acc: seq<Field>, bytes: seq<byte>): Option<seq<Field>>
    decreases |bytes|, 1
  {
    if |bytes| == 0 then Some(acc)
    else match NextField(bytes)
      case Err(_) => None
      case Ok((f, used)) =>
        match MergeField(kind, acc, f)
        case None => None
        case Some(acc') => MergeBytes(kind, acc', bytes[used..])
  }

  // ---------------------------------------------------------------- the preflight walk

  function Walk(bytes: seq<byte>, kind: WireKind, budget: nat): Result<nat, WireError>
    decreases |bytes|, 1
  {
    if budget == 0 then Err(TooLarge) else WalkRest(bytes, kind, budget - 1)
  }

  function WalkRest(bytes: seq<byte>, kind: WireKind, budget: nat): Result<nat, WireError>
    decreases |bytes|, 0
  {
    if |bytes| == 0 then Ok(budget)
    else
      var (f, used) :- NextField(bytes);
      var b :- WalkField(f, kind, budget);
      WalkRest(bytes[used..], kind, b)
  }

  function WalkField(f: RawField, kind: WireKind, budget: nat): Result<nat, WireError>
    decreases PayloadSize(f.payload), 2
  {
    if f.payload.Delimited? && Child(kind, f.tag).Some? then Walk(f.payload.data, Child(kind, f.tag).value, budget)
    else Ok(budget)
  }

  // ---------------------------------------------------------------- the strict decoder

  function StrictDecode(bytes: seq<byte>): Result<Message, WireError> {
    if |bytes| > MAX_TRANSACTION_BYTES then Err(TooLarge)
    else
      var _ :- Walk(bytes, Transaction, MAX_TRANSACTION_MESSAGES);
      match MergeBytes(Transaction, [], bytes)
      case None => Err(InvalidEncoding)
      case Some(fs) => if EncodeMessage(Message(fs)) != bytes then Err(InvalidEncoding) else Ok(Message(fs))
  }

  function EncodeBounded(m: Message): Result<seq<byte>, WireError> {
    if |EncodeMessage(m)| > MAX_TRANSACTION_BYTES then Err(TooLarge) else Ok(EncodeMessage(m))
  }
}
