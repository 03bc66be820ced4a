/** Unsigned type-0 Quai transactions: their protobuf form, and strict decoding (quai.rs). */
module QuaiTx {
  import opened ByteStrings
  import opened ProtoWire
  import opened ProtoMessage
  import opened ProtoRoundTrip

  const WORD_BOUND: nat := Pow(256, 32)

  // ---------------------------------------------------------------- minimal big-endian integers

  function StripZeros(b: seq<byte>): seq<byte> {
    if b != [] && b[0] == 0 then StripZeros(b[1..]) else b
  }

  /** A 256-bit integer without leading zero bytes; zero is the empty string. */
  function IntegerBytes(n: nat): seq<byte> {
    StripZeros(ToBe(n, |Zeros(32)|))
  }

  function Integer(b: Option<Value>): Result<nat, WireError> {
    if !(b.Some? && b.value.Blob?) then Err(InvalidField)
    else if |b.value.data| > 32 || (b.value.data != [] && b.value.data[0] == 0) then Err(InvalidField)
    else Ok(BeNat(b.value.data))
  }

  lemma {:induction false} StripZerosMeaning(b: seq<byte>)
    ensures |StripZeros(b)| <= |b| && BeNat(StripZeros(b)) == BeNat(b)
    ensures StripZeros(b) != [] ==> StripZeros(b)[0] != 0
    ensures StripZeros(b) == b[|b| - |StripZeros(b)|..]
    ensures forall i :: 0 <= i < |b| - |StripZeros(b)| ==> b[i] == 0
  {
    if b != [] && b[0] == 0 {
      StripZerosMeaning(b[1..]);
      assert b == [0] + b[1..];
      BeNatConcat([0], b[1..]);
      assert BeNat([0]) == 0;
    }
  }

  /** The integer field round trip, in both directions. */
  lemma {:induction false} IntegerRoundTrip(n: nat)
    requires n < WORD_BOUND
    ensures Integer(Some(Blob(IntegerBytes(n)))) == Ok(n)
  {
    StripZerosMeaning(ToBe(n, |Zeros(32)|));
    BeNatOfToBe(n, |Zeros(32)|);
  }

  lemma {:induction false} LeadingZeros(b: seq<byte>, k: nat)
    requires b != [] ==> b[0] != 0
    ensures StripZeros(Zeros(k) + b) == b
    decreases k
  {
    if k > 0 {
      LeadingZeros(b, k - 1);
      assert (Zeros(k) + b)[1..] == Zeros(k - 1) + b;
    } else {
      assert Zeros(0) + b == b;
    }
  }

  lemma {:induction false} IntegerMinimal(b: seq<byte>)
    requires Integer(Some(Blob(b))).Ok?
    ensures BeNat(b) < WORD_BOUND && IntegerBytes(BeNat(b)) == b
  {
    var pad := Zeros(32 - |b|);
    BeNatBound(b);
    PowMonotone(256, |b|, 32);
    BeNatConcat(pad, b);
    BeNatZero(pad);
    ToBeOfBeNat(pad + b);
    LeadingZeros(b, 32 - |b|);
  }

  // ---------------------------------------------------------------- field lookup

  lemma {:induction false} GetPresent(fs: seq<Field>, i: nat)
    requires Ascending(fs) && i < |fs|
    ensures Get(fs, fs[i].tag) == Some(fs[i].value)
    decreases fs
  {
    if i == |fs| - 1 {
    } else {
      assert fs[..|fs| - 1][i] == fs[i];
      GetPresent(fs[..|fs| - 1], i);
    }
  }

  lemma {:induction false} GetAbsent(fs: seq<Field>, tag: nat)
    requires forall i :: 0 <= i < |fs| ==> fs[i].tag != tag
    ensures Get(fs, tag) == None
  {
    if fs == [] {
    } else {
      GetAbsent(fs[..|fs| - 1], tag);
    }
  }

  // ---------------------------------------------------------------- the transaction

  datatype AccessEntry = AccessEntry(address: seq<byte>, storageKeys: seq<seq<byte>>)

  datatype QuaiTransaction = QuaiTransaction(
    chainId: nat, nonce: nat, to: Option<seq<byte>>, value: nat, gasLimit: nat, gasPrice: nat,
    data: seq<byte>, accessList: seq<AccessEntry>)

  predicate ValidEntry(a: AccessEntry) {
    |a.address| == 20 && forall i :: 0 <= i < |a.storageKeys| ==> |a.storageKeys[i]| == 32
  }

  predicate ValidEntries(list: seq<AccessEntry>) {
    forall i :: 0 <= i < |list| ==> ValidEntry(list[i])
  }

  /** The ranges that the source's types give its fields. */
  predicate Representable(tx: QuaiTransaction) {
    && tx.chainId < WORD_BOUND && tx.value < WORD_BOUND && tx.gasPrice < WORD_BOUND
    && tx.nonce < U64 && tx.gasLimit < U64
    && (tx.to.Some? ==> |tx.to.value| == 20)
    && ValidEntries(tx.accessList)
  }

  function HashMessage(h: seq<byte>): Message {
    Message([Field(1, Blob(h))])
  }

  function HashMessages(hs: seq<seq<byte>>): (ms: seq<Message>)
    ensures |ms| == |hs|
  {
    if hs == [] then [] else [HashMessage(hs[0])] + HashMessages(hs[1..])
  }

  /** A repeated field, absent when it has no elements. */
  function Repeated(tag: nat, ms: seq<Message>): seq<Field> {
    if ms == [] then [] else [Field(tag, List(ms))]
  }

  function EntryMessage(a: AccessEntry): Message {
    Message([Field(1, Blob(a.address))] + Repeated(2, HashMessages(a.storageKeys)))
  }

  function EntryMessages(list: seq<AccessEntry>): (ms: seq<Message>)
    ensures |ms| == |list|
  {
    if list == [] then [] else [EntryMessage(list[0])] + EntryMessages(list[1..])
  }

  function ToField(to: Option<seq<byte>>): seq<Field> {
    if to.Some? then [Field(2, Blob(to.value))] else []
  }

  function Protobuf(tx: QuaiTransaction): Message {
    Message(
      [Field(1, Num(0))] + ToField(tx.to)
      + [Field(3, Num(tx.nonce)), Field(4, Blob(IntegerBytes(tx.value))), Field(5, Num(tx.gasLimit)),
         Field(6, Blob(tx.data)), Field(7, Blob(IntegerBytes(tx.chainId))), Field(8, Blob(IntegerBytes(tx.gasPrice))),
         Field(9, Msg(Message(Repeated(1, EntryMessages(tx.accessList)))))])
  }

  /** Closed-form message count of an access list. */
  function ListMessages(list: seq<AccessEntry>): nat {
    if list == [] then 0 else 1 + |list[0].storageKeys| + ListMessages(list[1..])
  }

  function ListPayload(list: seq<AccessEntry>): nat {
    if list == [] then 0 else 20 + 32 * |list[0].storageKeys| + ListPayload(list[1..])
  }

  function UnsignedBytes(tx: QuaiTransaction): Result<seq<byte>, WireError> {
    if 2 + ListMessages(tx.accessList) > MAX_TRANSACTION_MESSAGES
       || |tx.data| + ListPayload(tx.accessList) > MAX_TRANSACTION_BYTES
    then Err(TooLarge)
    else EncodeBounded(Protobuf(tx))
  }

  // ---------------------------------------------------------------- reading the protobuf form

  function ReadBlob(v: Option<Value>): Result<seq<byte>, WireError> {
    if v.Some? && v.value.Blob? then Ok(v.value.data) else Err(InvalidField)
  }

  function ReadNum(v: Option<Value>): Result<nat, WireError> {
    if v.Some? && v.value.Num? then Ok(v.value.n) else Err(InvalidField)
  }

  /** A plain bytes field: absent means empty. */
  function PlainOf(m: Message, tag: nat): seq<byte> {
    match Get(m.fields, tag)
    case Some(Blob(b)) => b
    case _ => []
  }

  function ListOf(m: Message, tag: nat): seq<Message> {
    match Get(m.fields, tag)
    case Some(List(ms)) => ms
    case _ => []
  }

  function ReadHashes(ms: seq<Message>): Result<seq<seq<byte>>, WireError> {
    if ms == [] then Ok([])
    else if |PlainOf(ms[0], 1)| != 32 then Err(InvalidField)
    else
      var rest :- ReadHashes(ms[1..]);
      Ok([PlainOf(ms[0], 1)] + rest)
  }

  function ReadEntries(ms: seq<Message>): Result<seq<AccessEntry>, WireError> {
    if ms == [] then Ok([])
    else if |PlainOf(ms[0], 1)| != 20 then Err(InvalidField)
    else
      var keys :- ReadHashes(ListOf(ms[0], 2));
      var rest :- ReadEntries(ms[1..]);
      Ok([AccessEntry(PlainOf(ms[0], 1), keys)] + rest)
  }

  function ReadTo(v: Option<Value>): Result<Option<seq<byte>>, WireError> {
    match v
    case Some(Blob(b)) => if |b| == 20 then Ok(Some(b)) else Err(InvalidField)
    case _ => Ok(None)
  }

  function FromProto(m: Message): Result<QuaiTransaction, WireError> {
    if Get(m.fields, 1) != Some(Num(0)) then Err(WrongType)
    else
      var to :- ReadTo(Get(m.fields, 2));
      match Get(m.fields, 9)
      case Some(Msg(access)) =>
        var list :- ReadEntries(ListOf(access, 1));
        var chainId :- Integer(Get(m.fields, 7));
        var nonce :- ReadNum(Get(m.fields, 3));
        var value :- Integer(Get(m.fields, 4));
        var gasLimit :- ReadNum(Get(m.fields, 5));
        var gasPrice :- Integer(Get(m.fields, 8));
        var data :- ReadBlob(Get(m.fields, 6));
        Ok(QuaiTransaction(chainId, nonce, to, value, gasLimit, gasPrice, data, list))
      case _ => Err(InvalidField)
  }

  function DecodeUnsigned(bytes: seq<byte>): Result<QuaiTransaction, WireError> {
    var m :- StrictDecode(bytes);
    var tx :- FromProto(m);
    var again :- UnsignedBytes(tx);
    if again != bytes then Err(InvalidEncoding) else Ok(tx)
  }

  // ---------------------------------------------------------------- round trips of the nested lists

  lemma {:induction false} HashesRoundTrip(hs: seq<seq<byte>>)
    requires forall i :: 0 <= i < |hs| ==> |hs[i]| == 32
    ensures ReadHashes(HashMessages(hs)) == Ok(hs)
    ensures forall i :: 0 <= i < |hs| ==> WellFormed(Hash, HashMessages(hs)[i])
    ensures MessagesOf(HashMessages(hs)) == |hs|
  {
    if hs == [] {
    } else {
      HashesRoundTrip(hs[1..]);
      GetPresent(HashMessage(hs[0]).fields, 0);
      HashWellFormed(hs[0]);
      assert [hs[0]] + hs[1..] == hs;
    }
  }

  lemma {:induction false} HashWellFormed(h: seq<byte>)
    requires h != []
    ensures WellFormed(Hash, HashMessage(h)) && Messages(HashMessage(h)) == 1
  {
    NoMessagesIn([Field(1, Blob(h))]);
  }

  lemma {:induction false} EntryShape(a: AccessEntry)
    requires ValidEntry(a)
    ensures var m := EntryMessage(a);
            && PlainOf(m, 1) == a.address && ListOf(m, 2) == HashMessages(a.storageKeys)
            && WellFormed(AccessTuple, m) && Messages(m) == 1 + |a.storageKeys|
  {
    hide HashMessages, WellFormedField, Get, Messages, MessagesOf;
    HashesRoundTrip(a.storageKeys);
    var m := EntryMessage(a);
    EntryFieldsWellFormed(a);
    GetPresent(m.fields, 0);
    if a.storageKeys == [] {
      GetAbsent(m.fields, 2);
    } else {
      GetPresent(m.fields, 1);
    }
    EntryCount(a);
  }

  lemma {:induction false} EntryFieldsWellFormed(a: AccessEntry)
    requires ValidEntry(a) && forall i :: 0 <= i < |HashMessages(a.storageKeys)| ==>
            WellFormed(Hash, HashMessages(a.storageKeys)[i])
    ensures WellFormed(AccessTuple, EntryMessage(a))
  {
    hide HashMessages;
  }

  lemma {:induction false} EntryCount(a: AccessEntry)
    requires MessagesOf(HashMessages(a.storageKeys)) == |a.storageKeys|
    ensures Messages(EntryMessage(a)) == 1 + |a.storageKeys|
  {
    hide HashMessages, MessagesOf;
    var ms := HashMessages(a.storageKeys);
    var address := [Field(1, Blob(a.address))];
    MessagesConcat(address, Repeated(2, ms));
    NoMessagesIn(address);
    RepeatedCount(2, ms);
  }

  lemma {:induction false} RepeatedCount(tag: nat, ms: seq<Message>)
    ensures MessagesIn(Repeated(tag, ms)) == MessagesOf(ms)
  {
    hide Messages;
    if ms != [] {
      assert Repeated(tag, ms)[1..] == [];
    }
  }

  lemma {:induction false} EntriesRoundTrip(list: seq<AccessEntry>)
    requires ValidEntries(list)
    ensures ReadEntries(EntryMessages(list)) == Ok(list)
    ensures forall i :: 0 <= i < |list| ==> WellFormed(AccessTuple, EntryMessages(list)[i])
    ensures MessagesOf(EntryMessages(list)) == ListMessages(list)
  {
    hide EntryMessage, PlainOf, ListOf, WellFormed, Messages, HashMessages, ReadHashes;
    if list == [] {
    } else {
      EntriesRoundTrip(list[1..]);
      EntryShape(list[0]);
      HashesRoundTrip(list[0].storageKeys);
      assert [list[0]] + list[1..] == list;
    }
  }

  // ---------------------------------------------------------------- the whole transaction

  lemma {:induction false} AccessListShape(list: seq<AccessEntry>)
    requires ValidEntries(list)
    ensures var m := Message(Repeated(1, EntryMessages(list)));
            && ListOf(m, 1) == EntryMessages(list) && WellFormed(AccessList, m)
            && Messages(m) == 1 + ListMessages(list)
  {
    hide EntryMessages, MessagesOf, ListMessages;
    EntriesRoundTrip(list);
    var ms := EntryMessages(list);
    RepeatedCount(1, ms);
    if ms != [] {
      GetPresent([Field(1, List(ms))], 0);
    } else {
      GetAbsent([], 1);
    }
  }

  lemma {:induction false} ProtobufAscending(tx: QuaiTransaction)
    ensures Ascending(Protobuf(tx).fields)
    ensures |Protobuf(tx).fields| == if tx.to.Some? then 9 else 8
  {
    hide IntegerBytes, EntryMessages;
  }

  lemma {:induction false} ProtobufLookup(tx: QuaiTransaction)
    ensures var fs := Protobuf(tx).fields;
            && Get(fs, 1) == Some(Num(0))
            && Get(fs, 2) == (if tx.to.Some? then Some(Blob(tx.to.value)) else None)
            && Get(fs, 3) == Some(Num(tx.nonce))
            && Get(fs, 4) == Some(Blob(IntegerBytes(tx.value)))
            && Get(fs, 5) == Some(Num(tx.gasLimit))
            && Get(fs, 6) == Some(Blob(tx.data))
            && Get(fs, 7) == Some(Blob(IntegerBytes(tx.chainId)))
            && Get(fs, 8) == Some(Blob(IntegerBytes(tx.gasPrice)))
            && Get(fs, 9) == Some(Msg(Message(Repeated(1, EntryMessages(tx.accessList)))))
  {
    hide IntegerBytes, EntryMessages, Get, Ascending;
    var fs := Protobuf(tx).fields;
    ProtobufAscending(tx);
    var k := if tx.to.Some? then 1 else 0;
    GetPresent(fs, 0);
    if tx.to.Some? {
      GetPresent(fs, 1);
    } else {
      GetAbsent(fs, 2);
    }
    GetPresent(fs, 1 + k);
    GetPresent(fs, 2 + k);
    GetPresent(fs, 3 + k);
    GetPresent(fs, 4 + k);
    GetPresent(fs, 5 + k);
    GetPresent(fs, 6 + k);
    GetPresent(fs, 7 + k);
  }

  lemma {:induction false} ProtobufWellFormed(tx: QuaiTransaction)
    requires Representable(tx)
    ensures WellFormed(Transaction, Protobuf(tx))
  {
    hide IntegerBytes, EntryMessages, WellFormed;
    AccessListShape(tx.accessList);
    ProtobufAscending(tx);
    var fs := Protobuf(tx).fields;
    forall i | 0 <= i < |fs|
      ensures WellFormedField(Transaction, fs[i])
    {
    }
    FieldedIsWellFormed(Transaction, Protobuf(tx));
  }

  lemma {:induction false} NoMessagesIn(fs: seq<Field>)
    requires forall i :: 0 <= i < |fs| ==> fs[i].value.Num? || fs[i].value.Blob?
    ensures MessagesIn(fs) == 0
  {
    if fs == [] {
    } else {
      NoMessagesIn(fs[1..]);
    }
  }

  lemma {:induction false} MessagesConcat(a: seq<Field>, b: seq<Field>)
    ensures MessagesIn(a + b) == MessagesIn(a) + MessagesIn(b)
  {
    hide MessagesInField;
    if a == [] {
      assert a + b == b;
    } else {
      MessagesConcat(a[1..], b);
      assert (a + b)[1..] == a[1..] + b;
    }
  }

  /** The closed-form count is what the preflight walk will charge. */
  lemma {:induction false} ClosedFormCount(tx: QuaiTransaction)
    requires ValidEntries(tx.accessList)
    ensures Messages(Protobuf(tx)) == 2 + ListMessages(tx.accessList)
  {
    hide IntegerBytes, EntryMessages, ListMessages;
    var fs := Protobuf(tx).fields;
    var last := fs[|fs| - 1];
    var scalars := fs[..|fs| - 1];
    assert fs == scalars + [last];
    MessagesConcat(scalars, [last]);
    NoMessagesIn(scalars);
    AccessListShape(tx.accessList);
    assert [last][1..] == [];
  }

  lemma {:induction false} FromProtobuf(tx: QuaiTransaction)
    requires Representable(tx)
    ensures FromProto(Protobuf(tx)) == Ok(tx)
  {
    hide Protobuf, IntegerBytes, Integer, EntryMessages, ReadEntries, ListOf, Get;
    ProtobufLookup(tx);
    AccessListShape(tx.accessList);
    EntriesRoundTrip(tx.accessList);
    IntegerRoundTrip(tx.chainId);
    IntegerRoundTrip(tx.value);
    IntegerRoundTrip(tx.gasPrice);
  }

  // ---------------------------------------------------------------- what reading can produce

  lemma {:induction false} ReadHashesValid(ms: seq<Message>)
    requires ReadHashes(ms).Ok?
    ensures forall i :: 0 <= i < |ReadHashes(ms).value| ==> |ReadHashes(ms).value[i]| == 32
  {
    if ms == [] {
    } else {
      ReadHashesValid(ms[1..]);
    }
  }

  lemma {:induction false} ReadEntriesValid(ms: seq<Message>)
    requires ReadEntries(ms).Ok?
    ensures ValidEntries(ReadEntries(ms).value)
  {
    hide ReadHashes, PlainOf, ListOf;
    if ms == [] {
    } else {
      ReadEntriesValid(ms[1..]);
      ReadHashesValid(ListOf(ms[0], 2));
    }
  }

  lemma {:induction false} NumRange(m: Message, tag: nat)
    requires WellFormed(Transaction, m) && (tag == 3 || tag == 5) && ReadNum(Get(m.fields, tag)).Ok?
    ensures ReadNum(Get(m.fields, tag)).value < U64
  {
    hide Get;
    GetWellFormed(Transaction, m.fields, tag);
  }

  lemma {:induction false} IntegerRange(v: Option<Value>)
    requires Integer(v).Ok?
    ensures Integer(v).value < WORD_BOUND
  {
    IntegerMinimal(v.value.data);
  }

  lemma {:induction false} FromProtoRepresentable(m: Message)
    requires WellFormed(Transaction, m) && FromProto(m).Ok?
    ensures Representable(FromProto(m).value)
  {
    hide WellFormed, Integer, ReadEntries, ListOf, Get;
    match Get(m.fields, 9)
    case Some(Msg(access)) =>
      ReadEntriesValid(ListOf(access, 1));
      NumRange(m, 3);
      NumRange(m, 5);
      IntegerRange(Get(m.fields, 4));
      IntegerRange(Get(m.fields, 7));
      IntegerRange(Get(m.fields, 8));
  }

  /** Unsigned bytes and their strict decoding are inverse to each other: every transaction that
      encodes comes back, and accepted bytes are exactly the encoder's output. */
  lemma {:induction false} UnsignedRoundTrip(tx: QuaiTransaction, bytes: seq<byte>)
    ensures Representable(tx) && UnsignedBytes(tx) == Ok(bytes) <==> DecodeUnsigned(bytes) == Ok(tx)
  {
    hide StrictDecode, FromProto, Protobuf, EncodeMessage, Representable, ListMessages, ListPayload, WellFormed,
         Messages;
    if Representable(tx) && UnsignedBytes(tx) == Ok(bytes) {
      ProtobufWellFormed(tx);
      assert ValidEntries(tx.accessList) by {
        EntriesOf(tx);
      }
      ClosedFormCount(tx);
      StrictDecodeImage(bytes, Protobuf(tx));
      FromProtobuf(tx);
    }
    if DecodeUnsigned(bytes) == Ok(tx) {
      var m := StrictDecode(bytes).value;
      StrictDecodeImage(bytes, m);
      FromProtoRepresentable(m);
    }
  }

  lemma {:induction false} EntriesOf(tx: QuaiTransaction)
    requires Representable(tx)
    ensures ValidEntries(tx.accessList)
  {
  }
}
