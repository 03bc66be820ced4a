/** Strict decoding of unsigned transactions as it runs (lib.rs, quai.rs, qi.rs): a walk that spends the
    message budget, then loops that collect the repeated parts. */
module TxCodec {
  import opened ByteStrings
  import opened ProtoWire
  import opened ProtoMessage
  import opened ProtoWalkers
  import opened QuaiTx
  import opened QiTx

  /** The strict wire decoder: size limit, budgeted walk, merge, and comparison with the re-encoding. */
  method DecodeMessage(bytes: seq<byte>) returns (r: Result<Message, WireError>)
    ensures r == StrictDecode(bytes)
  {
    hide Walk, MergeBytes, EncodeMessage;
    if |bytes| > MAX_TRANSACTION_BYTES {
      return Err(TooLarge);
    }
    var walked := Preflight(bytes, Transaction, MAX_TRANSACTION_MESSAGES);
    if walked.Err? {
      return Err(walked.error);
    }
    match MergeBytes(Transaction, [], bytes)
    case None => return Err(InvalidEncoding);
    case Some(fields) =>
      if EncodeMessage(Message(fields)) != bytes {
        return Err(InvalidEncoding);
      }
      return Ok(Message(fields));
  }

  // ---------------------------------------------------------------- account transactions

  method CollectKeys(ms: seq<Message>) returns (r: Result<seq<seq<byte>>, WireError>)
    ensures r == ReadHashes(ms)
  {
    hide PlainOf;
    var keys: seq<seq<byte>>, i := [], 0;
    assert ms[0..] == ms;
    OntoNothing(ReadHashes(ms));
    while i < |ms|
      invariant 0 <= i <= |ms| && ReadHashes(ms) == Onto(keys, ReadHashes(ms[i..]))
    {
      assert ms[i..][1..] == ms[i + 1..];
      if |PlainOf(ms[i], 1)| != 32 {
        return Err(InvalidField);
      }
      OntoLaws(keys, PlainOf(ms[i], 1), ReadHashes(ms[i + 1..]));
      keys := keys + [PlainOf(ms[i], 1)];
      i := i + 1;
    }
    assert keys + [] == keys;
    return Ok(keys);
  }

  method CollectEntries(ms: seq<Message>) returns (r: Result<seq<AccessEntry>, WireError>)
    ensures r == ReadEntries(ms)
  {
    hide PlainOf, ListOf, ReadHashes;
    var list: seq<AccessEntry>, i := [], 0;
    assert ms[0..] == ms;
    OntoNothing(ReadEntries(ms));
    while i < |ms|
      invariant 0 <= i <= |ms| && ReadEntries(ms) == Onto(list, ReadEntries(ms[i..]))
    {
      assert ms[i..][1..] == ms[i + 1..];
      if |PlainOf(ms[i], 1)| != 20 {
        return Err(InvalidField);
      }
      var keys := CollectKeys(ListOf(ms[i], 2));
      if keys.Err? {
        return Err(keys.error);
      }
      OntoLaws(list, AccessEntry(PlainOf(ms[i], 1), keys.value), ReadEntries(ms[i + 1..]));
      list := list + [AccessEntry(PlainOf(ms[i], 1), keys.value)];
      i := i + 1;
    }
    assert list + [] == list;
    return Ok(list);
  }

  /** The two totals of an access list, checked before anything is encoded. */
  method Totals(list: seq<AccessEntry>, data: nat) returns (messages: nat, payload: nat)
    ensures messages == 2 + ListMessages(list) && payload == data + ListPayload(list)
  {
    messages, payload := 2, data;
    var i := 0;
    assert list[0..] == list;
    while i < |list|
      invariant 0 <= i <= |list|
      invariant messages + ListMessages(list[i..]) == 2 + ListMessages(list)
      invariant payload + ListPayload(list[i..]) == data + ListPayload(list)
    {
      assert list[i..][1..] == list[i + 1..];
      messages := messages + (1 + |list[i].storageKeys|);
      payload := payload + 32 * |list[i].storageKeys| + 20;
      i := i + 1;
    }
  }

  method EncodeQuai(tx: QuaiTransaction) returns (r: Result<seq<byte>, WireError>)
    ensures r == UnsignedBytes(tx)
  {
    hide Protobuf, EncodeMessage;
    var messages, payload := Totals(tx.accessList, |tx.data|);
    if messages > MAX_TRANSACTION_MESSAGES || payload > MAX_TRANSACTION_BYTES {
      return Err(TooLarge);
    }
    return EncodeBounded(Protobuf(tx));
  }

  method ReadQuai(m: Message) returns (r: Result<QuaiTransaction, WireError>)
    ensures r == FromProto(m)
  {
    hide Get, Integer, ReadEntries, ListOf;
    if Get(m.fields, 1) != Some(Num(0)) {
      return Err(WrongType);
    }
    var to :- ReadTo(Get(m.fields, 2));
    var access := Get(m.fields, 9);
    if access.None? || !access.value.Msg? {
      return Err(InvalidField);
    }
    var list :- CollectEntries(ListOf(access.value.m, 1));
    var chainId :- Integer(Get(m.fields, 7));
    var nonce :- ReadNum(Get(m.fields, 3));
    var value :- Integer(Get(m.fields, 4));
    var gasLimit :- ReadNum(Get(m.fields, 5));
    var gasPrice :- Integer(Get(m.fields, 8));
    var data :- ReadBlob(Get(m.fields, 6));
    return Ok(QuaiTransaction(chainId, nonce, to, value, gasLimit, gasPrice, data, list));
  }

  method DecodeQuai(bytes: seq<byte>) returns (r: Result<QuaiTransaction, WireError>)
    ensures r == DecodeUnsigned(bytes)
    ensures r.Ok? ==> UnsignedBytes(r.value) == Ok(bytes)
  {
    hide StrictDecode, FromProto, UnsignedBytes;
    var m :- DecodeMessage(bytes);
    var tx :- ReadQuai(m);
    var again :- EncodeQuai(tx);
    if again != bytes {
      return Err(InvalidEncoding);
    }
    return Ok(tx);
  }

  // ---------------------------------------------------------------- Qi transactions

  method CollectInputs(ms: seq<Message>, c: Curve) returns (r: Result<seq<QiInput>, WireError>)
    ensures r == ReadInputs(ms, c)
  {
    hide ReadInput;
    var inputs: seq<QiInput>, i := [], 0;
    assert ms[0..] == ms;
    OntoNothing(ReadInputs(ms, c));
    while i < |ms|
      invariant 0 <= i <= |ms| && ReadInputs(ms, c) == Onto(inputs, ReadInputs(ms[i..], c))
    {
      assert ms[i..][1..] == ms[i + 1..];
      var input := ReadInput(ms[i], c);
      if input.Err? {
        return Err(input.error);
      }
      OntoLaws(inputs, input.value, ReadInputs(ms[i + 1..], c));
      inputs := inputs + [input.value];
      i := i + 1;
    }
    assert inputs + [] == inputs;
    return Ok(inputs);
  }

  method CollectOutputs(ms: seq<Message>) returns (r: Result<seq<QiOutput>, WireError>)
    ensures r == ReadOutputs(ms)
  {
    hide ReadOutput;
    var outputs: seq<QiOutput>, i := [], 0;
    assert ms[0..] == ms;
    OntoNothing(ReadOutputs(ms));
    while i < |ms|
      invariant 0 <= i <= |ms| && ReadOutputs(ms) == Onto(outputs, ReadOutputs(ms[i..]))
    {
      assert ms[i..][1..] == ms[i + 1..];
      var output := ReadOutput(ms[i]);
      if output.Err? {
        return Err(output.error);
      }
      OntoLaws(outputs, output.value, ReadOutputs(ms[i + 1..]));
      outputs := outputs + [output.value];
      i := i + 1;
    }
    assert outputs + [] == outputs;
    return Ok(outputs);
  }

  method ReadQi(m: Message, mode: QiMode, c: Curve) returns (r: Result<QiTransaction, WireError>)
    ensures r == QiFromProto(m, mode, c)
    ensures r.Ok? ==> RepresentableQi(r.value) && ValidFor(r.value, mode, c)
  {
    hide Get, Integer, ReadInputs, ReadOutputs, ListOf, ValidFor, Validation;
    if Get(m.fields, 1) != Some(Num(2)) {
      return Err(WrongType);
    }
    var spent :- ReadMessage(Get(m.fields, 15));
    var inputs :- CollectInputs(ListOf(spent, 1), c);
    var made :- ReadMessage(Get(m.fields, 16));
    var outputs :- CollectOutputs(ListOf(made, 1));
    var chainId :- Integer(Get(m.fields, 7));
    var data :- ReadBlob(Get(m.fields, 6));
    var tx := QiTransaction(chainId, inputs, outputs, data);
    ReadInputsRepresentable(ListOf(spent, 1), c);
    ReadOutputsRepresentable(ListOf(made, 1));
    IntegerRange(Get(m.fields, 7));
    var _ :- Validate(tx, mode, c);
    return Ok(tx);
  }

  method EncodeQi(tx: QiTransaction, mode: QiMode, c: Curve) returns (r: Result<seq<byte>, WireError>)
    requires RepresentableQi(tx)
    ensures r == QiUnsignedBytes(tx, mode, c)
    ensures r.Ok? ==> ValidFor(tx, mode, c)
  {
    hide ValidFor, Validation, QiProtobuf, EncodeMessage, RepresentableQi;
    var _ :- Validate(tx, mode, c);
    return EncodeBounded(QiProtobuf(tx, c));
  }

  method DecodeQi(bytes: seq<byte>, mode: QiMode, c: Curve) returns (r: Result<QiTransaction, WireError>)
    ensures r == QiDecodeUnsigned(bytes, mode, c)
    ensures r.Ok? ==> QiUnsignedBytes(r.value, mode, c) == Ok(bytes) && ValidFor(r.value, mode, c)
  {
    hide StrictDecode, QiFromProto, QiUnsignedBytes, RepresentableQi, ValidFor;
    var m :- DecodeMessage(bytes);
    var tx :- ReadQi(m, mode, c);
    var again :- EncodeQi(tx, mode, c);
    if again != bytes {
      return Err(InvalidEncoding);
    }
    return Ok(tx);
  }
}
