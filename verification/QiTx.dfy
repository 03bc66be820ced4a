/** Unsigned Qi transactions: validation of address and outpoint shape, protobuf form, and strict
    decoding (qi.rs). */
module QiTx {
  import opened ByteStrings
  import opened ProtoWire
  import opened ProtoMessage
  import opened ProtoRoundTrip
  import opened ProtoWalkers
  import opened QuaiTx

  // ---------------------------------------------------------------- data

  datatype PublicKey = PublicKey(point: nat)

  /** The curve operations the codec relies on. */
  datatype Curve = Curve(
    compress: PublicKey -> seq<byte>,
    parse: seq<byte> -> Option<PublicKey>,
    address: PublicKey -> seq<byte>)

  /** All that is assumed of the curve: parsing undoes compression. */
  ghost predicate Invertible(c: Curve) {
    forall k: PublicKey :: c.parse(c.compress(k)) == Some(k)
  }

  datatype OutRef = OutRef(hash: seq<byte>, index: nat)
  datatype QiInput = QiInput(previous: OutRef, key: PublicKey)
  datatype QiOutput = QiOutput(address: seq<byte>, denomination: nat)
  datatype QiTransaction = QiTransaction(chainId: nat, inputs: seq<QiInput>, outputs: seq<QiOutput>, data: seq<byte>)
  datatype QiMode = Ordinary | Conversion | Wrapping

  predicate RepresentableInput(i: QiInput) {
    |i.previous.hash| == 32 && i.previous.index < 0x1_0000
  }

  predicate RepresentableOutput(o: QiOutput) {
    |o.address| == 20 && o.denomination < 15
  }

  predicate RepresentableQi(tx: QiTransaction) {
    && tx.chainId < WORD_BOUND
    && (forall i :: 0 <= i < |tx.inputs| ==> RepresentableInput(tx.inputs[i]))
    && (forall i :: 0 <= i < |tx.outputs| ==> RepresentableOutput(tx.outputs[i]))
  }

  // ---------------------------------------------------------------- addresses

  predicate IsZone(b: byte) {
    b / 16 < 3 && b % 16 < 3
  }

  predicate IsQiLedger(a: seq<byte>)
    requires |a| == 20
  {
    a[1] >= 0x80
  }

  /** A Qi address in zone `z`. */
  predicate QiIn(a: seq<byte>, z: byte) {
    |a| == 20 && a[0] == z && IsZone(z) && IsQiLedger(a)
  }

  // ---------------------------------------------------------------- validation, declaratively

  predicate WithinLimits(tx: QiTransaction) {
    && tx.inputs != [] && tx.outputs != []
    && 3 * |tx.inputs| + |tx.outputs| + 3 <= MAX_TRANSACTION_MESSAGES
    && |tx.inputs| <= 0xFFFF && |tx.outputs| <= 0xFFFF
    && |tx.data| <= MAX_TRANSACTION_BYTES
  }

  predicate ModeData(tx: QiTransaction, mode: QiMode, origin: byte) {
    match mode
    case Ordinary => true
    case Wrapping =>
      && |tx.data| == 20 && IsZone(tx.data[0]) && !IsQiLedger(tx.data)
      && tx.chainId != 0 && tx.data[0] == origin
    case Conversion =>
      && tx.chainId != 0 && |tx.data| == 22
      && 30 <= BeNat(tx.data[..2]) <= 9000
      && QiIn(tx.data[2..], origin)
  }

  /** Inputs spend distinct outputs of one zone with keys whose Qi addresses lie in that zone. */
  predicate GoodInputs(tx: QiTransaction, origin: byte, c: Curve) {
    && (forall i, j :: 0 <= i < j < |tx.inputs| ==> tx.inputs[i].previous != tx.inputs[j].previous)
    && (forall i :: 0 <= i < |tx.inputs| ==> GoodInput(tx.inputs[i], origin, c))
  }

  predicate GoodInput(i: QiInput, origin: byte, c: Curve) {
    && |i.previous.hash| == 32 && i.previous.hash[2] == origin && i.previous.hash != Zeros(32)
    && QiIn(c.address(i.key), origin)
  }

  predicate GoodOutput(o: QiOutput, mode: QiMode, origin: byte) {
    && |o.address| == 20 && IsZone(o.address[0])
    && (!IsQiLedger(o.address) ==> mode != Ordinary && o.address[0] == origin)
    && (mode != Ordinary ==> o.address[0] == origin)
  }

  predicate IsChange(o: QiOutput) {
    |o.address| == 20 && IsQiLedger(o.address)
  }

  /** Qi outputs reuse no address, of an input or of another output; conversion outputs share one. */
  predicate GoodOutputs(tx: QiTransaction, mode: QiMode, origin: byte, c: Curve) {
    && (forall i :: 0 <= i < |tx.outputs| ==> GoodOutput(tx.outputs[i], mode, origin))
    && (forall i, k :: 0 <= i < |tx.outputs| && 0 <= k < |tx.inputs| && IsChange(tx.outputs[i]) ==>
          tx.outputs[i].address != c.address(tx.inputs[k].key))
    && (forall i, j :: 0 <= i < j < |tx.outputs| && IsChange(tx.outputs[i]) && IsChange(tx.outputs[j]) ==>
          tx.outputs[i].address != tx.outputs[j].address)
    && (forall i, j :: 0 <= i < j < |tx.outputs| && !IsChange(tx.outputs[i]) && !IsChange(tx.outputs[j]) ==>
          tx.outputs[i].address == tx.outputs[j].address)
    && (mode != Ordinary ==> exists i :: 0 <= i < |tx.outputs| && !IsChange(tx.outputs[i]))
  }

  predicate ValidFor(tx: QiTransaction, mode: QiMode, c: Curve) {
    && WithinLimits(tx) && |tx.inputs[0].previous.hash| == 32
    && var origin := tx.inputs[0].previous.hash[2];
       && IsZone(origin) && ModeData(tx, mode, origin)
       && GoodInputs(tx, origin, c) && GoodOutputs(tx, mode, origin, c)
  }

  // ---------------------------------------------------------------- which error is reported

  function ModeFault(tx: QiTransaction, mode: QiMode, origin: byte): Option<WireError> {
    if ModeData(tx, mode, origin) then None
    else if mode == Conversion && (tx.chainId == 0 || |tx.data| != 22 || !(30 <= BeNat(tx.data[..2]) <= 9000))
      then Some(InvalidField)
    else Some(InvalidScope)
  }

  /** Input `k` spends an output that an earlier one spends. */
  predicate Respends(tx: QiTransaction, k: nat)
    requires k < |tx.inputs|
  {
    exists j :: 0 <= j < k && tx.inputs[j].previous == tx.inputs[k].previous
  }

  function InputFault(tx: QiTransaction, k: nat, origin: byte, c: Curve): Option<WireError>
    requires k < |tx.inputs|
  {
    if Respends(tx, k) then Some(InvalidField)
    else if !GoodInput(tx.inputs[k], origin, c) then Some(InvalidScope)
    else None
  }

  function InputFaults(tx: QiTransaction, origin: byte, c: Curve): seq<Option<WireError>> {
    seq(|tx.inputs|, k requires 0 <= k < |tx.inputs| => InputFault(tx, k, origin, c))
  }

  /** Addresses that output `n` may not reuse. */
  function Taken(tx: QiTransaction, n: nat, c: Curve): set<seq<byte>>
    requires n <= |tx.outputs|
  {
    (set k | 0 <= k < |tx.inputs| :: c.address(tx.inputs[k].key))
    + (set k | 0 <= k < n && IsChange(tx.outputs[k]) :: tx.outputs[k].address)
  }

  /** Output `n` is good in itself and agrees with the outputs before it. */
  predicate NextOutput(tx: QiTransaction, n: nat, mode: QiMode, origin: byte, c: Curve)
    requires n < |tx.outputs|
  {
    var o := tx.outputs[n];
    && GoodOutput(o, mode, origin)
    && (IsChange(o) ==> o.address !in Taken(tx, n, c))
    && (!IsChange(o) ==> forall j :: 0 <= j < n && !IsChange(tx.outputs[j]) ==> tx.outputs[j].address == o.address)
  }

  /** An address outside every zone, a destination that does not fit, and change outside the origin zone are
      scope errors; a destination in an ordinary transfer and reused change are field errors. */
  function OutputFault(tx: QiTransaction, k: nat, mode: QiMode, origin: byte, c: Curve): Option<WireError>
    requires k < |tx.outputs|
  {
    var o := tx.outputs[k];
    if NextOutput(tx, k, mode, origin, c) then None
    else if |o.address| != 20 || !IsZone(o.address[0]) then Some(InvalidScope)
    else if IsChange(o) then Some(if mode != Ordinary && o.address[0] != origin then InvalidScope else InvalidField)
    else Some(if mode == Ordinary then InvalidField else InvalidScope)
  }

  function OutputFaults(tx: QiTransaction, mode: QiMode, origin: byte, c: Curve): seq<Option<WireError>> {
    seq(|tx.outputs|, k requires 0 <= k < |tx.outputs| => OutputFault(tx, k, mode, origin, c))
  }

  predicate HasDestination(tx: QiTransaction) {
    exists i :: 0 <= i < |tx.outputs| && !IsChange(tx.outputs[i])
  }

  /** The origin zone, or the first error in the order of the checks. */
  function Validation(tx: QiTransaction, mode: QiMode, c: Curve): Result<byte, WireError> {
    if tx.inputs == [] || tx.outputs == [] then Err(InvalidField)
    else if !WithinLimits(tx) then Err(TooLarge)
    else if |tx.inputs[0].previous.hash| != 32 || !IsZone(tx.inputs[0].previous.hash[2]) then Err(InvalidScope)
    else ScopedValidation(tx, mode, tx.inputs[0].previous.hash[2], c)
  }

  function ScopedValidation(tx: QiTransaction, mode: QiMode, origin: byte, c: Curve): Result<byte, WireError> {
    match ModeFault(tx, mode, origin)
    case Some(e) => Err(e)
    case None =>
      match FirstFault(InputFaults(tx, origin, c))
      case Some(e) => Err(e)
      case None =>
        match FirstFault(OutputFaults(tx, mode, origin, c))
        case Some(e) => Err(e)
        case None => if mode != Ordinary && !HasDestination(tx) then Err(InvalidField) else Ok(origin)
  }

  lemma {:induction false} OutputsOneByOne(tx: QiTransaction, mode: QiMode, origin: byte, c: Curve)
    ensures GoodOutputs(tx, mode, origin, c)
            <==> (forall n :: 0 <= n < |tx.outputs| ==> NextOutput(tx, n, mode, origin, c))
                 && (mode != Ordinary ==> exists i :: 0 <= i < |tx.outputs| && !IsChange(tx.outputs[i]))
  {
    hide GoodOutput, IsChange;
    if GoodOutputs(tx, mode, origin, c) {
      forall n | 0 <= n < |tx.outputs|
        ensures NextOutput(tx, n, mode, origin, c)
      {
      }
    }
    if forall n :: 0 <= n < |tx.outputs| ==> NextOutput(tx, n, mode, origin, c) {
      forall i, k | 0 <= i < |tx.outputs| && 0 <= k < |tx.inputs| && IsChange(tx.outputs[i])
        ensures tx.outputs[i].address != c.address(tx.inputs[k].key)
      {
        assert NextOutput(tx, i, mode, origin, c) && c.address(tx.inputs[k].key) in Taken(tx, i, c);
      }
      forall i, j | 0 <= i < j < |tx.outputs| && IsChange(tx.outputs[i]) && IsChange(tx.outputs[j])
        ensures tx.outputs[i].address != tx.outputs[j].address
      {
        assert NextOutput(tx, j, mode, origin, c) && tx.outputs[i].address in Taken(tx, j, c);
      }
      forall i, j | 0 <= i < j < |tx.outputs| && !IsChange(tx.outputs[i]) && !IsChange(tx.outputs[j])
        ensures tx.outputs[i].address == tx.outputs[j].address
      {
        assert NextOutput(tx, j, mode, origin, c);
      }
      forall i | 0 <= i < |tx.outputs|
        ensures GoodOutput(tx.outputs[i], mode, origin)
      {
        assert NextOutput(tx, i, mode, origin, c);
      }
    }
  }

  lemma {:induction false} TakenNext(tx: QiTransaction, n: nat, c: Curve)
    requires n < |tx.outputs|
    ensures Taken(tx, n + 1, c) == Taken(tx, n, c) + (if IsChange(tx.outputs[n]) then {tx.outputs[n].address} else {})
  {
    hide IsChange;
  }

  lemma {:induction false} InputsOneByOne(tx: QiTransaction, origin: byte, c: Curve)
    ensures GoodInputs(tx, origin, c) <==> FirstFault(InputFaults(tx, origin, c)).None?
  {
    hide GoodInput, FirstFault;
    var faults := InputFaults(tx, origin, c);
    NoFault(faults);
    if forall k :: 0 <= k < |faults| ==> faults[k].None? {
      forall i, j | 0 <= i < j < |tx.inputs| ensures tx.inputs[i].previous != tx.inputs[j].previous {
        assert faults[j].None?;
      }
      forall i | 0 <= i < |tx.inputs| ensures GoodInput(tx.inputs[i], origin, c) {
        assert faults[i].None?;
      }
    }
  }

  lemma {:induction false} OutputsFaultless(tx: QiTransaction, mode: QiMode, origin: byte, c: Curve)
    ensures FirstFault(OutputFaults(tx, mode, origin, c)).None?
            <==> forall k :: 0 <= k < |tx.outputs| ==> NextOutput(tx, k, mode, origin, c)
  {
    hide NextOutput, FirstFault;
    var faults := OutputFaults(tx, mode, origin, c);
    NoFault(faults);
    assert forall k :: 0 <= k < |faults| ==> (faults[k].None? <==> NextOutput(tx, k, mode, origin, c));
  }

  /** No error is reported exactly for the valid transactions. */
  lemma {:induction false} ValidationExact(tx: QiTransaction, mode: QiMode, c: Curve)
    ensures Validation(tx, mode, c).Ok? <==> ValidFor(tx, mode, c)
    ensures Validation(tx, mode, c).Ok? ==> Validation(tx, mode, c).value == tx.inputs[0].previous.hash[2]
  {
    hide GoodInputs, GoodOutputs, FirstFault, ModeData, IsChange, NextOutput;
    if WithinLimits(tx) && |tx.inputs[0].previous.hash| == 32 {
      var origin := tx.inputs[0].previous.hash[2];
      InputsOneByOne(tx, origin, c);
      OutputsOneByOne(tx, mode, origin, c);
      OutputsFaultless(tx, mode, origin, c);
    }
  }

  // ---------------------------------------------------------------- validation, as it runs

  /** The loops over growing sets accept exactly the valid transactions, and otherwise report the first error. */
  method Validate(tx: QiTransaction, mode: QiMode, c: Curve) returns (r: Result<byte, WireError>)
    requires RepresentableQi(tx)
    ensures r == Validation(tx, mode, c)
    ensures r.Ok? <==> ValidFor(tx, mode, c)
  {
    hide ModeFault, FirstFault, IsChange, ValidFor;
    ValidationExact(tx, mode, c);
    if tx.inputs == [] || tx.outputs == [] {
      return Err(InvalidField);
    }
    if !WithinLimits(tx) {
      return Err(TooLarge);
    }
    assert RepresentableInput(tx.inputs[0]);
    var origin := tx.inputs[0].previous.hash[2];
    if !IsZone(origin) {
      return Err(InvalidScope);
    }
    var refused := CheckMode(tx, mode, origin);
    if refused.Some? {
      return Err(refused.value);
    }
    refused := CheckInputs(tx, origin, c);
    if refused.Some? {
      return Err(refused.value);
    }
    refused := CheckOutputs(tx, mode, origin, c);
    if refused.Some? {
      return Err(refused.value);
    }
    return Ok(origin);
  }

  method CheckMode(tx: QiTransaction, mode: QiMode, origin: byte) returns (refused: Option<WireError>)
    requires IsZone(origin)
    ensures refused == ModeFault(tx, mode, origin)
    ensures refused.None? <==> ModeData(tx, mode, origin)
  {
    if mode == Wrapping {
      if |tx.data| != 20 || !IsZone(tx.data[0]) || IsQiLedger(tx.data) || tx.chainId == 0 || tx.data[0] != origin {
        return Some(InvalidScope);
      }
    }
    if mode == Conversion {
      if tx.chainId == 0 || |tx.data| != 22 {
        return Some(InvalidField);
      }
      if !(30 <= BeNat(tx.data[..2]) <= 9000) {
        return Some(InvalidField);
      }
      if !QiIn(tx.data[2..], origin) {
        return Some(InvalidScope);
      }
    }
    return None;
  }

  method CheckInputs(tx: QiTransaction, origin: byte, c: Curve) returns (refused: Option<WireError>)
    requires RepresentableQi(tx) && IsZone(origin)
    ensures refused == FirstFault(InputFaults(tx, origin, c))
    ensures refused.None? <==> GoodInputs(tx, origin, c)
  {
    hide GoodInput, GoodInputs, RepresentableQi, FirstFault;
    InputsOneByOne(tx, origin, c);
    NoFault(InputFaults(tx, origin, c));
    var seen: set<OutRef> := {};
    for i := 0 to |tx.inputs|
      invariant forall x :: x in seen <==> exists k :: 0 <= k < i && tx.inputs[k].previous == x
      invariant forall k :: 0 <= k < i ==> InputFaults(tx, origin, c)[k].None?
    {
      var input := tx.inputs[i];
      if input.previous in seen {
        FirstAt(InputFaults(tx, origin, c), i);
        return Some(InvalidField);
      }
      seen := seen + {input.previous};
      if !GoodInput(input, origin, c) {
        FirstAt(InputFaults(tx, origin, c), i);
        return Some(InvalidScope);
      }
    }
    return None;
  }

  method CheckOutputs(tx: QiTransaction, mode: QiMode, origin: byte, c: Curve) returns (refused: Option<WireError>)
    requires RepresentableQi(tx)
    ensures FirstFault(OutputFaults(tx, mode, origin, c)).Some? ==>
              refused == FirstFault(OutputFaults(tx, mode, origin, c))
    ensures FirstFault(OutputFaults(tx, mode, origin, c)).None? ==>
              refused == if mode != Ordinary && !HasDestination(tx) then Some(InvalidField) else None
    ensures refused.None? <==> GoodOutputs(tx, mode, origin, c)
  {
    hide GoodOutputs, Taken, FirstFault;
    OutputsOneByOne(tx, mode, origin, c);
    OutputsFaultless(tx, mode, origin, c);
    var addresses: set<seq<byte>> := Taken(tx, 0, c);
    var destination: Option<seq<byte>> := None;
    for i := 0 to |tx.outputs|
      invariant addresses == Taken(tx, i, c)
      invariant forall k :: 0 <= k < i ==> NextOutput(tx, k, mode, origin, c)
      invariant forall k :: 0 <= k < i && !IsChange(tx.outputs[k]) ==> destination == Some(tx.outputs[k].address)
      invariant destination.Some? ==>
        exists k :: 0 <= k < i && !IsChange(tx.outputs[k]) && tx.outputs[k].address == destination.value
    {
      var o := tx.outputs[i];
      assert RepresentableOutput(o);
      TakenNext(tx, i, c);
      ghost var fault := OutputFault(tx, i, mode, origin, c);
      if fault.Some? {
        FirstAt(OutputFaults(tx, mode, origin, c), i);
      }
      if !IsZone(o.address[0]) {
        assert fault == Some(InvalidScope);
        return Some(InvalidScope);
      }
      if !IsQiLedger(o.address) {
        if mode == Ordinary {
          assert fault == Some(InvalidField);
          return Some(InvalidField);
        }
        if o.address[0] != origin || (destination.Some? && destination.value != o.address) {
          assert fault == Some(InvalidScope);
          return Some(InvalidScope);
        }
        destination := Some(o.address);
      } else {
        if mode != Ordinary && o.address[0] != origin {
          assert fault == Some(InvalidScope);
          return Some(InvalidScope);
        }
        if o.address in addresses {
          assert fault == Some(InvalidField);
          return Some(InvalidField);
        }
        addresses := addresses + {o.address};
      }
      assert NextOutput(tx, i, mode, origin, c);
    }
    if mode != Ordinary && destination.None? {
      return Some(InvalidField);
    }
    return None;
  }

  // ---------------------------------------------------------------- protobuf form

  function OutRefMessage(p: OutRef): Message {
    Message([Field(1, Msg(HashMessage(p.hash))), Field(2, Num(p.index))])
  }

  function InputMessage(i: QiInput, c: Curve): Message {
    Message([Field(1, Msg(OutRefMessage(i.previous))), Field(2, Blob(c.compress(i.key)))])
  }

  function OutputMessage(o: QiOutput): Message {
    Message([Field(1, Num(o.denomination)), Field(2, Blob(o.address)), Field(3, Blob([]))])
  }

  function InputMessages(ins: seq<QiInput>, c: Curve): (ms: seq<Message>)
    ensures |ms| == |ins|
  {
    if ins == [] then [] else [InputMessage(ins[0], c)] + InputMessages(ins[1..], c)
  }

  function OutputMessages(os: seq<QiOutput>): (ms: seq<Message>)
    ensures |ms| == |os|
  {
    if os == [] then [] else [OutputMessage(os[0])] + OutputMessages(os[1..])
  }

  function FiveFields(data: seq<byte>, chain: seq<byte>, inputs: Message, outputs: Message): seq<Field> {
    [Field(1, Num(2)), Field(6, Blob(data)), Field(7, Blob(chain)), Field(15, Msg(inputs)), Field(16, Msg(outputs))]
  }

  function QiProtobuf(tx: QiTransaction, c: Curve): Message {
    Message(FiveFields(tx.data, IntegerBytes(tx.chainId),
                       Message(Repeated(1, InputMessages(tx.inputs, c))),
                       Message(Repeated(1, OutputMessages(tx.outputs)))))
  }

  function QiUnsignedBytes(tx: QiTransaction, mode: QiMode, c: Curve): Result<seq<byte>, WireError> {
    var _ :- Validation(tx, mode, c);
    EncodeBounded(QiProtobuf(tx, c))
  }

  // ---------------------------------------------------------------- reading the protobuf form

  function ReadMessage(v: Option<Value>): Result<Message, WireError> {
    if v.Some? && v.value.Msg? then Ok(v.value.m) else Err(InvalidField)
  }

  function ReadInput(m: Message, c: Curve): Result<QiInput, WireError> {
    var point :- ReadMessage(Get(m.fields, 1));
    var hash :- ReadMessage(Get(point.fields, 1));
    if |PlainOf(hash, 1)| != 32 then Err(InvalidField)
    else
      var index :- ReadNum(Get(point.fields, 2));
      if index > 0xFFFF then Err(InvalidField)
      else
        var key :- ReadBlob(Get(m.fields, 2));
        match c.parse(key)
        case None => Err(InvalidField)
        case Some(k) => Ok(QiInput(OutRef(PlainOf(hash, 1), index), k))
  }

  function ReadInputs(ms: seq<Message>, c: Curve): Result<seq<QiInput>, WireError> {
    if ms == [] then Ok([])
    else
      var first :- ReadInput(ms[0], c);
      var rest :- ReadInputs(ms[1..], c);
      Ok([first] + rest)
  }

  function ReadOutput(m: Message): Result<QiOutput, WireError> {
    var lock :- Integer(Get(m.fields, 3));
    if lock != 0 then Err(InvalidField)
    else
      var denomination :- ReadNum(Get(m.fields, 1));
      if denomination >= 15 then Err(InvalidField)
      else
        var address :- ReadBlob(Get(m.fields, 2));
        if |address| != 20 then Err(InvalidField) else Ok(QiOutput(address, denomination))
  }

  function ReadOutputs(ms: seq<Message>): Result<seq<QiOutput>, WireError> {
    if ms == [] then Ok([])
    else
      var first :- ReadOutput(ms[0]);
      var rest :- ReadOutputs(ms[1..]);
      Ok([first] + rest)
  }

  function QiFromProto(m: Message, mode: QiMode, c: Curve): Result<QiTransaction, WireError> {
    if Get(m.fields, 1) != Some(Num(2)) then Err(WrongType)
    else
      var inputs :- ReadMessage(Get(m.fields, 15));
      var ins :- ReadInputs(ListOf(inputs, 1), c);
      var outputs :- ReadMessage(Get(m.fields, 16));
      var os :- ReadOutputs(ListOf(outputs, 1));
      var chainId :- Integer(Get(m.fields, 7));
      var data :- ReadBlob(Get(m.fields, 6));
      var tx := QiTransaction(chainId, ins, os, data);
      var _ :- Validation(tx, mode, c);
      Ok(tx)
  }

  function QiDecodeUnsigned(bytes: seq<byte>, mode: QiMode, c: Curve): Result<QiTransaction, WireError> {
    var m :- StrictDecode(bytes);
    var tx :- QiFromProto(m, mode, c);
    var again :- QiUnsignedBytes(tx, mode, c);
    if again != bytes then Err(InvalidEncoding) else Ok(tx)
  }

  // ---------------------------------------------------------------- round trips

  lemma {:induction false} OutRefShape(p: OutRef)
    requires |p.hash| == 32 && p.index < 0x1_0000
    ensures var m := OutRefMessage(p);
            && Get(m.fields, 1) == Some(Msg(HashMessage(p.hash))) && Get(m.fields, 2) == Some(Num(p.index))
            && PlainOf(HashMessage(p.hash), 1) == p.hash
            && WellFormed(OutPoint, m) && Messages(m) == 2
  {
    hide Get, Messages;
    var m := OutRefMessage(p);
    GetPresent(m.fields, 0);
    GetPresent(m.fields, 1);
    GetPresent(HashMessage(p.hash).fields, 0);
    HashWellFormed(p.hash);
    NestedCount(1, HashMessage(p.hash), [Field(2, Num(p.index))]);
    assert m.fields == [Field(1, Msg(HashMessage(p.hash)))] + [Field(2, Num(p.index))];
  }

  /** A message whose first field is a message and whose other fields are scalars. */
  lemma {:induction false} NestedCount(tag: nat, inner: Message, scalars: seq<Field>)
    requires forall i :: 0 <= i < |scalars| ==> scalars[i].value.Num? || scalars[i].value.Blob?
    ensures Messages(Message([Field(tag, Msg(inner))] + scalars)) == 1 + Messages(inner)
  {
    hide Messages;
    var first := [Field(tag, Msg(inner))];
    MessagesConcat(first, scalars);
    NoMessagesIn(scalars);
    assert first[1..] == [];
    assert MessagesIn(first) == MessagesInField(first[0]) + MessagesIn([]);
    MessagesUnfold(Message(first + scalars));
  }

  lemma {:induction false} MessagesUnfold(m: Message)
    ensures Messages(m) == 1 + MessagesIn(m.fields)
  {
  }

  lemma {:induction false} InputShape(i: QiInput, c: Curve)
    requires RepresentableInput(i) && Invertible(c)
    ensures var m := InputMessage(i, c);
            ReadInput(m, c) == Ok(i) && WellFormed(Input, m) && Messages(m) == 3
  {
    hide Get, Messages, OutRefMessage, PlainOf;
    var m := InputMessage(i, c);
    OutRefShape(i.previous);
    GetPresent(m.fields, 0);
    GetPresent(m.fields, 1);
    NestedCount(1, OutRefMessage(i.previous), [Field(2, Blob(c.compress(i.key)))]);
    assert m.fields == [Field(1, Msg(OutRefMessage(i.previous)))] + [Field(2, Blob(c.compress(i.key)))];
  }

  lemma {:induction false} OutputShape(o: QiOutput)
    requires RepresentableOutput(o)
    ensures var m := OutputMessage(o);
            ReadOutput(m) == Ok(o) && WellFormed(Output, m) && Messages(m) == 1
  {
    hide Get;
    var m := OutputMessage(o);
    GetPresent(m.fields, 0);
    GetPresent(m.fields, 1);
    GetPresent(m.fields, 2);
    NoMessagesIn(m.fields);
  }

  lemma {:induction false} InputsRoundTrip(ins: seq<QiInput>, c: Curve)
    requires (forall i :: 0 <= i < |ins| ==> RepresentableInput(ins[i])) && Invertible(c)
    ensures ReadInputs(InputMessages(ins, c), c) == Ok(ins)
    ensures forall i :: 0 <= i < |ins| ==> WellFormed(Input, InputMessages(ins, c)[i])
    ensures MessagesOf(InputMessages(ins, c)) == 3 * |ins|
  {
    hide InputMessage, ReadInput, WellFormed, Messages, Invertible;
    if ins == [] {
    } else {
      InputsRoundTrip(ins[1..], c);
      InputShape(ins[0], c);
      assert [ins[0]] + ins[1..] == ins;
    }
  }

  lemma {:induction false} OutputsRoundTrip(os: seq<QiOutput>)
    requires forall i :: 0 <= i < |os| ==> RepresentableOutput(os[i])
    ensures ReadOutputs(OutputMessages(os)) == Ok(os)
    ensures forall i :: 0 <= i < |os| ==> WellFormed(Output, OutputMessages(os)[i])
    ensures MessagesOf(OutputMessages(os)) == |os|
  {
    hide OutputMessage, ReadOutput, WellFormed, Messages;
    if os == [] {
    } else {
      OutputsRoundTrip(os[1..]);
      OutputShape(os[0]);
      assert [os[0]] + os[1..] == os;
    }
  }

  /** A message that only holds one repeated field. */
  lemma {:induction false} ListShape(kind: WireKind, element: WireKind, ms: seq<Message>)
    requires Schema(kind, 1) == Some(Many(element)) && forall i :: 0 <= i < |ms| ==> WellFormed(element, ms[i])
    ensures var m := Message(Repeated(1, ms));
            ListOf(m, 1) == ms && WellFormed(kind, m) && Messages(m) == 1 + MessagesOf(ms)
  {
    hide MessagesOf, MessagesIn, Get;
    RepeatedCount(1, ms);
    MessagesUnfold(Message(Repeated(1, ms)));
    if ms != [] {
      GetPresent([Field(1, List(ms))], 0);
    } else {
      GetAbsent([], 1);
    }
  }

  lemma {:induction false} QiProtobufShape(tx: QiTransaction, c: Curve)
    requires RepresentableQi(tx) && Invertible(c)
    ensures var m := QiProtobuf(tx, c);
            && WellFormed(Transaction, m)
            && Messages(m) == 3 + 3 * |tx.inputs| + |tx.outputs|
            && Get(m.fields, 1) == Some(Num(2)) && Get(m.fields, 6) == Some(Blob(tx.data))
            && Get(m.fields, 7) == Some(Blob(IntegerBytes(tx.chainId)))
            && Get(m.fields, 15) == Some(Msg(Message(Repeated(1, InputMessages(tx.inputs, c)))))
            && Get(m.fields, 16) == Some(Msg(Message(Repeated(1, OutputMessages(tx.outputs)))))
  {
    hide Get, IntegerBytes, InputMessages, OutputMessages, Messages, Repeated, WellFormed, MessagesOf, Invertible;
    InputsRoundTrip(tx.inputs, c);
    OutputsRoundTrip(tx.outputs);
    var ins, os := InputMessages(tx.inputs, c), OutputMessages(tx.outputs);
    ListShape(Inputs, Input, ins);
    ListShape(Outputs, Output, os);
    var i, o := Message(Repeated(1, ins)), Message(Repeated(1, os));
    FiveFieldsWellFormed(tx.data, IntegerBytes(tx.chainId), i, o);
    FiveFieldsLookup(tx.data, IntegerBytes(tx.chainId), i, o);
    FiveFieldsCount(tx.data, IntegerBytes(tx.chainId), i, o);
  }

  lemma {:induction false} FiveFieldsWellFormed(data: seq<byte>, chain: seq<byte>, inputs: Message, outputs: Message)
    requires WellFormed(Inputs, inputs) && WellFormed(Outputs, outputs)
    ensures WellFormed(Transaction, Message(FiveFields(data, chain, inputs, outputs)))
  {
    hide WellFormed;
    var fs := FiveFields(data, chain, inputs, outputs);
    assert Fielded(Transaction, fs);
    FieldedIsWellFormed(Transaction, Message(fs));
  }

  lemma {:induction false} FiveFieldsLookup(data: seq<byte>, chain: seq<byte>, inputs: Message, outputs: Message)
    ensures var fs := FiveFields(data, chain, inputs, outputs);
            && Get(fs, 1) == Some(Num(2)) && Get(fs, 6) == Some(Blob(data)) && Get(fs, 7) == Some(Blob(chain))
            && Get(fs, 15) == Some(Msg(inputs)) && Get(fs, 16) == Some(Msg(outputs))
  {
    hide Get;
    var fs := FiveFields(data, chain, inputs, outputs);
    GetPresent(fs, 0);
    GetPresent(fs, 1);
    GetPresent(fs, 2);
    GetPresent(fs, 3);
    GetPresent(fs, 4);
  }

  lemma {:induction false} FiveFieldsCount(data: seq<byte>, chain: seq<byte>, inputs: Message, outputs: Message)
    ensures Messages(Message(FiveFields(data, chain, inputs, outputs))) == 1 + Messages(inputs) + Messages(outputs)
  {
    hide Messages;
    var scalars := [Field(1, Num(2)), Field(6, Blob(data)), Field(7, Blob(chain))];
    var i, o := Field(15, Msg(inputs)), Field(16, Msg(outputs));
    assert FiveFields(data, chain, inputs, outputs) == scalars + ([i] + [o]);
    MessagesConcat(scalars, [i] + [o]);
    MessagesConcat([i], [o]);
    NoMessagesIn(scalars);
    assert [i][1..] == [] && [o][1..] == [];
    MessagesUnfold(Message(scalars + ([i] + [o])));
  }

  lemma {:induction false} QiFromProtobuf(tx: QiTransaction, mode: QiMode, c: Curve)
    requires RepresentableQi(tx) && Invertible(c) && ValidFor(tx, mode, c)
    ensures QiFromProto(QiProtobuf(tx, c), mode, c) == Ok(tx)
  {
    hide QiProtobuf, Integer, IntegerBytes, InputMessages, OutputMessages, ReadInputs, ReadOutputs, Get, ListOf,
         ValidFor, Invertible, Messages, Repeated, Validation;
    ValidationExact(tx, mode, c);
    QiProtobufShape(tx, c);
    InputsRoundTrip(tx.inputs, c);
    OutputsRoundTrip(tx.outputs);
    ListShape(Inputs, Input, InputMessages(tx.inputs, c));
    ListShape(Outputs, Output, OutputMessages(tx.outputs));
    IntegerRoundTrip(tx.chainId);
  }

  lemma {:induction false} ReadInputsRepresentable(ms: seq<Message>, c: Curve)
    requires ReadInputs(ms, c).Ok?
    ensures forall i :: 0 <= i < |ReadInputs(ms, c).value| ==> RepresentableInput(ReadInputs(ms, c).value[i])
  {
    if ms == [] {
    } else {
      ReadInputsRepresentable(ms[1..], c);
    }
  }

  lemma {:induction false} ReadOutputsRepresentable(ms: seq<Message>)
    requires ReadOutputs(ms).Ok?
    ensures forall i :: 0 <= i < |ReadOutputs(ms).value| ==> RepresentableOutput(ReadOutputs(ms).value[i])
  {
    if ms == [] {
    } else {
      ReadOutputsRepresentable(ms[1..]);
    }
  }

  lemma {:induction false} QiFromProtoRepresentable(m: Message, mode: QiMode, c: Curve)
    requires QiFromProto(m, mode, c).Ok?
    ensures RepresentableQi(QiFromProto(m, mode, c).value)
  {
    hide Integer, ReadInputs, ReadOutputs, Get, ListOf, Validation;
    ReadInputsRepresentable(ListOf(ReadMessage(Get(m.fields, 15)).value, 1), c);
    ReadOutputsRepresentable(ListOf(ReadMessage(Get(m.fields, 16)).value, 1));
    IntegerRange(Get(m.fields, 7));
  }

  /** In every mode, encoding and strict decoding are inverse to each other. */
  lemma {:induction false} QiUnsignedRoundTrip(tx: QiTransaction, bytes: seq<byte>, mode: QiMode, c: Curve)
    requires Invertible(c)
    ensures RepresentableQi(tx) && QiUnsignedBytes(tx, mode, c) == Ok(bytes) <==>
            QiDecodeUnsigned(bytes, mode, c) == Ok(tx)
  {
    hide StrictDecode, QiFromProto, QiProtobuf, EncodeMessage, RepresentableQi, WellFormed, Messages, Get,
         Invertible, ValidFor, Validation;
    ValidationExact(tx, mode, c);
    if RepresentableQi(tx) && QiUnsignedBytes(tx, mode, c) == Ok(bytes) {
      QiProtobufShape(tx, c);
      assert 3 + 3 * |tx.inputs| + |tx.outputs| <= MAX_TRANSACTION_MESSAGES by {
        ValidCounts(tx, mode, c);
      }
      StrictDecodeImage(bytes, QiProtobuf(tx, c));
      QiFromProtobuf(tx, mode, c);
    }
    if QiDecodeUnsigned(bytes, mode, c) == Ok(tx) {
      QiFromProtoRepresentable(StrictDecode(bytes).value, mode, c);
    }
  }

  lemma {:induction false} ValidCounts(tx: QiTransaction, mode: QiMode, c: Curve)
    requires ValidFor(tx, mode, c)
    ensures 3 + 3 * |tx.inputs| + |tx.outputs| <= MAX_TRANSACTION_MESSAGES
  {
  }

  // ---------------------------------------------------------------- message signing guard

  /** Every payload a Qi spend could sign is recognised as carrying transaction inputs ... */
  lemma {:induction false} QiPayloadIsFlagged(tx: QiTransaction, mode: QiMode, c: Curve)
    requires RepresentableQi(tx) && Invertible(c) && QiUnsignedBytes(tx, mode, c).Ok?
    ensures Scan(QiUnsignedBytes(tx, mode, c).value, 0, false)
  {
    hide Scan, StrictDecode, QiFromProto, EncodeMessage, RepresentableQi, WellFormed, Messages, Get, Invertible,
         ValidFor, Validation;
    ValidationExact(tx, mode, c);
    var m := QiProtobuf(tx, c);
    QiProtobufShape(tx, c);
    ValidCounts(tx, mode, c);
    StrictDecodeImage(QiUnsignedBytes(tx, mode, c).value, m);
    ScanFlagsInputs(QiUnsignedBytes(tx, mode, c).value, m);
    assert m.fields[3].tag == 15;
  }

  /** ... and no unsigned account transaction is. */
  lemma {:induction false} QuaiPayloadIsNotFlagged(tx: QuaiTransaction)
    requires Representable(tx) && UnsignedBytes(tx).Ok?
    ensures !Scan(UnsignedBytes(tx).value, 0, false)
  {
    hide Scan, StrictDecode, FromProto, EncodeMessage, Representable, WellFormed, Messages, Get, Ascending;
    var bytes := UnsignedBytes(tx).value;
    EntriesOf(tx);
    ProtobufWellFormed(tx);
    ClosedFormCount(tx);
    StrictDecodeImage(bytes, Protobuf(tx));
    ScanFlagsInputs(bytes, Protobuf(tx));
  }
}
