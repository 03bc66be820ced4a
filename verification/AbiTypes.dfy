/** ABI types with the size and depth metadata that construction caches (abi_type.rs). */
module AbiTypes {
  import opened ByteStrings

  const MAX_DATA_BYTES: nat := 0x10_0000
  const MAX_VALUE_NODES: nat := 32768
  const MAX_DEPTH: nat := 64
  const MAX_FIELDS: nat := 1024

  datatype AbiError = Schema | Limit | Value | Encoding | Selector

  datatype Kind =
    | Bool
    | Int(signed: bool, bits: nat)
    | Address
    | FixedBytes(size: nat)
    | DynBytes
    | Str
    | Array(child: AbiType, length: Option<nat>)
    | Tuple(fields: seq<AbiType>)

  datatype AbiType = AbiType(kind: Kind, dynamic: bool, head: nat, minimumNodes: nat, depth: nat) {
    /** Built by `New` from valid parts, so the cached metadata is what `New` computes. */
    predicate Valid() {
      && PrimitiveWidth(kind)
      && New(kind) == Ok(this)
      && match kind {
           case Array(child, _) => child.Valid()
           case Tuple(fields) => forall i :: 0 <= i < |fields| ==> fields[i].Valid()
           case _ => true
         }
    }
  }

  /** A parameter list, or `count` repetitions of one element type. */
  datatype Sequence =
    | Fields(types: seq<AbiType>)
    | Repeat(element: AbiType, count: nat)
  {
    function Len(): nat {
      match this
      case Fields(types) => |types|
      case Repeat(_, count) => count
    }

    function Get(i: nat): AbiType
      requires i < Len()
    {
      match this
      case Fields(types) => types[i]
      case Repeat(element, _) => element
    }

    /** Head bytes of the first `n` entries. */
    function HeadUpTo(n: nat): nat
      requires n <= Len()
    {
      if n == 0 then 0 else HeadUpTo(n - 1) + Get(n - 1).head
    }

    /** Fewest value nodes the first `n` entries can have. */
    function NodesUpTo(n: nat): nat
      requires n <= Len()
    {
      if n == 0 then 0 else NodesUpTo(n - 1) + Get(n - 1).minimumNodes
    }

    function Head(): nat {
      match this
      case Fields(_) => HeadUpTo(Len())
      case Repeat(element, count) => element.head * count
    }

    function MinimumNodes(): nat {
      match this
      case Fields(_) => NodesUpTo(Len())
      case Repeat(element, count) => element.minimumNodes * count
    }

    predicate Valid() {
      match this
      case Fields(types) => forall i :: 0 <= i < |types| ==> types[i].Valid()
      case Repeat(element, _) => element.Valid()
    }
  }

  lemma {:induction false} RepeatUpTo(s: Sequence, n: nat)
    requires s.Repeat? && n <= s.Len()
    ensures s.HeadUpTo(n) == s.element.head * n
    ensures s.NodesUpTo(n) == s.element.minimumNodes * n
  {
    if n == 0 {
    } else {
      RepeatUpTo(s, n - 1);
    }
  }

  lemma {:induction false} SequenceTotals(s: Sequence)
    ensures s.Head() == s.HeadUpTo(s.Len())
    ensures s.MinimumNodes() == s.NodesUpTo(s.Len())
  {
    if s.Repeat? {
      RepeatUpTo(s, s.count);
    }
  }

  function MaxDepth(fields: seq<AbiType>): nat {
    if fields == [] then 0
    else
      var last := fields[|fields| - 1].depth + 1;
      var rest := MaxDepth(fields[..|fields| - 1]);
      if rest > last then rest else last
  }

  lemma {:induction false} FieldDepth(fields: seq<AbiType>, k: nat)
    requires k < |fields|
    ensures fields[k].depth + 1 <= MaxDepth(fields)
    decreases |fields|
  {
    if k == |fields| - 1 {
    } else {
      FieldDepth(fields[..|fields| - 1], k);
    }
  }

  predicate PrimitiveWidth(kind: Kind) {
    match kind
    case Int(_, bits) => 8 <= bits <= 256 && bits % 8 == 0
    case FixedBytes(size) => 1 <= size <= 32
    case _ => true
  }

  /** A size within the data limit. */
  function Capped(n: nat): Result<nat, AbiError> {
    if n > MAX_DATA_BYTES then Err(Limit) else Ok(n)
  }

  function Build(kind: Kind, dynamic: bool, head: nat, nodes: nat, depth: nat): Result<AbiType, AbiError> {
    if nodes > MAX_VALUE_NODES || head > MAX_DATA_BYTES || depth > MAX_DEPTH then Err(Limit)
    else Ok(AbiType(kind, dynamic, head, nodes, depth))
  }

  /** `AbiType::new`: compute the cached metadata, refusing what exceeds a limit. */
  function New(kind: Kind): Result<AbiType, AbiError> {
    match kind
    case DynBytes => Build(kind, true, 32, 1, 0)
    case Str => Build(kind, true, 32, 1, 0)
    case Array(child, length) =>
      if length.Some? && length.value > MAX_VALUE_NODES then Err(Limit)
      else
        var n := if length.Some? then length.value else 0;
        var dynamic := length.None? || child.dynamic;
        Build(kind, dynamic, if dynamic then 32 else child.head * n, 1 + n * child.minimumNodes, child.depth + 1)
    case Tuple(fields) =>
      if |fields| > MAX_FIELDS then Err(Limit)
      else
        var s := Fields(fields);
        var dynamic := exists i :: 0 <= i < |fields| && fields[i].dynamic;
        Build(kind, dynamic, if dynamic then 32 else s.Head(), 1 + s.MinimumNodes(), MaxDepth(fields))
    case _ => Build(kind, false, 32, 1, 0)
  }
}
