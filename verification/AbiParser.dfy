/** Printing and parsing of canonical type names (abi_type.rs). */
module AbiParser {
  import opened ByteStrings
  import opened AbiTypes
  import opened AbiText

  const MAX_TEXT: nat := 4096
  const USIZE: nat := 0x1_0000_0000_0000_0000

  const BOOL: seq<byte> := [0x62, 0x6F, 0x6F, 0x6C]
  const ADDRESS: seq<byte> := [0x61, 0x64, 0x64, 0x72, 0x65, 0x73, 0x73]
  const BYTES: seq<byte> := [0x62, 0x79, 0x74, 0x65, 0x73]
  const STRING: seq<byte> := [0x73, 0x74, 0x72, 0x69, 0x6E, 0x67]
  const INT: seq<byte> := [0x69, 0x6E, 0x74]
  const UINT: seq<byte> := [0x75, 0x69, 0x6E, 0x74]
  const TUPLE: seq<byte> := [0x74, 0x75, 0x70, 0x6C, 0x65]
  const OPEN: byte := 0x28
  const CLOSE: byte := 0x29
  const COMMA: byte := 0x2C
  const LEFT: byte := 0x5B
  const RIGHT: byte := 0x5D

  // ---------------------------------------------------------------- printing

  function Length(n: Option<nat>): seq<byte> {
    if n.Some? then Decimal(n.value) else []
  }

  predicate IsWord(kind: Kind) {
    !kind.Array? && !kind.Tuple?
  }

  function WordText(kind: Kind): seq<byte>
    requires IsWord(kind)
  {
    match kind
    case Bool => BOOL
    case Int(signed, bits) => (if signed then INT else UINT) + Decimal(bits)
    case Address => ADDRESS
    case FixedBytes(n) => BYTES + Decimal(n)
    case DynBytes => BYTES
    case Str => STRING
  }

  function TypeName(ty: AbiType): seq<byte>
    decreases ty, 1
  {
    match ty.kind
    case Array(child, n) => TypeName(child) + ([LEFT] + Length(n) + [RIGHT])
    case Tuple(fields) => [OPEN] + FieldNames(fields, 0)
    case _ => WordText(ty.kind)
  }

  /** The fields from the `k`-th on, with their separators and the closing parenthesis. */
  function FieldNames(fields: seq<AbiType>, k: nat): seq<byte>
    requires k <= |fields|
    decreases fields, 0, |fields| - k
  {
    if k == |fields| then [CLOSE]
    else Separator(k) + TypeName(fields[k]) + FieldNames(fields, k + 1)
  }

  lemma {:induction false} FieldNamesNext(fields: seq<AbiType>, k: nat)
    requires k <= |fields|
    ensures FieldNames(fields, k)
            == if k == |fields| then [CLOSE] else Separator(k) + TypeName(fields[k]) + FieldNames(fields, k + 1)
  {
  }

  function Separator(k: nat): seq<byte> {
    if k > 0 then [COMMA] else []
  }

  /** Syntax nodes: one per primitive, tuple and array suffix. */
  function SyntaxNodes(ty: AbiType): (n: nat)
    ensures n >= 1
    decreases ty, 1
  {
    match ty.kind
    case Array(child, _) => SyntaxNodes(child) + 1
    case Tuple(fields) => 1 + FieldNodes(fields, 0)
    case _ => 1
  }

  /** Syntax nodes of the fields from the `k`-th on. */
  function FieldNodes(fields: seq<AbiType>, k: nat): nat
    requires k <= |fields|
    decreases fields, 0, |fields| - k
  {
    if k == |fields| then 0 else SyntaxNodes(fields[k]) + FieldNodes(fields, k + 1)
  }

  // ---------------------------------------------------------------- scanning

  datatype Class = Space | Alphanumeric | Digit

  predicate InClass(c: byte, class_: Class) {
    match class_
    case Space => c == 0x20 || c == 0x09 || c == 0x0A || c == 0x0C || c == 0x0D
    case Alphanumeric => IsDigit(c) || 0x41 <= c <= 0x5A || 0x61 <= c <= 0x7A
    case Digit => IsDigit(c)
  }

  /** End of the longest stretch of one character class from `pos` on. */
  function RunEnd(b: seq<byte>, pos: nat, class_: Class): (end: nat)
    requires pos <= |b|
    ensures pos <= end <= |b|
    ensures forall i :: pos <= i < end ==> InClass(b[i], class_)
    ensures end < |b| ==> !InClass(b[end], class_)
    decreases |b| - pos
  {
    if pos < |b| && InClass(b[pos], class_) then RunEnd(b, pos + 1, class_) else pos
  }

  /** Position after `c` when it comes next, blanks skipped. */
  function Eaten(b: seq<byte>, pos: nat, c: byte): (next: Option<nat>)
    requires pos <= |b|
    ensures next.Some? ==> pos < next.value <= |b|
  {
    var p := RunEnd(b, pos, Space);
    if p < |b| && b[p] == c then Some(p + 1) else None
  }

  predicate StartsWith(name: seq<byte>, prefix: seq<byte>) {
    |prefix| <= |name| && name[..|prefix|] == prefix
  }

  function Width(text: seq<byte>, max: nat, multiple: nat): Result<nat, AbiError>
    requires multiple > 0
  {
    if text == [] || !DigitsIn(text, 10) then Err(Schema)
    else
      var n := ParseDigits(text, 10);
      if n >= USIZE || n == 0 || n > max || n % multiple != 0 || text != Decimal(n) then Err(Schema) else Ok(n)
  }

  function KindOf(name: seq<byte>): Result<Kind, AbiError> {
    if name == BOOL then Ok(Bool)
    else if name == ADDRESS then Ok(Address)
    else if name == BYTES then Ok(DynBytes)
    else if name == STRING then Ok(Str)
    else if name == INT then Ok(Int(true, 256))
    else if name == UINT then Ok(Int(false, 256))
    else if StartsWith(name, UINT) then
      var bits :- Width(name[4..], 256, 8);
      Ok(Int(false, bits))
    else if StartsWith(name, INT) then
      var bits :- Width(name[3..], 256, 8);
      Ok(Int(true, bits))
    else if StartsWith(name, BYTES) then
      var n :- Width(name[5..], 32, 1);
      Ok(FixedBytes(n))
    else Err(Schema)
  }

  function LengthOf(digits: seq<byte>): Result<Option<nat>, AbiError>
    requires DigitsIn(digits, 10)
  {
    if digits == [] then Ok(None)
    else
      var n := ParseDigits(digits, 10);
      if n >= USIZE then Err(Limit) else if digits != Decimal(n) then Err(Schema) else Ok(Some(n))
  }

  // ---------------------------------------------------------------- parsing

  datatype Parsed = Parsed(ty: AbiType, pos: nat, nodes: nat)
  datatype ParsedFields = ParsedFields(fields: seq<AbiType>, pos: nat, nodes: nat)

  /** Where the name or parenthesis of a type starts, after blanks and an optional `tuple` keyword. */
  function Start(b: seq<byte>, pos: nat): (r: Result<nat, AbiError>)
    requires pos <= |b|
    ensures r.Ok? ==> pos <= r.value <= |b|
  {
    var p := RunEnd(b, pos, Space);
    if p + 5 <= |b| && b[p..p + 5] == TUPLE then
      var q := RunEnd(b, p + 5, Space);
      if q < |b| && b[q] == OPEN then Ok(q) else Err(Schema)
    else Ok(p)
  }

  predicate Uncountable(nodes: nat, depth: nat) {
    nodes + 1 > MAX_FIELDS || depth > MAX_DEPTH
  }

  function ParseType(b: seq<byte>, pos: nat, nodes: nat, depth: nat): (r: Result<Parsed, AbiError>)
    requires pos <= |b|
    ensures r.Ok? ==> pos <= r.value.pos <= |b| && nodes < r.value.nodes <= MAX_FIELDS
    decreases MAX_FIELDS + 1 - nodes, 0, 1
  {
    if Uncountable(nodes, depth) then Err(Limit)
    else
      var start :- Start(b, pos);
      var base :- ParseBase(b, start, nodes + 1, depth);
      ParseSuffixes(b, base.ty, base.pos, base.nodes, depth)
  }

  function ParseBase(b: seq<byte>, pos: nat, nodes: nat, depth: nat): (r: Result<Parsed, AbiError>)
    requires pos <= |b| && nodes <= MAX_FIELDS
    ensures r.Ok? ==> pos <= r.value.pos <= |b| && nodes <= r.value.nodes <= MAX_FIELDS
    decreases MAX_FIELDS + 1 - nodes, 3
  {
    match Eaten(b, pos, OPEN)
    case Some(inside) => Inside(b, inside, nodes, depth)
    case None =>
      var start := RunEnd(b, pos, Space);
      var end := RunEnd(b, start, Alphanumeric);
      var kind :- KindOf(b[start..end]);
      var ty :- New(kind);
      Ok(Parsed(ty, end, nodes))
  }

  /** A tuple, after its opening parenthesis. */
  function Inside(b: seq<byte>, pos: nat, nodes: nat, depth: nat): (r: Result<Parsed, AbiError>)
    requires pos <= |b| && nodes <= MAX_FIELDS
    ensures r.Ok? ==> pos <= r.value.pos <= |b| && nodes <= r.value.nodes <= MAX_FIELDS
    decreases MAX_FIELDS + 1 - nodes, 2
  {
    var list :- if Eaten(b, pos, CLOSE).Some? then Ok(ParsedFields([], Eaten(b, pos, CLOSE).value, nodes))
                else ParseFields(b, pos, nodes, depth, []);
    var ty :- New(Tuple(list.fields));
    Ok(Parsed(ty, list.pos, list.nodes))
  }

  function ParseFields(b: seq<byte>, pos: nat, nodes: nat, depth: nat,
          fields: seq<AbiType>): (r: Result<ParsedFields, AbiError>)
    requires pos <= |b| && nodes <= MAX_FIELDS
    ensures r.Ok? ==> pos <= r.value.pos <= |b| && nodes <= r.value.nodes <= MAX_FIELDS
    decreases MAX_FIELDS + 1 - nodes, 1
  {
    var field :- ParseType(b, pos, nodes, depth + 1);
    match Eaten(b, field.pos, CLOSE)
    case Some(end) => Ok(ParsedFields(fields + [field.ty], end, field.nodes))
    case None =>
      match Eaten(b, field.pos, COMMA)
      case None => Err(Schema)
      case Some(next) => ParseFields(b, next, field.nodes, depth, fields + [field.ty])
  }

  function ParseSuffixes(b: seq<byte>, ty: AbiType, pos: nat, nodes: nat, depth: nat): (r: Result<Parsed, AbiError>)
    requires pos <= |b| && nodes <= MAX_FIELDS
    ensures r.Ok? ==> pos <= r.value.pos <= |b| && nodes <= r.value.nodes <= MAX_FIELDS
    decreases MAX_FIELDS + 1 - nodes, 0, 0
  {
    match Eaten(b, pos, LEFT)
    case None => Ok(Parsed(ty, RunEnd(b, pos, Space), nodes))
    case Some(inside) =>
      var next :- ParseSuffix(b, ty, inside, nodes, depth);
      ParseSuffixes(b, next.ty, next.pos, next.nodes, depth)
  }

  /** One array suffix, after its opening bracket. */
  function ParseSuffix(b: seq<byte>, ty: AbiType, pos: nat, nodes: nat, depth: nat): (r: Result<Parsed, AbiError>)
    requires pos <= |b| && nodes <= MAX_FIELDS
    ensures r.Ok? ==> pos <= r.value.pos <= |b| && r.value.nodes == nodes + 1 <= MAX_FIELDS
  {
    if Uncountable(nodes, depth + 1) then Err(Limit)
    else
      var start := RunEnd(b, pos, Space);
      var end := RunEnd(b, start, Digit);
      var n :- LengthOf(b[start..end]);
      match Eaten(b, end, RIGHT)
      case None => Err(Schema)
      case Some(next) =>
        var built :- New(Array(ty, n));
        Ok(Parsed(built, next, nodes + 1))
  }

  function Parse(text: seq<byte>): Result<AbiType, AbiError> {
    if |text| > MAX_TEXT then Err(Limit)
    else
      var parsed :- ParseType(text, 0, 0, 0);
      if RunEnd(text, parsed.pos, Space) != |text| then Err(Schema) else Ok(parsed.ty)
  }

  // ---------------------------------------------------------------- parsing a printed name

  /** `text` stands at `pos`. */
  predicate At(b: seq<byte>, pos: nat, text: seq<byte>) {
    pos + |text| <= |b| && b[pos..pos + |text|] == text
  }

  lemma {:induction false} AtConcat(b: seq<byte>, pos: nat, x: seq<byte>, y: seq<byte>)
    requires At(b, pos, x + y)
    ensures At(b, pos, x) && At(b, pos + |x|, y)
  {
    assert b[pos..pos + |x|] == b[pos..pos + |x + y|][..|x|];
    assert b[pos + |x|..pos + |x| + |y|] == b[pos..pos + |x + y|][|x|..];
  }

  lemma {:induction false} AtFirst(b: seq<byte>, pos: nat, text: seq<byte>)
    requires At(b, pos, text) && text != []
    ensures pos < |b| && b[pos] == text[0]
  {
    assert b[pos..pos + |text|][0] == b[pos];
  }

  /** What may follow a type name: the end, or anything that does not continue a word. */
  predicate Ends(b: seq<byte>, pos: nat, class_: Class) {
    pos <= |b| && (pos < |b| ==> !InClass(b[pos], class_))
  }

  lemma {:induction false} RunOver(b: seq<byte>, pos: nat, text: seq<byte>, class_: Class)
    requires At(b, pos, text) && Ends(b, pos + |text|, class_) && forall i :: 0 <= i < |text| ==>
            InClass(text[i], class_)
    ensures RunEnd(b, pos, class_) == pos + |text|
    decreases |text|
  {
    if text == [] {
    } else {
      AtConcat(b, pos, text[..1], text[1..]) by { assert text == text[..1] + text[1..]; }
      AtFirst(b, pos, text);
      RunOver(b, pos + 1, text[1..], class_);
    }
  }

  lemma {:induction false} NoSpaceHere(b: seq<byte>, pos: nat)
    requires Ends(b, pos, Space)
    ensures RunEnd(b, pos, Space) == pos
  {
  }

  lemma {:induction false} EatenAt(b: seq<byte>, pos: nat, c: byte)
    requires pos < |b| && !InClass(b[pos], Space)
    ensures Eaten(b, pos, c) == if b[pos] == c then Some(pos + 1) else None
  {
    NoSpaceHere(b, pos);
  }

  lemma {:induction false} NextByte(b: seq<byte>, pos: nat, c: byte, rest: seq<byte>)
    requires At(b, pos, [c] + rest)
    ensures pos < |b| && b[pos] == c && At(b, pos + 1, rest)
  {
    AtConcat(b, pos, [c], rest);
    AtFirst(b, pos, [c]);
  }

  // ---------------------------------------------------------------- words

  lemma {:induction false} WidthOfDecimal(n: nat, max: nat, multiple: nat)
    requires 0 < n <= max < USIZE && multiple > 0 && n % multiple == 0
    ensures Width(Decimal(n), max, multiple) == Ok(n)
  {
    ParseDecimal(n);
  }

  lemma {:induction false} KindOfInt(signed: bool, bits: nat)
    requires PrimitiveWidth(Int(signed, bits))
    ensures KindOf((if signed then INT else UINT) + Decimal(bits)) == Ok(Int(signed, bits))
  {
    hide Width, Decimal;
    var prefix := if signed then INT else UINT;
    var name := prefix + Decimal(bits);
    WidthOfDecimal(bits, 256, 8);
    assert name[..|prefix|] == prefix && name[|prefix|..] == Decimal(bits);
    assert name[0] == prefix[0] && |name| > |prefix|;
    assert signed ==> name[..4][0] != UINT[0];
  }

  lemma {:induction false} KindOfFixedBytes(n: nat)
    requires PrimitiveWidth(FixedBytes(n))
    ensures KindOf(BYTES + Decimal(n)) == Ok(FixedBytes(n))
  {
    hide Width, Decimal;
    var name := BYTES + Decimal(n);
    WidthOfDecimal(n, 32, 1);
    assert name[..5] == BYTES && name[5..] == Decimal(n);
    assert name[0] == 0x62 && name[1] == 0x79;
    assert name[..4][0] != UINT[0] && name[..3][0] != INT[0];
  }

  lemma {:induction false} KindOfWord(ty: AbiType)
    requires ty.Valid() && IsWord(ty.kind)
    ensures KindOf(TypeName(ty)) == Ok(ty.kind)
  {
    match ty.kind
    case Int(signed, bits) => KindOfInt(signed, bits);
    case FixedBytes(n) => KindOfFixedBytes(n);
    case _ =>
  }

  lemma {:induction false} WordIsAlphanumeric(ty: AbiType)
    requires IsWord(ty.kind)
    ensures forall i :: 0 <= i < |TypeName(ty)| ==> InClass(TypeName(ty)[i], Alphanumeric)
  {
    hide Decimal;
  }

  /** Names begin with a parenthesis or one of the letters a, b, i, s, u. */
  predicate BeginsName(c: byte) {
    c == OPEN || c == 0x61 || c == 0x62 || c == 0x69 || c == 0x73 || c == 0x75
  }

  lemma {:induction false} NameBegins(ty: AbiType)
    ensures TypeName(ty) != [] && BeginsName(TypeName(ty)[0])
    decreases ty
  {
    if ty.kind.Array? {
      NameBegins(ty.kind.child);
    }
  }

  // ---------------------------------------------------------------- suffixes

  /** Without a bracket the suffix loop stops. */
  lemma {:induction false} SuffixesStop(b: seq<byte>, ty: AbiType, pos: nat, nodes: nat, depth: nat)
    requires Ends(b, pos, Space) && nodes <= MAX_FIELDS && (pos < |b| ==> b[pos] != LEFT)
    ensures ParseSuffixes(b, ty, pos, nodes, depth) == Ok(Parsed(ty, pos, nodes))
  {
    NoSpaceHere(b, pos);
  }

  lemma {:induction false} LengthRoundTrip(n: Option<nat>)
    requires n.Some? ==> n.value < USIZE
    ensures DigitsIn(Length(n), 10) && LengthOf(Length(n)) == Ok(n)
  {
    if n.Some? {
      ParseDecimal(n.value);
    }
  }

  lemma {:induction false} SuffixScan(b: seq<byte>, pos: nat, n: Option<nat>)
    requires At(b, pos, [LEFT] + Length(n) + [RIGHT])
    ensures var p := pos + 1; var q := p + |Length(n)|;
            && Eaten(b, pos, LEFT) == Some(p) && RunEnd(b, p, Space) == p && RunEnd(b, p, Digit) == q <= |b|
            && b[p..q] == Length(n) && Eaten(b, q, RIGHT) == Some(q + 1)
  {
    hide Length, RunEnd, Eaten, At;
    var digits := Length(n);
    LengthIsDigits(n);
    assert [LEFT] + digits + [RIGHT] == [LEFT] + (digits + [RIGHT]);
    NextByte(b, pos, LEFT, digits + [RIGHT]);
    DigitsThenBracket(b, pos + 1, digits);
    EatenAt(b, pos, LEFT);
  }

  lemma {:induction false} DigitsThenBracket(b: seq<byte>, pos: nat, digits: seq<byte>)
    requires At(b, pos, digits + [RIGHT]) && forall i :: 0 <= i < |digits| ==> IsDigit(digits[i])
    ensures var q := pos + |digits|;
            RunEnd(b, pos, Space) == pos && RunEnd(b, pos, Digit) == q <= |b| && b[pos..q] == digits
              && Eaten(b, q, RIGHT) == Some(q + 1)
  {
    hide RunEnd, Eaten;
    AtConcat(b, pos, digits, [RIGHT]);
    AtFirst(b, pos + |digits|, [RIGHT]);
    AtFirst(b, pos, digits + [RIGHT]);
    NoSpaceHere(b, pos);
    RunOver(b, pos, digits, Digit);
    EatenAt(b, pos + |digits|, RIGHT);
  }

  lemma {:induction false} LengthIsDigits(n: Option<nat>)
    ensures forall i :: 0 <= i < |Length(n)| ==> IsDigit(Length(n)[i])
  {
  }

  lemma {:induction false} SuffixStep(b: seq<byte>, child: AbiType, ty: AbiType, n: Option<nat>, pos: nat,
          nodes: nat, depth: nat)
    requires At(b, pos, [LEFT] + Length(n) + [RIGHT]) && New(Array(child, n)) == Ok(ty) && nodes <= MAX_FIELDS
            && depth + 1 <= MAX_DEPTH
    ensures ParseSuffixes(b, child, pos, nodes, depth)
            == if nodes + 1 <= MAX_FIELDS
              then ParseSuffixes(b, ty, pos + |[LEFT] + Length(n) + [RIGHT]|, nodes + 1, depth) else Err(Limit)
  {
    hide RunEnd, Eaten, LengthOf, Length;
    SuffixScan(b, pos, n);
    LengthRoundTrip(n);
  }

  // ---------------------------------------------------------------- whole names

  lemma {:induction false} WordParses(b: seq<byte>, pos: nat, nodes: nat, depth: nat, ty: AbiType)
    requires ty.Valid() && IsWord(ty.kind) && At(b, pos, TypeName(ty)) && Ends(b, pos + |TypeName(ty)|, Alphanumeric)
    requires nodes + 1 <= MAX_FIELDS && depth <= MAX_DEPTH
    ensures ParseType(b, pos, nodes, depth) == ParseSuffixes(b, ty, pos + |TypeName(ty)|, nodes + 1, depth)
  {
    hide RunEnd, TypeName, KindOf, New, ParseSuffixes;
    var w := TypeName(ty);
    NameBegins(ty);
    AtFirst(b, pos, w);
    WordIsAlphanumeric(ty);
    NoSpaceHere(b, pos);
    assert Start(b, pos) == Ok(pos) by { NoTupleHere(b, pos); }
    RunOver(b, pos, w, Alphanumeric);
    KindOfWord(ty);
    assert New(ty.kind) == Ok(ty);
    assert b[pos] != OPEN by { assert InClass(w[0], Alphanumeric); }
    assert ParseBase(b, pos, nodes + 1, depth) == Ok(Parsed(ty, pos + |w|, nodes + 1));
  }

  lemma {:induction false} NoTupleHere(b: seq<byte>, pos: nat)
    requires pos < |b| && BeginsName(b[pos])
    ensures Start(b, pos) == Ok(pos)
  {
    NoSpaceHere(b, pos);
    assert pos + 5 <= |b| ==> b[pos..pos + 5][0] != TUPLE[0];
  }

  /** The parser, standing at a printed name, reads exactly that name and goes on to look for suffixes. */
  lemma {:induction false} NameParses(b: seq<byte>, pos: nat, nodes: nat, depth: nat, ty: AbiType)
    requires ty.Valid() && At(b, pos, TypeName(ty)) && Ends(b, pos + |TypeName(ty)|, Alphanumeric)
    requires nodes <= MAX_FIELDS && depth + ty.depth <= MAX_DEPTH
    ensures ParseType(b, pos, nodes, depth)
            == if nodes + SyntaxNodes(ty) <= MAX_FIELDS
              then ParseSuffixes(b, ty, pos + |TypeName(ty)|, nodes + SyntaxNodes(ty), depth) else Err(Limit)
    decreases ty, 1
  {
    hide ParseType, ParseSuffixes, Length, New, RunEnd, AbiType.Valid, At;
    match ty.kind
    case Array(child, n) =>
      var suffix := [LEFT] + Length(n) + [RIGHT];
      AtConcat(b, pos, TypeName(child), suffix);
      AtFirst(b, pos + |TypeName(child)|, suffix);
      ArrayDepth(ty);
      NameParses(b, pos, nodes, depth, child);
      if nodes + SyntaxNodes(child) <= MAX_FIELDS {
        SuffixStep(b, child, ty, n, pos + |TypeName(child)|, nodes + SyntaxNodes(child), depth);
      }
    case Tuple(fields) =>
      TupleParses(b, pos, nodes, depth, ty);
    case _ =>
      if nodes + 1 <= MAX_FIELDS {
        WordParses(b, pos, nodes, depth, ty);
      } else {
        CountFails(b, pos, nodes, depth);
      }
  }

  lemma {:induction false} CountFails(b: seq<byte>, pos: nat, nodes: nat, depth: nat)
    requires pos <= |b| && nodes + 1 > MAX_FIELDS
    ensures ParseType(b, pos, nodes, depth) == Err(Limit)
  {
  }

  lemma {:induction false} ArrayDepth(ty: AbiType)
    requires ty.Valid() && ty.kind.Array?
    ensures ty.depth == ty.kind.child.depth + 1 && New(Array(ty.kind.child, ty.kind.length)) == Ok(ty)
            && ty.kind.child.Valid()
  {
  }

  lemma {:induction false} TupleDepth(ty: AbiType)
    requires ty.Valid() && ty.kind.Tuple?
    ensures ty.depth == MaxDepth(ty.kind.fields) && New(Tuple(ty.kind.fields)) == Ok(ty)
  {
  }

  lemma {:induction false} TupleParses(b: seq<byte>, pos: nat, nodes: nat, depth: nat, ty: AbiType)
    requires ty.Valid() && ty.kind.Tuple? && At(b, pos, TypeName(ty))
    requires nodes <= MAX_FIELDS && depth + ty.depth <= MAX_DEPTH
    ensures ParseType(b, pos, nodes, depth)
            == if nodes + SyntaxNodes(ty) <= MAX_FIELDS
              then ParseSuffixes(b, ty, pos + |TypeName(ty)|, nodes + SyntaxNodes(ty), depth) else Err(Limit)
    decreases ty, 0, |ty.kind.fields| + 2
  {
    hide ParseType, ParseBase, ParseSuffixes, TypeName, RunEnd, Inside, At, New;
    var rest := FieldNames(ty.kind.fields, 0);
    assert TypeName(ty) == [OPEN] + rest by { TupleName(ty); }
    NextByte(b, pos, OPEN, rest);
    TupleDepth(ty);
    if nodes + 1 <= MAX_FIELDS {
      InsideParses(b, pos + 1, nodes + 1, depth, ty);
      TupleOpens(b, pos, nodes, depth);
    } else {
      CountFails(b, pos, nodes, depth);
    }
  }

  lemma {:induction false} TupleName(ty: AbiType)
    requires ty.kind.Tuple?
    ensures TypeName(ty) == [OPEN] + FieldNames(ty.kind.fields, 0)
  {
  }

  /** At an opening parenthesis a type is its fields, then suffixes. */
  lemma {:induction false} TupleOpens(b: seq<byte>, pos: nat, nodes: nat, depth: nat)
    requires pos < |b| && b[pos] == OPEN && nodes + 1 <= MAX_FIELDS && depth <= MAX_DEPTH
    ensures ParseType(b, pos, nodes, depth) ==
            match Inside(b, pos + 1, nodes + 1, depth)
            case Err(e) => Err(e)
            case Ok(base) => ParseSuffixes(b, base.ty, base.pos, base.nodes, depth)
  {
    hide RunEnd, Inside, ParseSuffixes;
    NoTupleHere(b, pos);
    EatenAt(b, pos, OPEN);
  }

  lemma {:induction false} InsideParses(b: seq<byte>, pos: nat, nodes: nat, depth: nat, ty: AbiType)
    requires ty.Valid() && ty.kind.Tuple? && At(b, pos, FieldNames(ty.kind.fields, 0))
    requires nodes <= MAX_FIELDS && depth + ty.depth <= MAX_DEPTH
    ensures Inside(b, pos, nodes, depth)
            == if nodes + FieldNodes(ty.kind.fields, 0) <= MAX_FIELDS
              then Ok(Parsed(ty, pos + |FieldNames(ty.kind.fields, 0)|, nodes + FieldNodes(ty.kind.fields, 0)))
              else Err(Limit)
    decreases ty, 0, |ty.kind.fields| + 1
  {
    hide New, RunEnd, ParseFields, Eaten, TypeName, AbiType.Valid;
    var fields := ty.kind.fields;
    TupleDepth(ty);
    if fields == [] {
      AtFirst(b, pos, FieldNames(ty.kind.fields, 0));
      EatenAt(b, pos, CLOSE);
    } else {
      NameBegins(fields[0]);
      assert FieldNames(ty.kind.fields, 0) == TypeName(fields[0]) + FieldNames(ty.kind.fields, 1);
      AtFirst(b, pos, FieldNames(ty.kind.fields, 0));
      EatenAt(b, pos, CLOSE);
      FieldsParse(b, pos, nodes, depth, ty, 0);
      assert fields[..0] == [];
    }
  }

  lemma {:induction false} FieldsParse(b: seq<byte>, pos: nat, nodes: nat, depth: nat, ty: AbiType, k: nat)
    requires ty.Valid() && ty.kind.Tuple? && k < |ty.kind.fields| && nodes <= MAX_FIELDS
            && depth + ty.depth <= MAX_DEPTH
    requires At(b, pos, TypeName(ty.kind.fields[k]) + FieldNames(ty.kind.fields, k + 1))
    ensures var fields := ty.kind.fields;
            var total := nodes + FieldNodes(fields, k);
            var end := pos + |TypeName(fields[k]) + FieldNames(fields, k + 1)|;
            ParseFields(b, pos, nodes, depth, fields[..k])
            == if total <= MAX_FIELDS then Ok(ParsedFields(fields, end, total)) else Err(Limit)
    decreases ty, 0, |ty.kind.fields| - k
  {
    hide ParseType, ParseSuffixes, New, RunEnd, TypeName, FieldNames, Eaten, At, AbiType.Valid;
    var fields := ty.kind.fields;
    var field, rest := fields[k], FieldNames(ty.kind.fields, k + 1);
    var next := pos + |TypeName(field)|;
    AtConcat(b, pos, TypeName(field), rest);
    FieldNamesNext(fields, k + 1);
    assert rest[0] == if k + 1 == |fields| then CLOSE else COMMA;
    AtFirst(b, next, rest);
    FieldFits(ty, k);
    NameParses(b, pos, nodes, depth + 1, field);
    if nodes + SyntaxNodes(field) <= MAX_FIELDS {
      SuffixesStop(b, field, next, nodes + SyntaxNodes(field), depth + 1);
      EatenAt(b, next, CLOSE);
      EatenAt(b, next, COMMA);
      assert fields[..k] + [field] == fields[..k + 1];
      if k + 1 < |fields| {
        var more := TypeName(fields[k + 1]) + FieldNames(fields, k + 2);
        assert rest == [COMMA] + more;
        NextByte(b, next, COMMA, more);
        FieldsParse(b, next + 1, nodes + SyntaxNodes(field), depth, ty, k + 1);
      } else {
        assert fields[..k + 1] == fields;
      }
    }
  }

  lemma {:induction false} FieldFits(ty: AbiType, k: nat)
    requires ty.Valid() && ty.kind.Tuple? && k < |ty.kind.fields|
    ensures ty.kind.fields[k].Valid() && ty.kind.fields[k].depth + 1 <= ty.depth
  {
    TupleDepth(ty);
    FieldDepth(ty.kind.fields, k);
  }

  /** Parsing a printed name gives the type back, metadata included, exactly when it fits the parser's limits. */
  lemma {:induction false} ParseOfName(ty: AbiType)
    requires ty.Valid()
    ensures Parse(TypeName(ty)) == if |TypeName(ty)| <= MAX_TEXT
            && SyntaxNodes(ty) <= MAX_FIELDS then Ok(ty) else Err(Limit)
  {
    hide ParseType, ParseSuffixes, TypeName, RunEnd;
    var b := TypeName(ty);
    assert b[0..|b|] == b;
    assert ty.depth <= MAX_DEPTH;
    NameParses(b, 0, 0, 0, ty);
    if SyntaxNodes(ty) <= MAX_FIELDS {
      SuffixesStop(b, ty, |b|, SyntaxNodes(ty), 0);
    }
    NoSpaceHere(b, |b|);
  }

  // ---------------------------------------------------------------- what the parser produces

  /** A parsed type is validly constructed and was charged one node per syntax node. */
  predicate Sound(r: Result<Parsed, AbiError>, nodes: nat) {
    r.Ok? ==> r.value.ty.Valid() && r.value.nodes == nodes + SyntaxNodes(r.value.ty)
  }

  lemma {:induction false} ParsedIsSound(b: seq<byte>, pos: nat, nodes: nat, depth: nat)
    requires pos <= |b|
    ensures Sound(ParseType(b, pos, nodes, depth), nodes)
    decreases MAX_FIELDS + 1 - nodes, 0, 1
  {
    hide ParseBase, ParseSuffixes, Start, SyntaxNodes;
    if ParseType(b, pos, nodes, depth).Ok? {
      var start := Start(b, pos).value;
      var base := ParseBase(b, start, nodes + 1, depth).value;
      BaseIsSound(b, start, nodes + 1, depth);
      SuffixesAreSound(b, base.ty, base.pos, base.nodes, depth);
    }
  }

  lemma {:induction false} WordIsSound(name: seq<byte>)
    requires KindOf(name).Ok? && New(KindOf(name).value).Ok?
    ensures New(KindOf(name).value).value.Valid() && SyntaxNodes(New(KindOf(name).value).value) == 1
  {
    hide Decimal, ParseDigits;
  }

  lemma {:induction false} BaseIsSound(b: seq<byte>, pos: nat, nodes: nat, depth: nat)
    requires pos <= |b| && 0 < nodes <= MAX_FIELDS
    ensures Sound(ParseBase(b, pos, nodes, depth), nodes - 1)
    decreases MAX_FIELDS + 1 - nodes, 3
  {
    hide Inside, KindOf, New, RunEnd, SyntaxNodes;
    if ParseBase(b, pos, nodes, depth).Ok? {
      match Eaten(b, pos, OPEN)
      case Some(inside) => InsideIsSound(b, inside, nodes, depth);
      case None => WordIsSound(b[RunEnd(b, pos, Space)..RunEnd(b, RunEnd(b, pos, Space), Alphanumeric)]);
    }
  }

  lemma {:induction false} InsideIsSound(b: seq<byte>, pos: nat, nodes: nat, depth: nat)
    requires pos <= |b| && 0 < nodes <= MAX_FIELDS
    ensures Sound(Inside(b, pos, nodes, depth), nodes - 1)
    decreases MAX_FIELDS + 1 - nodes, 2
  {
    hide ParseFields, Eaten, New;
    if Inside(b, pos, nodes, depth).Ok? {
      if Eaten(b, pos, CLOSE).Some? {
        TupleIsSound([]);
      } else {
        FieldsAreSound(b, pos, nodes, depth, []);
        TupleIsSound(ParseFields(b, pos, nodes, depth, []).value.fields);
      }
    }
  }

  lemma {:induction false} TupleIsSound(fields: seq<AbiType>)
    requires New(Tuple(fields)).Ok? && forall i :: 0 <= i < |fields| ==> fields[i].Valid()
    ensures New(Tuple(fields)).value.Valid() && SyntaxNodes(New(Tuple(fields)).value) == 1 + FieldNodes(fields, 0)
  {
  }

  lemma {:induction false} FieldsAreSound(b: seq<byte>, pos: nat, nodes: nat, depth: nat, fields: seq<AbiType>)
    requires pos <= |b| && nodes <= MAX_FIELDS && forall i :: 0 <= i < |fields| ==> fields[i].Valid()
    ensures var r := ParseFields(b, pos, nodes, depth, fields);
            r.Ok? ==> fields <= r.value.fields && r.value.nodes == nodes + FieldNodes(r.value.fields, |fields|)
                      && forall i :: 0 <= i < |r.value.fields| ==> r.value.fields[i].Valid()
    decreases MAX_FIELDS + 1 - nodes, 1
  {
    hide ParseType, Eaten, SyntaxNodes;
    if ParseFields(b, pos, nodes, depth, fields).Ok? {
      ParsedIsSound(b, pos, nodes, depth + 1);
      var field := ParseType(b, pos, nodes, depth + 1).value;
      if Eaten(b, field.pos, CLOSE).None? {
        FieldsAreSound(b, Eaten(b, field.pos, COMMA).value, field.nodes, depth, fields + [field.ty]);
      }
    }
  }

  lemma {:induction false} SuffixesAreSound(b: seq<byte>, ty: AbiType, pos: nat, nodes: nat, depth: nat)
    requires pos <= |b| && nodes <= MAX_FIELDS && ty.Valid() && SyntaxNodes(ty) <= nodes
    ensures Sound(ParseSuffixes(b, ty, pos, nodes, depth), nodes - SyntaxNodes(ty))
    decreases MAX_FIELDS + 1 - nodes, 0, 0
  {
    hide Eaten, RunEnd, ParseSuffix, SyntaxNodes;
    if ParseSuffixes(b, ty, pos, nodes, depth).Ok? && Eaten(b, pos, LEFT).Some? {
      var inside := Eaten(b, pos, LEFT).value;
      var next := ParseSuffix(b, ty, inside, nodes, depth).value;
      SuffixIsSound(b, ty, inside, nodes, depth);
      SuffixesAreSound(b, next.ty, next.pos, next.nodes, depth);
    }
  }

  lemma {:induction false} SuffixIsSound(b: seq<byte>, ty: AbiType, pos: nat, nodes: nat, depth: nat)
    requires pos <= |b| && nodes <= MAX_FIELDS && ty.Valid() && SyntaxNodes(ty) <= nodes
    ensures Sound(ParseSuffix(b, ty, pos, nodes, depth), nodes - SyntaxNodes(ty))
  {
    hide Eaten, RunEnd, LengthOf, New, SyntaxNodes;
    if ParseSuffix(b, ty, pos, nodes, depth).Ok? {
      var start := RunEnd(b, pos, Space);
      ArrayIsSound(ty, LengthOf(b[start..RunEnd(b, start, Digit)]).value);
    }
  }

  lemma {:induction false} ArrayIsSound(child: AbiType, n: Option<nat>)
    requires child.Valid() && New(Array(child, n)).Ok?
    ensures New(Array(child, n)).value.Valid() && SyntaxNodes(New(Array(child, n)).value) == SyntaxNodes(child) + 1
  {
  }
}
