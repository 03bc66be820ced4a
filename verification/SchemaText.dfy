/** EIP-712 type expressions (schema.rs): identifiers, primitive names and array suffixes. */
module SchemaText {
  import opened ByteStrings
  import opened AbiTypes
  import opened AbiText
  import opened AbiParser
  import opened SchemaGraph

  const MAX_IDENTIFIER: nat := 128
  const MAX_EXPRESSION: nat := 256
  const MAX_DIMENSIONS: nat := 16

  datatype SchemaError = InvalidSchema | LimitExceeded | UnknownType | Cycle | PrimaryType

  datatype Base = Primitive(kind: Kind) | Struct(name: Name)

  predicate IsLetter(c: byte) {
    0x41 <= c <= 0x5A || 0x61 <= c <= 0x7A || c == 0x5F || c == 0x24
  }

  predicate Identifier(s: seq<byte>) {
    && 1 <= |s| <= MAX_IDENTIFIER
    && forall i :: 0 <= i < |s| ==> IsLetter(s[i]) || (i > 0 && IsDigit(s[i]))
  }

  /** The prefix, then only digits. */
  predicate Numbered(s: seq<byte>, prefix: seq<byte>) {
    StartsWith(s, prefix) && DigitsIn(s[|prefix|..], 10)
  }

  /** Names that never denote a struct, even where they are no primitive type either. */
  predicate Reserved(s: seq<byte>) {
    s == ADDRESS || s == BOOL || s == STRING || Numbered(s, UINT) || Numbered(s, INT) || Numbered(s, BYTES)
  }

  predicate IsStructName(s: seq<byte>) {
    Identifier(s) && !Reserved(s)
  }

  // ---------------------------------------------------------------- printing

  function BaseText(b: Base): seq<byte>
    requires b.Primitive? ==> IsWord(b.kind)
  {
    match b
    case Primitive(kind) => WordText(kind)
    case Struct(name) => name
  }

  function SuffixText(dimensions: seq<Option<nat>>): seq<byte> {
    if dimensions == [] then []
    else [LEFT] + Length(dimensions[0]) + [RIGHT] + SuffixText(dimensions[1..])
  }

  predicate Prints(s: seq<byte>, b: Base, dimensions: seq<Option<nat>>) {
    (b.Primitive? ==> IsWord(b.kind)) && s == BaseText(b) + SuffixText(dimensions)
  }

  predicate GoodBase(b: Base) {
    match b
    case Primitive(kind) => IsWord(kind) && PrimitiveWidth(kind)
    case Struct(name) => IsStructName(name)
  }

  predicate GoodLength(n: Option<nat>) {
    n.Some? ==> n.value <= MAX_VALUE_NODES
  }

  predicate GoodLengths(dimensions: seq<Option<nat>>) {
    forall i :: 0 <= i < |dimensions| ==> GoodLength(dimensions[i])
  }

  // ---------------------------------------------------------------- parsing

  function WidthOf(text: seq<byte>, max: nat, multiple: nat): Result<nat, SchemaError>
    requires multiple > 0
  {
    match Width(text, max, multiple)
    case Ok(n) => Ok(n)
    case Err(_) => Err(InvalidSchema)
  }

  function BaseOf(s: seq<byte>): (r: Result<Base, SchemaError>)
    ensures r.Err? ==> r.error == InvalidSchema
  {
    if s == ADDRESS then Ok(Primitive(Address))
    else if s == BOOL then Ok(Primitive(Bool))
    else if s == STRING then Ok(Primitive(Str))
    else if s == BYTES then Ok(Primitive(DynBytes))
    else if Numbered(s, UINT) then
      var bits :- WidthOf(s[4..], 256, 8);
      Ok(Primitive(Int(false, bits)))
    else if Numbered(s, INT) then
      var bits :- WidthOf(s[3..], 256, 8);
      Ok(Primitive(Int(true, bits)))
    else if Numbered(s, BYTES) then
      var n :- WidthOf(s[5..], 32, 1);
      Ok(Primitive(FixedBytes(n)))
    else if Identifier(s) then Ok(Struct(s))
    else Err(InvalidSchema)
  }

  /** Position of the first `c`, or the length when there is none. */
  function IndexOf(s: seq<byte>, c: byte): (i: nat)
    ensures i <= |s| && (i < |s| ==> s[i] == c)
    ensures forall k :: 0 <= k < i ==> s[k] != c
  {
    if s == [] || s[0] == c then 0 else 1 + IndexOf(s[1..], c)
  }

  function LengthIn(digits: seq<byte>): Result<Option<nat>, SchemaError> {
    if digits == [] then Ok(None)
    else if !DigitsIn(digits, 10) then Err(InvalidSchema)
    else
      var n := ParseDigits(digits, 10);
      if n >= USIZE || n > MAX_VALUE_NODES then Err(LimitExceeded)
      else if digits != Decimal(n) then Err(InvalidSchema)
      else Ok(Some(n))
  }

  /** The suffixes, when `seen` came before them. */
  function Dimensions(rest: seq<byte>, seen: nat): Result<seq<Option<nat>>, SchemaError>
    decreases |rest|
  {
    if rest == [] then Ok([])
    else if seen >= MAX_DIMENSIONS then Err(LimitExceeded)
    else if rest[0] != LEFT then Err(InvalidSchema)
    else
      var inside := rest[1..];
      var end := IndexOf(inside, RIGHT);
      if end == |inside| then Err(InvalidSchema)
      else
        var n :- LengthIn(inside[..end]);
        Onto([n], Dimensions(inside[end + 1..], seen + 1))
  }

  function Expression(s: seq<byte>): Result<(Base, seq<Option<nat>>), SchemaError> {
    if |s| > MAX_EXPRESSION then Err(LimitExceeded)
    else
      var end := IndexOf(s, LEFT);
      var base :- BaseOf(s[..end]);
      var dimensions :- Dimensions(s[end..], 0);
      Ok((base, dimensions))
  }

  // ---------------------------------------------------------------- exactly the printed expressions are accepted

  lemma {:induction false} NumberedText(prefix: seq<byte>, n: nat)
    ensures Numbered(prefix + Decimal(n), prefix) && (prefix + Decimal(n))[|prefix|..] == Decimal(n)
  {
    hide Decimal;
    assert (prefix + Decimal(n))[..|prefix|] == prefix;
    assert (prefix + Decimal(n))[|prefix|..] == Decimal(n);
  }

  lemma {:induction false} NumberedSplits(s: seq<byte>, prefix: seq<byte>)
    requires Numbered(s, prefix)
    ensures s == prefix + s[|prefix|..] && |s| >= |prefix| && (prefix != [] ==> s[0] == prefix[0])
  {
    assert s == s[..|prefix|] + s[|prefix|..];
  }

  /** The three numbered families share no name, nor with the other primitives. */
  lemma {:induction false} FamiliesDiffer(s: seq<byte>)
    ensures Numbered(s, UINT) ==> !Numbered(s, INT) && !Numbered(s, BYTES)
    ensures Numbered(s, INT) ==> !Numbered(s, BYTES)
    ensures s == ADDRESS || s == BOOL || s == STRING ==> !Numbered(s, UINT) && !Numbered(s, INT) && !Numbered(s, BYTES)
  {
    hide DigitsIn;
    if Numbered(s, UINT) {
      NumberedSplits(s, UINT);
    }
    if Numbered(s, INT) {
      NumberedSplits(s, INT);
    }
    if Numbered(s, BYTES) {
      NumberedSplits(s, BYTES);
    }
  }

  lemma {:induction false} WidthMeaning(text: seq<byte>, max: nat, multiple: nat)
    requires multiple > 0 && Width(text, max, multiple).Ok?
    ensures var n := Width(text, max, multiple).value; 0 < n <= max && n % multiple == 0 && text == Decimal(n)
  {
  }

  lemma {:induction false} ParsedBase(s: seq<byte>)
    requires BaseOf(s).Ok?
    ensures GoodBase(BaseOf(s).value) && BaseText(BaseOf(s).value) == s
  {
    hide Decimal, Numbered, Identifier, Width;
    if Numbered(s, UINT) {
      NumberedSplits(s, UINT);
      WidthMeaning(s[4..], 256, 8);
    } else if Numbered(s, INT) {
      NumberedSplits(s, INT);
      WidthMeaning(s[3..], 256, 8);
    } else if Numbered(s, BYTES) && s != BYTES {
      NumberedSplits(s, BYTES);
      WidthMeaning(s[5..], 32, 1);
    }
  }

  lemma {:induction false} PrintedBase(b: Base)
    requires GoodBase(b)
    ensures BaseOf(BaseText(b)) == Ok(b)
  {
    hide Decimal, Numbered, Identifier, Width;
    FamiliesDiffer(BaseText(b));
    match b
    case Primitive(Int(signed, bits)) =>
      NumberedText(if signed then INT else UINT, bits);
      WidthOfDecimal(bits, 256, 8);
    case Primitive(FixedBytes(n)) =>
      NumberedText(BYTES, n);
      WidthOfDecimal(n, 32, 1);
    case Struct(name) => assert !Reserved(name) && name != BYTES by { BytesIsReserved(); }
    case _ =>
  }

  lemma {:induction false} BytesIsReserved()
    ensures Reserved(BYTES)
  {
    assert BYTES[..5] == BYTES && BYTES[5..] == [];
  }

  /** A base contains no bracket, so the first bracket of an expression ends it. */
  lemma {:induction false} NoBracketInBase(b: Base)
    requires GoodBase(b)
    ensures forall i :: 0 <= i < |BaseText(b)| ==> BaseText(b)[i] != LEFT
  {
    hide Decimal;
  }

  lemma {:induction false} IndexAfter(front: seq<byte>, back: seq<byte>, c: byte)
    requires (forall i :: 0 <= i < |front| ==> front[i] != c) && (back == [] || back[0] == c)
    ensures IndexOf(front + back, c) == |front|
  {
    if front == [] {
      assert front + back == back;
    } else {
      assert (front + back)[1..] == front[1..] + back;
      IndexAfter(front[1..], back, c);
    }
  }

  lemma {:induction false} LengthExact(digits: seq<byte>, n: Option<nat>)
    ensures LengthIn(digits) == Ok(n) <==> GoodLength(n) && digits == Length(n)
  {
    hide Decimal, ParseDigits;
    if n.Some? {
      ParseDecimal(n.value);
    }
  }

  lemma {:induction false} NoBracketInLength(n: Option<nat>)
    ensures forall i :: 0 <= i < |Length(n)| ==> Length(n)[i] != RIGHT
  {
    hide Decimal;
  }

  lemma {:induction false} FirstDimension(rest: seq<byte>, seen: nat)
    requires rest != [] && Dimensions(rest, seen).Ok?
    ensures rest[0] == LEFT && seen < MAX_DIMENSIONS
    ensures var inside := rest[1..]; var end := IndexOf(inside, RIGHT);
            && end < |inside| && LengthIn(inside[..end]).Ok? && Dimensions(inside[end + 1..], seen + 1).Ok?
            && Dimensions(rest, seen).value
               == [LengthIn(inside[..end]).value] + Dimensions(inside[end + 1..], seen + 1).value
            && rest == [LEFT] + inside[..end] + [RIGHT] + inside[end + 1..]
  {
    hide LengthIn, IndexOf;
  }

  lemma {:induction false} SuffixNext(n: Option<nat>, ds: seq<Option<nat>>)
    ensures SuffixText([n] + ds) == [LEFT] + Length(n) + [RIGHT] + SuffixText(ds)
    ensures GoodLength(n) && GoodLengths(ds) ==> GoodLengths([n] + ds)
  {
    hide Length, GoodLength;
    assert ([n] + ds)[1..] == ds;
  }

  lemma {:induction false} ParsedDimensions(rest: seq<byte>, seen: nat)
    requires Dimensions(rest, seen).Ok? && seen <= MAX_DIMENSIONS
    ensures var ds := Dimensions(rest, seen).value;
            GoodLengths(ds) && seen + |ds| <= MAX_DIMENSIONS && SuffixText(ds) == rest
    decreases |rest|
  {
    if rest == [] {
    } else {
      hide *;
      FirstDimension(rest, seen);
      var inside := rest[1..];
      var end := IndexOf(inside, RIGHT);
      var n, more := LengthIn(inside[..end]).value, Dimensions(inside[end + 1..], seen + 1).value;
      LengthExact(inside[..end], n);
      ParsedDimensions(inside[end + 1..], seen + 1);
      SuffixNext(n, more);
    }
  }

  lemma {:induction false} PrintedDimensions(ds: seq<Option<nat>>, seen: nat)
    requires GoodLengths(ds) && seen + |ds| <= MAX_DIMENSIONS
    ensures Dimensions(SuffixText(ds), seen) == Ok(ds)
    decreases |ds|
  {
    hide LengthIn, Length, GoodLength;
    if ds == [] {
    } else {
      var digits, back := Length(ds[0]), SuffixText(ds[1..]);
      var rest := SuffixText(ds);
      assert rest[1..] == digits + ([RIGHT] + back);
      NoBracketInLength(ds[0]);
      IndexAfter(digits, [RIGHT] + back, RIGHT);
      LengthExact(digits, ds[0]);
      PrintedDimensions(ds[1..], seen + 1);
      assert rest[1..][..|digits|] == digits && rest[1..][|digits| + 1..] == back;
      assert [ds[0]] + ds[1..] == ds;
    }
  }

  /** The accepted expressions are exactly the printed ones: no two texts denote the same type. */
  lemma {:induction false} ExpressionExact(s: seq<byte>, base: Base, dimensions: seq<Option<nat>>)
    ensures Expression(s) == Ok((base, dimensions))
            <==> (&& |s| <= MAX_EXPRESSION && GoodBase(base) && GoodLengths(dimensions)
                  && |dimensions| <= MAX_DIMENSIONS && Prints(s, base, dimensions))
  {
    hide BaseOf, IsStructName, PrimitiveWidth, WordText, Dimensions, SuffixText, GoodLengths, IndexOf;
    if Expression(s) == Ok((base, dimensions)) {
      var end := IndexOf(s, LEFT);
      ParsedBase(s[..end]);
      ParsedDimensions(s[end..], 0);
      assert s == s[..end] + s[end..];
    }
    if GoodBase(base) && GoodLengths(dimensions) && |dimensions| <= MAX_DIMENSIONS
      && Prints(s, base, dimensions) && |s| <= MAX_EXPRESSION {
      var front, back := BaseText(base), SuffixText(dimensions);
      NoBracketInBase(base);
      SuffixBegins(dimensions);
      IndexAfter(front, back, LEFT);
      PrintedBase(base);
      PrintedDimensions(dimensions, 0);
      assert s[..|front|] == front && s[|front|..] == back;
    }
  }

  lemma {:induction false} SuffixBegins(dimensions: seq<Option<nat>>)
    ensures SuffixText(dimensions) == [] || SuffixText(dimensions)[0] == LEFT
  {
  }

  // ---------------------------------------------------------------- the loop over suffixes

  method NextDimension(rest: seq<byte>, seen: nat) returns (r: Result<(Option<nat>, seq<byte>), SchemaError>)
    requires rest != []
    ensures r.Err? ==> Dimensions(rest, seen) == Err(r.error)
    ensures r.Ok? ==> |r.value.1| < |rest|
    ensures r.Ok? ==> Dimensions(rest, seen) == Onto([r.value.0], Dimensions(r.value.1, seen + 1))
  {
    hide LengthIn, IndexOf;
    if seen >= MAX_DIMENSIONS {
      return Err(LimitExceeded);
    }
    if rest[0] != LEFT {
      return Err(InvalidSchema);
    }
    var inside := rest[1..];
    var end := IndexOf(inside, RIGHT);
    if end == |inside| {
      return Err(InvalidSchema);
    }
    var length :- LengthIn(inside[..end]);
    return Ok((length, inside[end + 1..]));
  }

  method ParseExpression(s: seq<byte>) returns (r: Result<(Base, seq<Option<nat>>), SchemaError>)
    ensures r == Expression(s)
  {
    hide BaseOf, Dimensions, IndexOf;
    if |s| > MAX_EXPRESSION {
      return Err(LimitExceeded);
    }
    var end := IndexOf(s, LEFT);
    var base :- BaseOf(s[..end]);
    var rest, dimensions: seq<Option<nat>> := s[end..], [];
    OntoNothing(Dimensions(rest, 0));
    while rest != []
      invariant Dimensions(s[end..], 0) == Onto(dimensions, Dimensions(rest, |dimensions|))
      decreases |rest|
    {
      var next :- NextDimension(rest, |dimensions|);
      OntoLaws(dimensions, next.0, Dimensions(next.1, |dimensions| + 1));
      dimensions, rest := dimensions + [next.0], next.1;
    }
    NoDimensions(|dimensions|);
    assert dimensions + [] == dimensions;
    return Ok((base, dimensions));
  }

  lemma {:induction false} NoDimensions(seen: nat)
    ensures Dimensions([], seen) == Ok([])
  {
  }
}
