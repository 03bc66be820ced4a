/** What a type text says, read without its grammar: blanks and `tuple` keywords dropped and the integer
    aliases written out. For accepted texts this is the canonical name (abi_type.rs). */
module AbiSpelling {
  import opened ByteStrings
  import opened AbiTypes
  import opened AbiText
  import opened AbiParser

  const INT256: seq<byte> := INT + [0x32, 0x35, 0x36]
  const UINT256: seq<byte> := UINT + [0x32, 0x35, 0x36]

  predicate IsAlias(word: seq<byte>) {
    word == INT || word == UINT
  }

  function SpelledWord(word: seq<byte>): seq<byte> {
    if word == TUPLE then [] else if word == INT then INT256 else if word == UINT then UINT256 else word
  }

  /** The text from `pos` on, word by word. */
  function Spelled(b: seq<byte>, pos: nat): seq<byte>
    requires pos <= |b|
    decreases |b| - pos
  {
    if pos == |b| then []
    else if InClass(b[pos], Space) then Spelled(b, pos + 1)
    else if InClass(b[pos], Alphanumeric) then
      var end := RunEnd(b, pos + 1, Alphanumeric);
      SpelledWord(b[pos..end]) + Spelled(b, end)
    else [b[pos]] + Spelled(b, pos + 1)
  }

  /** How many words from `pos` on are integer aliases. */
  function Aliases(b: seq<byte>, pos: nat): nat
    requires pos <= |b|
    decreases |b| - pos
  {
    if pos == |b| then 0
    else if InClass(b[pos], Alphanumeric) then
      var end := RunEnd(b, pos + 1, Alphanumeric);
      (if IsAlias(b[pos..end]) then 1 else 0) + Aliases(b, end)
    else Aliases(b, pos + 1)
  }

  /** Only aliases make the spelling longer, by three bytes each, and so never more than twice as long. */
  lemma {:induction false} SpelledLength(b: seq<byte>, pos: nat)
    requires pos <= |b|
    ensures |Spelled(b, pos)| <= |b| - pos + 3 * Aliases(b, pos)
    ensures |Spelled(b, pos)| <= 2 * (|b| - pos)
    decreases |b| - pos
  {
    if pos == |b| {
    } else if InClass(b[pos], Alphanumeric) {
      SpelledLength(b, RunEnd(b, pos + 1, Alphanumeric));
    } else {
      SpelledLength(b, pos + 1);
    }
  }

  // ---------------------------------------------------------------- scanning steps

  lemma {:induction false} SkipBlanks(b: seq<byte>, pos: nat)
    requires pos <= |b|
    ensures Spelled(b, pos) == Spelled(b, RunEnd(b, pos, Space))
    decreases |b| - pos
  {
    if pos == |b| || !InClass(b[pos], Space) {
    } else {
      SkipBlanks(b, pos + 1);
    }
  }

  /** A punctuation mark the parser eats is spelled as it is. */
  lemma {:induction false} EatenIsSpelled(b: seq<byte>, pos: nat, c: byte)
    requires pos <= |b| && Eaten(b, pos, c).Some? && !InClass(c, Space) && !InClass(c, Alphanumeric)
    ensures Spelled(b, pos) == [c] + Spelled(b, Eaten(b, pos, c).value)
  {
    hide RunEnd, Spelled;
    SkipBlanks(b, pos);
    MarkIsSpelled(b, RunEnd(b, pos, Space));
  }

  lemma {:induction false} MarkIsSpelled(b: seq<byte>, pos: nat)
    requires pos < |b| && !InClass(b[pos], Space) && !InClass(b[pos], Alphanumeric)
    ensures Spelled(b, pos) == [b[pos]] + Spelled(b, pos + 1)
  {
    hide RunEnd;
  }

  lemma {:induction false} WordIsSpelled(b: seq<byte>, pos: nat)
    requires pos <= |b|
    ensures var end := RunEnd(b, pos, Alphanumeric); Spelled(b, pos) == SpelledWord(b[pos..end]) + Spelled(b, end)
  {
  }

  /** The optional `tuple` keyword is not part of the name. */
  lemma {:induction false} StartIsSpelled(b: seq<byte>, pos: nat)
    requires pos <= |b| && Start(b, pos).Ok?
    ensures Spelled(b, pos) == Spelled(b, Start(b, pos).value)
  {
    hide Spelled;
    SkipBlanks(b, pos);
    var p := RunEnd(b, pos, Space);
    if p + 5 <= |b| && b[p..p + 5] == TUPLE {
      assert At(b, p, TUPLE);
      SkipBlanks(b, p + 5);
      RunOver(b, p, TUPLE, Alphanumeric);
      WordIsSpelled(b, p);
    }
  }

  /** The digits between brackets are a whole word. */
  lemma {:induction false} DigitsAreSpelled(b: seq<byte>, pos: nat)
    requires pos <= |b| && Eaten(b, RunEnd(b, pos, Digit), RIGHT).Some?
    ensures var end := RunEnd(b, pos, Digit); Spelled(b, pos) == b[pos..end] + Spelled(b, end)
  {
    hide Spelled;
    var end := RunEnd(b, pos, Digit);
    var digits := b[pos..end];
    RunOver(b, pos, digits, Alphanumeric);
    WordIsSpelled(b, pos);
    assert digits != [] ==> IsDigit(digits[0]);
  }

  // ---------------------------------------------------------------- names of what was parsed

  lemma {:induction false} Decimal256()
    ensures Decimal(256) == [0x32, 0x35, 0x36]
  {
    assert Decimal(2) == [0x32];
    assert Decimal(25) == Decimal(2) + [0x35];
    assert Decimal(256) == Decimal(25) + [0x36];
  }

  lemma {:induction false} WordName(name: seq<byte>)
    requires KindOf(name).Ok? && New(KindOf(name).value).Ok?
    ensures TypeName(New(KindOf(name).value).value) == SpelledWord(name)
  {
    hide Decimal, ParseDigits;
    Decimal256();
    assert |name| >= 4 ==> name == name[..4] + name[4..];
    assert |name| >= 3 ==> name == name[..3] + name[3..];
    assert |name| >= 5 ==> name == name[..5] + name[5..];
  }

  lemma {:induction false} TupleIsNamed(fields: seq<AbiType>)
    requires New(Tuple(fields)).Ok?
    ensures TypeName(New(Tuple(fields)).value) == [OPEN] + FieldNames(fields, 0)
  {
  }

  lemma {:induction false} ArrayIsNamed(child: AbiType, n: Option<nat>)
    requires New(Array(child, n)).Ok?
    ensures TypeName(New(Array(child, n)).value) == TypeName(child) + ([LEFT] + Length(n) + [RIGHT])
  {
  }

  /** A parsed stretch of text spells `before` and then the name of what was parsed. */
  predicate Named(b: seq<byte>, pos: nat, before: seq<byte>, r: Result<Parsed, AbiError>)
    requires pos <= |b|
  {
    r.Ok? ==> r.value.pos <= |b| && before + Spelled(b, pos) == TypeName(r.value.ty) + Spelled(b, r.value.pos)
  }

  lemma {:induction false} TypeIsSpelled(b: seq<byte>, pos: nat, nodes: nat, depth: nat)
    requires pos <= |b|
    ensures Named(b, pos, [], ParseType(b, pos, nodes, depth))
    decreases MAX_FIELDS + 1 - nodes, 0, 1
  {
    hide ParseBase, ParseSuffixes, Start, Spelled, TypeName;
    if ParseType(b, pos, nodes, depth).Ok? {
      var start := Start(b, pos).value;
      var base := ParseBase(b, start, nodes + 1, depth).value;
      StartIsSpelled(b, pos);
      BaseIsSpelled(b, start, nodes + 1, depth);
      SuffixesAreSpelled(b, base.ty, base.pos, base.nodes, depth);
    }
  }

  lemma {:induction false} BaseIsSpelled(b: seq<byte>, pos: nat, nodes: nat, depth: nat)
    requires pos <= |b| && nodes <= MAX_FIELDS
    ensures Named(b, pos, [], ParseBase(b, pos, nodes, depth))
    decreases MAX_FIELDS + 1 - nodes, 3
  {
    hide Inside, KindOf, New, Spelled, TypeName, RunEnd, Eaten;
    if ParseBase(b, pos, nodes, depth).Ok? {
      match Eaten(b, pos, OPEN)
      case Some(inside) =>
        EatenIsSpelled(b, pos, OPEN);
        InsideIsSpelled(b, inside, nodes, depth);
      case None =>
        var start := RunEnd(b, pos, Space);
        SkipBlanks(b, pos);
        WordIsSpelled(b, start);
        WordName(b[start..RunEnd(b, start, Alphanumeric)]);
    }
  }

  lemma {:induction false} InsideIsSpelled(b: seq<byte>, pos: nat, nodes: nat, depth: nat)
    requires pos <= |b| && nodes <= MAX_FIELDS
    ensures Named(b, pos, [OPEN], Inside(b, pos, nodes, depth))
    decreases MAX_FIELDS + 1 - nodes, 2
  {
    hide ParseFields, Eaten, New, Spelled, TypeName;
    if Inside(b, pos, nodes, depth).Ok? {
      if Eaten(b, pos, CLOSE).Some? {
        EatenIsSpelled(b, pos, CLOSE);
        TupleIsNamed([]);
      } else {
        var list := ParseFields(b, pos, nodes, depth, []).value;
        FieldsAreSpelled(b, pos, nodes, depth, []);
        TupleIsNamed(list.fields);
        assert Separator(0) + Spelled(b, pos) == Spelled(b, pos);
      }
    }
  }

  lemma {:induction false} FieldJoins(fields: seq<AbiType>, k: nat, rest: seq<byte>, tail: seq<byte>)
    requires k < |fields| && rest == FieldNames(fields, k + 1) + tail
    ensures Separator(k) + (TypeName(fields[k]) + rest) == FieldNames(fields, k) + tail
  {
    hide TypeName, FieldNames, Separator;
    FieldNamesNext(fields, k);
  }

  lemma {:induction false} FieldsAreSpelled(b: seq<byte>, pos: nat, nodes: nat, depth: nat, fields: seq<AbiType>)
    requires pos <= |b| && nodes <= MAX_FIELDS
    ensures var r := ParseFields(b, pos, nodes, depth, fields);
            r.Ok? ==> && fields <= r.value.fields
                      && Separator(|fields|) + Spelled(b, pos)
                         == FieldNames(r.value.fields, |fields|) + Spelled(b, r.value.pos)
    decreases MAX_FIELDS + 1 - nodes, 1
  {
    hide ParseType, Eaten, Spelled, TypeName, FieldNames;
    var r := ParseFields(b, pos, nodes, depth, fields);
    if r.Ok? {
      TypeIsSpelled(b, pos, nodes, depth + 1);
      var field := ParseType(b, pos, nodes, depth + 1).value;
      var so := fields + [field.ty];
      if Eaten(b, field.pos, CLOSE).Some? {
        EatenIsSpelled(b, field.pos, CLOSE);
        FieldNamesNext(so, |so|);
      } else {
        var next := Eaten(b, field.pos, COMMA).value;
        EatenIsSpelled(b, field.pos, COMMA);
        FieldsAreSpelled(b, next, field.nodes, depth, so);
      }
      assert r.value.fields[|fields|] == so[|fields|] == field.ty;
      assert [] + Spelled(b, pos) == Spelled(b, pos);
      FieldJoins(r.value.fields, |fields|, Spelled(b, field.pos), Spelled(b, r.value.pos));
    }
  }

  lemma {:induction false} SuffixesAreSpelled(b: seq<byte>, ty: AbiType, pos: nat, nodes: nat, depth: nat)
    requires pos <= |b| && nodes <= MAX_FIELDS
    ensures Named(b, pos, TypeName(ty), ParseSuffixes(b, ty, pos, nodes, depth))
    decreases MAX_FIELDS + 1 - nodes, 0, 0
  {
    hide Eaten, RunEnd, ParseSuffix, Spelled, TypeName;
    if ParseSuffixes(b, ty, pos, nodes, depth).Ok? {
      match Eaten(b, pos, LEFT)
      case None => SkipBlanks(b, pos);
      case Some(inside) =>
        var next := ParseSuffix(b, ty, inside, nodes, depth).value;
        EatenIsSpelled(b, pos, LEFT);
        SuffixIsSpelled(b, ty, inside, nodes, depth);
        SuffixesAreSpelled(b, next.ty, next.pos, next.nodes, depth);
    }
  }

  lemma {:induction false} LengthIsSpelled(digits: seq<byte>)
    requires DigitsIn(digits, 10) && LengthOf(digits).Ok?
    ensures Length(LengthOf(digits).value) == digits
  {
  }

  lemma {:induction false} SuffixIsSpelled(b: seq<byte>, ty: AbiType, pos: nat, nodes: nat, depth: nat)
    requires pos <= |b| && nodes <= MAX_FIELDS
    ensures Named(b, pos, TypeName(ty) + [LEFT], ParseSuffix(b, ty, pos, nodes, depth))
  {
    hide Eaten, RunEnd, LengthOf, Length, New, Spelled, TypeName;
    if ParseSuffix(b, ty, pos, nodes, depth).Ok? {
      var start := RunEnd(b, pos, Space);
      var end := RunEnd(b, start, Digit);
      var n := LengthOf(b[start..end]).value;
      SkipBlanks(b, pos);
      DigitsAreSpelled(b, start);
      EatenIsSpelled(b, end, RIGHT);
      LengthIsSpelled(b[start..end]);
      ArrayIsNamed(ty, n);
    }
  }

  // ---------------------------------------------------------------- whole texts

  /** The canonical name of an accepted text is the text without blanks and `tuple` keywords and with its
      aliases written out. */
  lemma {:induction false} NameIsSpelling(text: seq<byte>)
    requires Parse(text).Ok?
    ensures TypeName(Parse(text).value) == Spelled(text, 0)
  {
    hide ParseType, TypeName, Spelled, RunEnd;
    TypeIsSpelled(text, 0, 0, 0);
    var parsed := ParseType(text, 0, 0, 0).value;
    SkipBlanks(text, parsed.pos);
    EndIsBlank(text);
    assert [] + Spelled(text, 0) == Spelled(text, 0) && TypeName(parsed.ty) + [] == TypeName(parsed.ty);
  }

  lemma {:induction false} EndIsBlank(b: seq<byte>)
    ensures Spelled(b, |b|) == []
  {
  }

  /** An accepted text parses to a type whose canonical name parses to the same type exactly when the
      spelling of the text fits the parser. Without aliases, or within half the parser's limit, it always does. */
  lemma {:induction false} ReparseExactly(text: seq<byte>)
    requires Parse(text).Ok?
    ensures var ty := Parse(text).value;
            && ty.Valid()
            && Parse(TypeName(ty)) == (if |Spelled(text, 0)| <= MAX_TEXT then Ok(ty) else Err(Limit))
    ensures |text| + 3 * Aliases(text, 0) <= MAX_TEXT || 2 * |text| <= MAX_TEXT ==> |Spelled(text, 0)| <= MAX_TEXT
  {
    hide ParseType, TypeName, RunEnd, Spelled, Aliases;
    ParsedIsSound(text, 0, 0, 0);
    ParseOfName(Parse(text).value);
    NameIsSpelling(text);
    SpelledLength(text, 0);
  }

  /** Two accepted texts mean the same type exactly when they are spelled the same. */
  lemma {:induction false} SameTypeExactly(a: seq<byte>, b: seq<byte>)
    requires Parse(a).Ok? && Parse(b).Ok?
    ensures Parse(a) == Parse(b) <==> Spelled(a, 0) == Spelled(b, 0)
  {
    hide ParseType, TypeName, RunEnd, Spelled;
    NameIsSpelling(a);
    NameIsSpelling(b);
    ParsedIsSound(a, 0, 0, 0);
    ParsedIsSound(b, 0, 0, 0);
    NameIdentifies(Parse(a).value);
    NameIdentifies(Parse(b).value);
  }

  /** A printed name of any length says which type it is. */
  lemma {:induction false} NameIdentifies(ty: AbiType)
    requires ty.Valid() && SyntaxNodes(ty) <= MAX_FIELDS
    ensures ParseType(TypeName(ty), 0, 0, 0) == Ok(Parsed(ty, |TypeName(ty)|, SyntaxNodes(ty)))
  {
    hide ParseType, ParseSuffixes, TypeName;
    var b := TypeName(ty);
    assert b[0..|b|] == b;
    NameParses(b, 0, 0, 0, ty);
    SuffixesStop(b, ty, |b|, SyntaxNodes(ty), 0);
  }

  // ---------------------------------------------------------------- why the length condition is needed

  const WIDE: AbiType := AbiType(Int(false, 256), false, 32, 1, 0)

  /** `uint,uint,...,uint)`, with `n` fields. */
  function AliasList(n: nat): (text: seq<byte>)
    ensures |text| == 5 * n + (if n == 0 then 1 else 0)
  {
    if n == 0 then [CLOSE] else UINT + (if n == 1 then [CLOSE] else [COMMA] + AliasList(n - 1))
  }

  /** `(uint,uint,...,uint)`. */
  function AliasTuple(n: nat): (text: seq<byte>) {
    [OPEN] + AliasList(n)
  }

  function Wides(n: nat): (fields: seq<AbiType>)
    ensures |fields| == n && forall i :: 0 <= i < n ==> fields[i] == WIDE
  {
    seq(n, _ => WIDE)
  }

  lemma {:induction false} AliasParses(b: seq<byte>, pos: nat, nodes: nat, depth: nat)
    requires At(b, pos, UINT) && pos + 4 < |b| && (b[pos + 4] == COMMA || b[pos + 4] == CLOSE)
    requires nodes + 1 <= MAX_FIELDS && depth <= MAX_DEPTH
    ensures ParseType(b, pos, nodes, depth) == Ok(Parsed(WIDE, pos + 4, nodes + 1))
  {
    hide RunEnd, ParseSuffixes;
    AtFirst(b, pos, UINT);
    NoTupleHere(b, pos);
    NoSpaceHere(b, pos);
    RunOver(b, pos, UINT, Alphanumeric);
    SuffixesStop(b, WIDE, pos + 4, nodes + 1, depth);
  }

  lemma {:induction false} AliasesParse(b: seq<byte>, pos: nat, nodes: nat, n: nat, fields: seq<AbiType>)
    requires 0 < n && At(b, pos, AliasList(n)) && nodes + n <= MAX_FIELDS
    ensures ParseFields(b, pos, nodes, 0, fields) == Ok(ParsedFields(fields + Wides(n), pos + 5 * n, nodes + n))
    decreases n
  {
    hide ParseType, Eaten, At;
    var rest := if n == 1 then [CLOSE] else [COMMA] + AliasList(n - 1);
    AtConcat(b, pos, UINT, rest);
    AtFirst(b, pos + 4, rest);
    AliasParses(b, pos, nodes, 1);
    EatenAt(b, pos + 4, CLOSE);
    EatenAt(b, pos + 4, COMMA);
    if n == 1 {
      assert Wides(1) == [WIDE];
    } else {
      NextByte(b, pos + 4, COMMA, AliasList(n - 1));
      AliasesParse(b, pos + 5, nodes + 1, n - 1, fields + [WIDE]);
      assert fields + [WIDE] + Wides(n - 1) == fields + Wides(n);
    }
  }

  lemma {:induction false} WidesBuild(n: nat, k: nat)
    requires k <= n
    ensures Fields(Wides(n)).HeadUpTo(k) == 32 * k && Fields(Wides(n)).NodesUpTo(k) == k
    ensures MaxDepth(Wides(k)) <= 1
  {
    if k == 0 {
    } else {
      WidesBuild(n, k - 1);
      assert Wides(k)[..k - 1] == Wides(k - 1);
    }
  }

  lemma {:induction false} WidesFit(n: nat)
    requires n <= MAX_FIELDS
    ensures New(Tuple(Wides(n))).Ok?
  {
    WidesBuild(n, n);
  }

  lemma {:induction false} WidesName(n: nat, k: nat)
    requires k <= n
    ensures |FieldNames(Wides(n), k)| == 8 * (n - k) + (if k == 0 < n then 0 else 1)
    decreases n - k
  {
    if k == n {
    } else {
      WidesName(n, k + 1);
      Decimal256();
      assert TypeName(WIDE) == UINT256;
    }
  }

  lemma {:induction false} AliasTupleInside(n: nat)
    requires 0 < n < MAX_FIELDS
    ensures New(Tuple(Wides(n))).Ok?
    ensures Inside(AliasTuple(n), 1, 1, 0) == Ok(Parsed(New(Tuple(Wides(n))).value, 5 * n + 1, 1 + n))
  {
    hide ParseFields, Eaten, New;
    var text, fields := AliasTuple(n), Wides(n);
    WidesFit(n);
    assert At(text, 0, [OPEN] + AliasList(n));
    NextByte(text, 0, OPEN, AliasList(n));
    AliasesParse(text, 1, 1, n, []);
    assert [] + fields == fields;
    assert text[1] == 0x75;
    EatenAt(text, 1, CLOSE);
  }

  lemma {:induction false} AliasTupleParses(n: nat)
    requires 0 < n && 5 * n + 1 <= MAX_TEXT
    ensures New(Tuple(Wides(n))).Ok? && Parse(AliasTuple(n)) == New(Tuple(Wides(n)))
  {
    hide ParseType, ParseSuffixes, RunEnd, New, Inside;
    var text := AliasTuple(n);
    AliasTupleInside(n);
    TupleOpens(text, 0, 0, 0);
    SuffixesStop(text, New(Tuple(Wides(n))).value, |text|, 1 + n, 0);
    NoSpaceHere(text, |text|);
  }

  /** A tuple of `uint` is accepted, and from 512 fields on its canonical name is refused. */
  lemma {:induction false} AcceptedNameIsRefused(n: nat)
    requires 0 < n && 5 * n + 1 <= MAX_TEXT
    ensures var text := AliasTuple(n);
            && |text| == 5 * n + 1 && Parse(text).Ok?
            && |TypeName(Parse(text).value)| == 8 * n + 1
            && Parse(TypeName(Parse(text).value)) == if n < 512 then Parse(text) else Err(Limit)
  {
    hide Parse, TypeName, Spelled, New, MaxDepth;
    AliasTupleParses(n);
    TupleIsNamed(Wides(n));
    WidesName(n, 0);
    ReparseExactly(AliasTuple(n));
    NameIsSpelling(AliasTuple(n));
  }
}
