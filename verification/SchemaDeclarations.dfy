/** Declared struct types (schema.rs): which declarations are accepted, what they depend on, and the
    type strings they stand for. */
module SchemaDeclarations {
  import opened ByteStrings
  import AbiTypes
  import opened AbiParser
  import opened SchemaGraph
  import opened SchemaOrder
  import opened SchemaText

  const MAX_TYPES: nat := 128
  const MAX_SCHEMA_BYTES: nat := 65536
  const BLANK: byte := 0x20

  datatype Field = Field(name: seq<byte>, typeName: seq<byte>)
  type Types = map<Name, seq<Field>>

  // ---------------------------------------------------------------- dependencies

  /** The struct type a field refers to, if any. */
  function ChildOf(f: Field): Option<Name> {
    match Expression(f.typeName)
    case Ok((Struct(name), _)) => Some(name)
    case _ => None
  }

  function Children(fields: seq<Field>): set<Name> {
    set f | f in fields && ChildOf(f).Some? :: ChildOf(f).value
  }

  function Dependencies(types: Types): Graph {
    map n | n in types :: Children(types[n])
  }

  // ---------------------------------------------------------------- what is accepted

  /** Fields have different names, each an identifier, and expressions that refer only to declared types. */
  predicate GoodFields(types: Types, fields: seq<Field>) {
    && (forall i :: 0 <= i < |fields| ==> Identifier(fields[i].name) && Expression(fields[i].typeName).Ok?)
    && (forall i, j :: 0 <= i < j < |fields| ==> fields[i].name != fields[j].name)
    && Children(fields) <= types.Keys
  }

  function FieldBytes(fields: seq<Field>): nat {
    if fields == [] then 0
    else
      var last := |fields| - 1;
      FieldBytes(fields[..last]) + |fields[last].name| + |fields[last].typeName|
  }

  function CountUpTo(types: Types, q: seq<Name>, n: nat): nat
    requires n <= |q| && forall x :: x in q ==> x in types
  {
    if n == 0 then 0 else CountUpTo(types, q, n - 1) + |types[q[n - 1]]|
  }

  function BytesUpTo(types: Types, q: seq<Name>, n: nat): nat
    requires n <= |q| && forall x :: x in q ==> x in types
  {
    if n == 0 then 0 else BytesUpTo(types, q, n - 1) + |q[n - 1]| + FieldBytes(types[q[n - 1]])
  }

  predicate WithinSize(types: Types, q: seq<Name>, n: nat)
    requires n <= |q| && forall x :: x in q ==> x in types
  {
    CountUpTo(types, q, n) <= AbiTypes.MAX_FIELDS && BytesUpTo(types, q, n) <= MAX_SCHEMA_BYTES
  }

  /** The names of a schema, in ascending order. */
  ghost predicate Names(types: Types, q: seq<Name>) {
    Lists(q, types.Keys) && forall x :: x in q ==> x in types
  }

  ghost predicate WellDeclared(types: Types) {
    && (forall n :: n in types ==> IsStructName(n) && GoodFields(types, types[n]))
    && (forall q :: Names(types, q) ==> WithinSize(types, q, |q|))
  }

  lemma {:induction false} DeclaredIsClosed(types: Types)
    requires WellDeclared(types)
    ensures Closed(Dependencies(types)) && Dependencies(types).Keys == types.Keys
  {
    hide IsStructName, Children;
  }

  // ---------------------------------------------------------------- which error is reported

  function NameFault(types: Types, q: seq<Name>, k: nat): Option<SchemaError>
    requires k < |q| && forall x :: x in q ==> x in types
  {
    if !WithinSize(types, q, k + 1) then Some(LimitExceeded)
    else if !IsStructName(q[k]) then Some(InvalidSchema)
    else None
  }

  function FieldFault(types: Types, fields: seq<Field>, i: nat): Option<SchemaError>
    requires i < |fields|
  {
    if !Identifier(fields[i].name) || exists j :: 0 <= j < i && fields[j].name == fields[i].name
      then Some(InvalidSchema)
    else if Expression(fields[i].typeName).Err? then Some(Expression(fields[i].typeName).error)
    else if ChildOf(fields[i]).Some? && ChildOf(fields[i]).value !in types then Some(UnknownType)
    else None
  }

  function NameFaults(types: Types, q: seq<Name>): seq<Option<SchemaError>>
    requires forall x :: x in q ==> x in types
  {
    seq(|q|, k requires 0 <= k < |q| => NameFault(types, q, k))
  }

  function FieldFaults(types: Types, fields: seq<Field>): seq<Option<SchemaError>> {
    seq(|fields|, i requires 0 <= i < |fields| => FieldFault(types, fields, i))
  }

  /** Of each type, the first fault among its fields. */
  function TypeFaults(types: Types, q: seq<Name>): seq<Option<SchemaError>>
    requires forall x :: x in q ==> x in types
  {
    seq(|q|, k requires 0 <= k < |q| => (assert q[k] in q; FirstFault(FieldFaults(types, types[q[k]]))))
  }

  /** The first fault: of names and sizes, else of fields, in ascending order of the types. */
  function DeclarationFault(types: Types, q: seq<Name>): Option<SchemaError>
    requires forall x :: x in q ==> x in types
  {
    var fault := FirstFault(NameFaults(types, q));
    if fault.Some? then fault else FirstFault(TypeFaults(types, q))
  }

  lemma {:induction false} SizesGrow(types: Types, q: seq<Name>, m: nat, n: nat)
    requires m <= n <= |q| && (forall x :: x in q ==> x in types) && WithinSize(types, q, n)
    ensures WithinSize(types, q, m)
    decreases n
  {
    if m == n {
    } else {
      SizesGrow(types, q, m, n - 1);
    }
  }

  lemma {:induction false} FieldsFaultless(types: Types, fields: seq<Field>)
    ensures FirstFault(FieldFaults(types, fields)).None? <==> GoodFields(types, fields)
  {
    hide Identifier, Expression, FirstFault, ChildOf;
    var faults := FieldFaults(types, fields);
    NoFault(faults);
    if forall k :: 0 <= k < |faults| ==> faults[k].None? {
      forall i | 0 <= i < |fields|
        ensures Identifier(fields[i].name) && Expression(fields[i].typeName).Ok?
                && (ChildOf(fields[i]).Some? ==> ChildOf(fields[i]).value in types)
      {
        assert faults[i].None?;
      }
      forall i, j | 0 <= i < j < |fields| ensures fields[i].name != fields[j].name {
        assert faults[j].None?;
      }
    }
    if GoodFields(types, fields) {
      forall i | 0 <= i < |fields| ensures faults[i].None? {
        assert fields[i] in fields;
      }
    }
  }

  lemma {:induction false} NamesFaultless(types: Types, q: seq<Name>)
    requires Names(types, q)
    ensures FirstFault(NameFaults(types, q)).None?
            <==> WithinSize(types, q, |q|) && forall n :: n in types ==> IsStructName(n)
  {
    hide IsStructName, FirstFault, Lists, WithinSize;
    var faults := NameFaults(types, q);
    NoFault(faults);
    ListedExactly(types, q);
    EmptyIsSmall(types, q);
    if WithinSize(types, q, |q|) && forall n :: n in types ==> IsStructName(n) {
      forall k | 0 <= k < |faults| ensures faults[k].None? {
        SizesGrow(types, q, k + 1, |q|);
        assert q[k] in q;
      }
    }
    if forall k :: 0 <= k < |faults| ==> faults[k].None? {
      assert q != [] ==> faults[|q| - 1].None?;
      forall n | n in types ensures IsStructName(n) {
        var k :| 0 <= k < |q| && q[k] == n;
        assert faults[k].None?;
      }
    }
  }

  lemma {:induction false} EmptyIsSmall(types: Types, q: seq<Name>)
    requires forall x :: x in q ==> x in types
    ensures WithinSize(types, q, 0)
  {
  }

  lemma {:induction false} ListedExactly(types: Types, q: seq<Name>)
    requires Names(types, q)
    ensures forall n :: n in q <==> n in types
  {
  }

  lemma {:induction false} TypesFaultless(types: Types, q: seq<Name>)
    requires Names(types, q)
    ensures FirstFault(TypeFaults(types, q)).None? <==> forall n :: n in types ==> GoodFields(types, types[n])
  {
    hide FirstFault, Lists, GoodFields, FieldFaults;
    var faults := TypeFaults(types, q);
    NoFault(faults);
    ListedExactly(types, q);
    forall k | 0 <= k < |faults| ensures q[k] in types && (faults[k].None? <==> GoodFields(types, types[q[k]])) {
      assert q[k] in q;
      FieldsFaultless(types, types[q[k]]);
    }
    if forall k :: 0 <= k < |faults| ==> faults[k].None? {
      forall n | n in types ensures GoodFields(types, types[n]) {
        var k :| 0 <= k < |q| && q[k] == n;
        assert faults[k].None?;
      }
    }
  }

  /** No fault is found exactly in well-declared schemas. */
  lemma {:induction false} DeclaredExactly(types: Types, q: seq<Name>)
    requires Names(types, q)
    ensures DeclarationFault(types, q).None? <==> WellDeclared(types)
  {
    hide FirstFault, Lists, GoodFields, IsStructName, WithinSize;
    NamesFaultless(types, q);
    TypesFaultless(types, q);
    forall p | Names(types, p) ensures p == q {
      ListsUnique(p, q, types.Keys);
    }
  }

  // ---------------------------------------------------------------- type strings

  /** The columns from the `k`-th on, with their separators and the closing parenthesis. */
  function Columns(fields: seq<Field>, k: nat): seq<byte>
    requires k <= |fields|
    decreases |fields| - k
  {
    if k == |fields| then [CLOSE]
    else Separator(k) + (fields[k].typeName + ([BLANK] + (fields[k].name + Columns(fields, k + 1))))
  }

  /** One type's own declaration: its name and its columns in declared order. */
  function Declaration(name: Name, fields: seq<Field>): seq<byte> {
    name + ([OPEN] + Columns(fields, 0))
  }

  /** The declarations of the types listed from the `k`-th on. */
  function Concat(types: Types, q: seq<Name>, k: nat): seq<byte>
    requires k <= |q| && forall x :: x in q ==> x in types
    decreases |q| - k
  {
    if k == |q| then [] else Declaration(q[k], types[q[k]]) + Concat(types, q, k + 1)
  }

  /** `text` declares `name` and then, in ascending order, everything it depends on. */
  ghost predicate IsTypeString(types: Types, name: Name, text: seq<byte>) {
    exists q, s ::
      && IsListing(types, name, q, s) && name in types
      && text == Declaration(name, types[name]) + Concat(types, q, 0)
  }

  ghost predicate IsListing(types: Types, name: Name, q: seq<Name>, s: set<Name>) {
    && Lists(q, s) && (forall b :: b in s <==> Reaches(Dependencies(types), name, b))
    && (forall x :: x in q ==> x in types)
  }

  /** There is only one canonical type string. */
  lemma {:induction false} TypeStringUnique(types: Types, name: Name, a: seq<byte>, b: seq<byte>)
    requires IsTypeString(types, name, a) && IsTypeString(types, name, b)
    ensures a == b
  {
    hide Lists, Concat, Reaches;
    var q, s :| IsListing(types, name, q, s) && a == Declaration(name, types[name]) + Concat(types, q, 0);
    var q', s' :| IsListing(types, name, q', s') && b == Declaration(name, types[name]) + Concat(types, q', 0);
    assert s == s';
    ListsUnique(q, q', s);
  }

  ghost predicate IsRoot(types: Types, n: Name) {
    n in types && !IsReferenced(Dependencies(types), n)
  }

  ghost predicate UniqueRoot(types: Types, root: Name) {
    IsRoot(types, root) && forall n :: IsRoot(types, n) ==> n == root
  }

  lemma {:induction false} RootCoversTypes(types: Types, root: Name, reached: set<Name>)
    requires WellDeclared(types) && Bounded(Dependencies(types)) && UniqueRoot(types, root)
    requires forall b :: b in reached <==> Reaches(Dependencies(types), root, b)
    ensures reached == types.Keys - {root} && |reached| + 1 == |types|
  {
    hide Bounded, Closed, Reaches, IsReferenced;
    var deps := Dependencies(types);
    assert deps.Keys == types.Keys;
    forall n | n in deps && n != root ensures IsReferenced(deps, n) {
      assert !IsRoot(types, n);
    }
    RootReachesAll(deps, root, reached);
  }

  /** From the unique root, the type string declares every type of the schema exactly once. */
  lemma {:induction false} RootListsEverything(types: Types, root: Name, q: seq<Name>, s: set<Name>)
    requires WellDeclared(types) && Bounded(Dependencies(types)) && UniqueRoot(types, root)
    requires IsListing(types, root, q, s)
    ensures Lists(q, types.Keys - {root}) && |q| + 1 == |types|
  {
    hide Lists, Bounded, Closed, Reaches, IsReferenced;
    RootCoversTypes(types, root, s);
    ListsOnce(q, s);
  }

  // ---------------------------------------------------------------- a type string determines its schema

  /** None of the bytes that separate the parts of a declaration. */
  predicate Clean(s: seq<byte>) {
    forall i :: 0 <= i < |s| ==> !Separates(s[i])
  }

  predicate Separates(c: byte) {
    c == OPEN || c == CLOSE || c == COMMA || c == BLANK
  }

  /** Clean text ends where the first separator stands. */
  lemma {:induction false} CleanPrefix(a: seq<byte>, x: seq<byte>, b: seq<byte>, y: seq<byte>)
    requires Clean(a) && Clean(b) && x != [] && y != [] && Separates(x[0]) && Separates(y[0]) && a + x == b + y
    ensures a == b && x == y
  {
    assert (a + x)[|a|] == x[0] && (b + y)[|b|] == y[0];
    assert |a| == |b|;
    assert (a + x)[..|a|] == a && (b + y)[..|b|] == b;
    assert (a + x)[|a|..] == x && (b + y)[|b|..] == y;
  }

  lemma {:induction false} IdentifierIsClean(s: seq<byte>)
    requires Identifier(s)
    ensures Clean(s)
  {
  }

  lemma {:induction false} SuffixIsClean(dimensions: seq<Option<nat>>)
    ensures Clean(SuffixText(dimensions))
    decreases |dimensions|
  {
    hide AbiText.Decimal;
    if dimensions == [] {
    } else {
      SuffixIsClean(dimensions[1..]);
    }
  }

  lemma {:induction false} ExpressionIsClean(s: seq<byte>)
    requires Expression(s).Ok?
    ensures Clean(s) && s != []
  {
    hide Expression, SuffixText;
    var (base, dimensions) := Expression(s).value;
    ExpressionExact(s, base, dimensions);
    SuffixIsClean(dimensions);
    BaseIsClean(base);
  }

  lemma {:induction false} BaseIsClean(b: Base)
    requires GoodBase(b)
    ensures Clean(BaseText(b)) && BaseText(b) != []
  {
    hide AbiText.Decimal;
  }

  predicate CleanFields(fields: seq<Field>) {
    forall i :: 0 <= i < |fields| ==>
      Clean(fields[i].typeName) && fields[i].typeName != [] && Clean(fields[i].name)
  }

  lemma {:induction false} GoodFieldsAreClean(types: Types, fields: seq<Field>)
    requires GoodFields(types, fields)
    ensures CleanFields(fields)
  {
    hide Expression, Identifier, Clean;
    forall i | 0 <= i < |fields|
      ensures Clean(fields[i].typeName) && fields[i].typeName != [] && Clean(fields[i].name)
    {
      ExpressionIsClean(fields[i].typeName);
      IdentifierIsClean(fields[i].name);
    }
  }

  /** What comes next begins with a separator, except the first column. */
  lemma {:induction false} ColumnsBegin(fields: seq<Field>, k: nat)
    requires k <= |fields| && CleanFields(fields)
    ensures Columns(fields, k) != []
    ensures k == |fields| <==> Columns(fields, k)[0] == CLOSE
    ensures k > 0 ==> Separates(Columns(fields, k)[0])
  {
    if k == 0 && k < |fields| {
      assert Columns(fields, k)[0] == fields[k].typeName[0];
    }
  }

  /** One column, split from what follows it. */
  lemma {:induction false} ColumnSplits(f: seq<Field>, g: seq<Field>, k: nat, x: seq<byte>, y: seq<byte>)
    requires k < |f| && k < |g| && CleanFields(f) && CleanFields(g) && Columns(f, k) + x == Columns(g, k) + y
    ensures f[k] == g[k] && Columns(f, k + 1) + x == Columns(g, k + 1) + y
  {
    hide Columns, Clean, Separates;
    var a, b := f[k], g[k];
    var af, bg := Columns(f, k + 1) + x, Columns(g, k + 1) + y;
    ColumnUnfolds(f, k, x);
    ColumnUnfolds(g, k, y);
    var s := Separator(k);
    assert (s + (a.typeName + ([BLANK] + (a.name + af))))[|s|..] == a.typeName + ([BLANK] + (a.name + af));
    assert (s + (b.typeName + ([BLANK] + (b.name + bg))))[|s|..] == b.typeName + ([BLANK] + (b.name + bg));
    BlankSeparates();
    CleanPrefix(a.typeName, [BLANK] + (a.name + af), b.typeName, [BLANK] + (b.name + bg));
    assert ([BLANK] + (a.name + af))[1..] == a.name + af && ([BLANK] + (b.name + bg))[1..] == b.name + bg;
    ColumnsBegin(f, k + 1);
    ColumnsBegin(g, k + 1);
    CleanPrefix(a.name, af, b.name, bg);
  }

  lemma {:induction false} BlankSeparates()
    ensures Separates(BLANK) && Separates(OPEN)
  {
  }

  lemma {:induction false} ColumnUnfolds(f: seq<Field>, k: nat, x: seq<byte>)
    requires k < |f|
    ensures Columns(f, k) + x
            == Separator(k) + (f[k].typeName + ([BLANK] + (f[k].name + (Columns(f, k + 1) + x))))
  {
    hide Columns;
    assert Columns(f, k) == Separator(k) + (f[k].typeName + ([BLANK] + (f[k].name + Columns(f, k + 1)))) by {
      ColumnsNext(f, k);
    }
  }

  lemma {:induction false} ColumnsNext(f: seq<Field>, k: nat)
    requires k < |f|
    ensures Columns(f, k) == Separator(k) + (f[k].typeName + ([BLANK] + (f[k].name + Columns(f, k + 1))))
  {
  }

  lemma {:induction false} ColumnsDetermine(f: seq<Field>, g: seq<Field>, k: nat, x: seq<byte>, y: seq<byte>)
    requires k <= |f| && k <= |g| && CleanFields(f) && CleanFields(g) && Columns(f, k) + x == Columns(g, k) + y
    ensures f[k..] == g[k..] && x == y
    decreases |f| - k
  {
    hide CleanFields, Separates;
    ColumnsBegin(f, k);
    ColumnsBegin(g, k);
    assert (Columns(f, k) + x)[0] == Columns(f, k)[0] && (Columns(g, k) + y)[0] == Columns(g, k)[0];
    if k == |f| {
      assert ([CLOSE] + x)[1..] == x && ([CLOSE] + y)[1..] == y;
    } else {
      hide Columns;
      ColumnSplits(f, g, k, x, y);
      ColumnsDetermine(f, g, k + 1, x, y);
      assert f[k..] == [f[k]] + f[k + 1..] && g[k..] == [g[k]] + g[k + 1..];
    }
  }

  lemma {:induction false} DeclarationDetermines(a: Name, f: seq<Field>, x: seq<byte>, b: Name, g: seq<Field>,
          y: seq<byte>)
    requires Clean(a) && Clean(b) && CleanFields(f) && CleanFields(g)
    requires Declaration(a, f) + x == Declaration(b, g) + y
    ensures a == b && f == g && x == y
  {
    hide Columns, Clean, CleanFields, Separates;
    var af, bg := Columns(f, 0) + x, Columns(g, 0) + y;
    assert Declaration(a, f) + x == a + ([OPEN] + af) && Declaration(b, g) + y == b + ([OPEN] + bg);
    BlankSeparates();
    CleanPrefix(a, [OPEN] + af, b, [OPEN] + bg);
    assert ([OPEN] + af)[1..] == af && ([OPEN] + bg)[1..] == bg;
    ColumnsDetermine(f, g, 0, x, y);
    assert f[0..] == f && g[0..] == g;
  }

  ghost predicate CleanTypes(types: Types, q: seq<Name>) {
    forall x :: x in q ==> x in types && Clean(x) && CleanFields(types[x])
  }

  lemma {:induction false} ConcatDetermines(ts: Types, p: seq<Name>, us: Types, q: seq<Name>, k: nat)
    requires CleanTypes(ts, p) && CleanTypes(us, q) && k <= |p| && k <= |q| && Concat(ts, p, k) == Concat(us, q, k)
    ensures p[k..] == q[k..] && forall i :: k <= i < |p| ==> ts[p[i]] == us[p[i]]
    decreases |p| - k
  {
    hide Clean, CleanFields, Declaration;
    ConcatEnds(ts, p, k);
    ConcatEnds(us, q, k);
    if k == |p| || k == |q| {
    } else {
      assert p[k] in p && q[k] in q;
      DeclarationDetermines(p[k], ts[p[k]], Concat(ts, p, k + 1), q[k], us[q[k]], Concat(us, q, k + 1));
      ConcatDetermines(ts, p, us, q, k + 1);
      assert p[k..] == [p[k]] + p[k + 1..] && q[k..] == [q[k]] + q[k + 1..];
    }
  }

  lemma {:induction false} ConcatEnds(types: Types, q: seq<Name>, k: nat)
    requires k <= |q| && forall x :: x in q ==> x in types
    ensures Concat(types, q, k) == [] <==> k == |q|
  {
    hide Columns;
  }

  lemma {:induction false} WellDeclaredIsClean(types: Types, q: seq<Name>)
    requires WellDeclared(types) && forall x :: x in q ==> x in types
    ensures CleanTypes(types, q)
  {
    hide GoodFields, Identifier, Reserved, WithinSize, Clean, CleanFields;
    forall x | x in q ensures Clean(x) && CleanFields(types[x]) {
      IdentifierIsClean(x);
      GoodFieldsAreClean(types, types[x]);
    }
  }

  lemma {:induction false} ConcatCons(types: Types, root: Name, q: seq<Name>, k: nat)
    requires root in types && k <= |q| && forall x :: x in q ==> x in types
    ensures Concat(types, [root] + q, k + 1) == Concat(types, q, k)
    decreases |q| - k
  {
    hide Declaration;
    if k == |q| {
    } else {
      ConcatCons(types, root, q, k + 1);
    }
  }

  /** No two schemas have the same root type string, so a type hash stands for one schema up to collisions. */
  lemma {:induction false} TypeStringDetermines(ts: Types, root: Name, us: Types, other: Name, text: seq<byte>)
    requires WellDeclared(ts) && Bounded(Dependencies(ts)) && UniqueRoot(ts, root) && IsTypeString(ts, root, text)
    requires WellDeclared(us) && Bounded(Dependencies(us)) && UniqueRoot(us, other) && IsTypeString(us, other, text)
    ensures ts == us && root == other
  {
    hide WellDeclared, Bounded, Lists, Reaches, IsReferenced, Declaration, Concat, Dependencies;
    var p, s :| IsListing(ts, root, p, s) && text == Declaration(root, ts[root]) + Concat(ts, p, 0);
    var q, s' :| IsListing(us, other, q, s') && text == Declaration(other, us[other]) + Concat(us, q, 0);
    RootListsEverything(ts, root, p, s);
    RootListsEverything(us, other, q, s');
    WholeString(ts, root, p);
    WholeString(us, other, q);
    WellDeclaredIsClean(ts, [root] + p);
    WellDeclaredIsClean(us, [other] + q);
    ConcatDetermines(ts, [root] + p, us, [other] + q, 0);
    SameSchema(ts, us, root, other, p, q);
  }

  lemma {:induction false} WholeString(types: Types, root: Name, q: seq<Name>)
    requires root in types && forall x :: x in q ==> x in types
    ensures Declaration(root, types[root]) + Concat(types, q, 0) == Concat(types, [root] + q, 0)
  {
    hide Declaration;
    ConcatCons(types, root, q, 0);
  }

  lemma {:induction false} SameSchema(ts: Types, us: Types, root: Name, other: Name, p: seq<Name>, q: seq<Name>)
    requires root in ts && other in us && Lists(p, ts.Keys - {root}) && Lists(q, us.Keys - {other})
    requires ([root] + p)[0..] == ([other] + q)[0..]
    requires forall i :: 0 <= i < |[root] + p| ==>
            ([root] + p)[i] in ts && ([root] + p)[i] in us && ts[([root] + p)[i]] == us[([root] + p)[i]]
    ensures ts == us && root == other
  {
    hide Less;
    var all := [root] + p;
    assert all == [other] + q;
    assert all[0] == root == other && all[1..] == p == q;
    forall n ensures (n in ts <==> n in all) && (n in us <==> n in all) {
      assert n in all <==> n == root || n in p;
      assert n in p <==> n in ts.Keys - {root};
      assert n in q <==> n in us.Keys - {other};
    }
    forall n | n in ts ensures n in us && ts[n] == us[n] {
      var i :| 0 <= i < |all| && all[i] == n;
    }
  }
}
