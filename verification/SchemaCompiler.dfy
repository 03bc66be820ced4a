/** The EIP-712 schema compiler (schema.rs): declarations, dependency search, root inference and canonical
    type strings. */
module SchemaCompiler {
  import opened ByteStrings
  import AbiTypes
  import opened AbiParser
  import opened SchemaGraph
  import opened SchemaOrder
  import opened SchemaText
  import opened SchemaSearch
  import opened SchemaDeclarations

  // ---------------------------------------------------------------- checking the declarations

  lemma {:induction false} NextColumn(fields: seq<Field>, i: nat)
    requires i < |fields|
    ensures FieldBytes(fields[..i + 1]) == FieldBytes(fields[..i]) + |fields[i].name| + |fields[i].typeName|
  {
    assert fields[..i + 1][..i] == fields[..i];
  }

  lemma {:induction false} FieldBytesGrow(fields: seq<Field>, i: nat)
    requires i <= |fields|
    ensures FieldBytes(fields[..i]) <= FieldBytes(fields)
    decreases |fields| - i
  {
    if i == |fields| {
      assert fields[..i] == fields;
    } else {
      NextColumn(fields, i);
      FieldBytesGrow(fields, i + 1);
    }
  }

  /** Adds up one type's sizes, stopping as soon as the limit is passed. */
  method AddBytes(start: nat, name: Name, fields: seq<Field>) returns (r: Option<nat>)
    ensures var total := start + |name| + FieldBytes(fields);
            r == if total <= MAX_SCHEMA_BYTES then Some(total) else None
  {
    var bytes, i := start + |name|, 0;
    while i < |fields|
      invariant 0 <= i <= |fields| && bytes == start + |name| + FieldBytes(fields[..i])
    {
      NextColumn(fields, i);
      bytes := bytes + |fields[i].name| + |fields[i].typeName|;
      i := i + 1;
      if bytes > MAX_SCHEMA_BYTES {
        FieldBytesGrow(fields, i);
        return None;
      }
    }
    assert fields[..i] == fields;
    return if bytes > MAX_SCHEMA_BYTES then None else Some(bytes);
  }

  /** Names and sizes, in ascending order of the names. */
  method CheckNames(types: Types, q: seq<Name>) returns (refused: Option<SchemaError>)
    requires forall x :: x in q ==> x in types
    ensures refused == FirstFault(NameFaults(types, q))
  {
    hide FirstFault, IsStructName, FieldBytes, BaseOf;
    var count: nat, bytes: nat, k := 0, 0, 0;
    while k < |q|
      invariant 0 <= k <= |q| && count == CountUpTo(types, q, k) && bytes == BytesUpTo(types, q, k)
      invariant forall j :: 0 <= j < k ==> NameFaults(types, q)[j].None?
    {
      assert q[k] in q;
      count := count + |types[q[k]]|;
      if count > AbiTypes.MAX_FIELDS {
        FirstAt(NameFaults(types, q), k);
        return Some(LimitExceeded);
      }
      var added := AddBytes(bytes, q[k], types[q[k]]);
      if added.None? {
        FirstAt(NameFaults(types, q), k);
        return Some(LimitExceeded);
      }
      bytes := added.value;
      NamesStruct(q[k]);
      if !Identifier(q[k]) || BaseOf(q[k]).Err? || !BaseOf(q[k]).value.Struct? {
        FirstAt(NameFaults(types, q), k);
        return Some(InvalidSchema);
      }
      k := k + 1;
    }
    NoFault(NameFaults(types, q));
    return None;
  }

  /** A declared name must parse as a struct base. */
  lemma {:induction false} NamesStruct(s: seq<byte>)
    ensures IsStructName(s) <==> Identifier(s) && BaseOf(s).Ok? && BaseOf(s).value.Struct?
  {
    hide Identifier, BaseOf, Reserved;
    if BaseOf(s).Ok? {
      ParsedBase(s);
    }
    if IsStructName(s) {
      PrintedBase(Struct(s));
    }
  }

  lemma {:induction false} NextChild(fields: seq<Field>, i: nat)
    requires i < |fields|
    ensures Children(fields[..i + 1])
            == Children(fields[..i]) + (if ChildOf(fields[i]).Some? then {ChildOf(fields[i]).value} else {})
  {
    hide ChildOf;
    assert fields[..i + 1] == fields[..i] + [fields[i]];
  }

  /** One type: its own declaration and the types its fields refer to, or the fault of its first bad field. */
  method ReadFields(types: Types, name: Name, fields: seq<Field>)
    returns (r: Result<(set<Name>, seq<byte>), SchemaError>)
    ensures FirstFault(FieldFaults(types, fields)) == if r.Ok? then None else Some(r.error)
    ensures r.Ok? ==> r.value == (Children(fields), Declaration(name, fields))
  {
    hide FirstFault, Identifier, Expression, Children, Columns;
    var names: set<seq<byte>>, deps, own, i := {}, {}, name + [OPEN], 0;
    NoChildren(fields);
    while i < |fields|
      invariant 0 <= i <= |fields| && deps == Children(fields[..i])
      invariant own + Columns(fields, i) == Declaration(name, fields)
      invariant forall x :: x in names <==> exists j :: 0 <= j < i && fields[j].name == x
      invariant forall j :: 0 <= j < i ==> FieldFaults(types, fields)[j].None?
    {
      var field := fields[i];
      NextChild(fields, i);
      ColumnsNext(fields, i);
      if FieldFault(types, fields, i).Some? {
        FirstAt(FieldFaults(types, fields), i);
      }
      if !Identifier(field.name) || field.name in names {
        return Err(InvalidSchema);
      }
      names := names + {field.name};
      var parsed :- ParseExpression(field.typeName);
      var base := parsed.0;
      if base.Struct? {
        if base.name !in types {
          return Err(UnknownType);
        }
        deps := deps + {base.name};
      }
      own := own + Separator(i) + field.typeName + [BLANK] + field.name;
      i := i + 1;
    }
    assert fields[..i] == fields;
    NoFault(FieldFaults(types, fields));
    LastColumn(fields);
    return Ok((deps, own + [CLOSE]));
  }

  lemma {:induction false} NoChildren(fields: seq<Field>)
    ensures Children(fields[..0]) == {}
  {
  }

  lemma {:induction false} LastColumn(fields: seq<Field>)
    ensures Columns(fields, |fields|) == [CLOSE]
  {
  }

  /** Every type, in ascending order: dependencies, references and own declarations. */
  method Resolve(types: Types, q: seq<Name>) returns (r: Result<(Graph, set<Name>, map<Name, seq<byte>>), SchemaError>)
    requires Names(types, q)
    ensures FirstFault(TypeFaults(types, q)) == if r.Ok? then None else Some(r.error)
    ensures r.Ok? ==> r.value.0 == Dependencies(types)
    ensures r.Ok? ==> forall n :: n in r.value.1 <==> IsReferenced(Dependencies(types), n)
    ensures r.Ok? ==> r.value.2 == map n | n in types :: Declaration(n, types[n])
  {
    hide FirstFault, Children, Declaration, FieldFaults, Lists;
    ListedExactly(types, q);
    var deps: Graph, referenced, own: map<Name, seq<byte>>, k := map[], {}, map[], 0;
    while k < |q|
      invariant 0 <= k <= |q| && deps.Keys == own.Keys == (set j | 0 <= j < k :: q[j])
      invariant forall n :: n in deps ==>
        n in types && deps[n] == Children(types[n]) && own[n] == Declaration(n, types[n])
      invariant forall n :: n in referenced <==> exists m :: m in deps && n in deps[m]
      invariant forall j :: 0 <= j < k ==> TypeFaults(types, q)[j].None?
    {
      assert q[k] in q;
      var read := ReadFields(types, q[k], types[q[k]]);
      if read.Err? {
        FirstAt(TypeFaults(types, q), k);
        return Err(read.error);
      }
      assert q[k] !in deps by { NotYet(types, q, k); }
      referenced := referenced + read.value.0;
      deps, own := deps[q[k] := read.value.0], own[q[k] := read.value.1];
      k := k + 1;
    }
    NoFault(TypeFaults(types, q));
    assert deps.Keys == types.Keys;
    assert deps == Dependencies(types);
    return Ok((deps, referenced, own));
  }

  lemma {:induction false} NotYet(types: Types, q: seq<Name>, k: nat)
    requires Names(types, q) && k < |q|
    ensures forall j :: 0 <= j < k ==> q[j] != q[k]
  {
    hide Less;
    LessTotal(q[k], q[k]);
  }

  // ---------------------------------------------------------------- compiling

  datatype Compiled = Compiled(primary: Name, encoded: map<Name, seq<byte>>)

  ghost predicate Compilable(types: Types) {
    && 0 < |types| <= MAX_TYPES && WellDeclared(types) && Bounded(Dependencies(types))
    && exists root :: UniqueRoot(types, root)
  }

  /** Which error a schema that does not compile reports: the first fault of its declarations, then the first
      obstacle of the search, a cycle or a trail beyond the limit, then the missing root. */
  ghost predicate Reports(types: Types, q: seq<Name>, e: SchemaError)
    requires Names(types, q)
  {
    if types == map[] then e == PrimaryType
    else if |types| > MAX_TYPES then e == LimitExceeded
    else if DeclarationFault(types, q).Some? then Some(e) == DeclarationFault(types, q)
    else if !Bounded(Dependencies(types)) then
      DeclaredExactly(types, q);
      DeclaredIsClosed(types);
      SearchFault(Dependencies(types)) == Some(e) && Obstacle(Dependencies(types), e)
    else e == PrimaryType && !exists root :: UniqueRoot(types, root)
  }

  /** Compiles exactly the well-declared acyclic schemas of bounded depth with one root. */
  method Compile(types: Types) returns (r: Result<Compiled, SchemaError>)
    ensures r.Ok? <==> Compilable(types)
    ensures r.Ok? ==> UniqueRoot(types, r.value.primary) && r.value.encoded.Keys == types.Keys
    ensures r.Ok? ==> forall n :: n in types ==> IsTypeString(types, n, r.value.encoded[n])
    ensures r.Err? ==> forall q :: Names(types, q) ==> Reports(types, q, r.error)
  {
    hide WellDeclared, Bounded, Lists, Reaches, IsReferenced, Declaration, HasCycle, CacheCorrect, IsTypeString,
         DeclarationFault, Dependencies, SearchFault, Obstacle;
    var q := InOrder(types.Keys);
    assert Names(types, q) by { ListedNames(types, q); }
    forall p | Names(types, p) ensures p == q {
      ListsUnique(p, q, types.Keys);
    }
    DeclaredExactly(types, q);
    if types == map[] {
      return Err(PrimaryType);
    }
    if |types| > MAX_TYPES {
      return Err(LimitExceeded);
    }
    var resolved := ReadDeclarations(types, q);
    if resolved.Err? {
      return Err(resolved.error);
    }
    var (deps, referenced, own) := resolved.value;
    DeclaredIsClosed(types);
    var searched := Closures(deps);
    if searched.Err? {
      return Err(searched.error);
    }
    r := Finish(types, searched.value, referenced, own);
  }

  /** Names and sizes first, then the fields. */
  method ReadDeclarations(types: Types, q: seq<Name>)
    returns (r: Result<(Graph, set<Name>, map<Name, seq<byte>>), SchemaError>)
    requires Names(types, q)
    ensures DeclarationFault(types, q) == if r.Ok? then None else Some(r.error)
    ensures r.Ok? ==> r.value.0 == Dependencies(types)
    ensures r.Ok? ==> forall n :: n in r.value.1 <==> IsReferenced(Dependencies(types), n)
    ensures r.Ok? ==> r.value.2 == map n | n in types :: Declaration(n, types[n])
  {
    hide FirstFault, Declaration, Dependencies, Lists, IsReferenced;
    var refused := CheckNames(types, q);
    if refused.Some? {
      return Err(refused.value);
    }
    r := Resolve(types, q);
  }

  lemma {:induction false} ListedNames(types: Types, q: seq<Name>)
    requires Lists(q, types.Keys)
    ensures Names(types, q)
  {
    hide Less;
  }

  /** The root and the type strings, once the search has succeeded. */
  method Finish(types: Types, closures: map<Name, Closure>, referenced: set<Name>, own: map<Name, seq<byte>>)
    returns (r: Result<Compiled, SchemaError>)
    requires WellDeclared(types) && Bounded(Dependencies(types))
    requires closures.Keys == types.Keys && CacheCorrect(Dependencies(types), closures)
    requires forall n :: n in referenced <==> IsReferenced(Dependencies(types), n)
    requires own == map n | n in types :: Declaration(n, types[n])
    ensures r.Ok? <==> exists root :: UniqueRoot(types, root)
    ensures r.Ok? ==> UniqueRoot(types, r.value.primary) && r.value.encoded.Keys == types.Keys
    ensures r.Ok? ==> forall n :: n in types ==> IsTypeString(types, n, r.value.encoded[n])
    ensures r.Err? ==> r.error == PrimaryType
  {
    hide WellDeclared, Bounded, Lists, Reaches, IsReferenced, Declaration, CacheCorrect, IsTypeString, Dependencies;
    var roots := set n | n in types && n !in referenced;
    assert forall n :: n in roots <==> IsRoot(types, n);
    assert (exists root :: UniqueRoot(types, root)) ==> |roots| == 1 by {
      if root :| UniqueRoot(types, root) {
        assert roots == {root};
      }
    }
    if |roots| != 1 {
      return Err(PrimaryType);
    }
    var primary :| primary in roots;
    SingletonRoot(roots, primary);
    assert UniqueRoot(types, primary);
    CachedReach(Dependencies(types), closures);
    // The source checks this once more; it always holds.
    assert |closures[primary].reached| + 1 == |types| by {
      RootCoversTypes(types, primary, closures[primary].reached);
    }
    var encoded: map<Name, seq<byte>>, rest := map[], types.Keys;
    while rest != {}
      invariant rest <= types.Keys && encoded.Keys == types.Keys - rest
      invariant forall n :: n in encoded ==> IsTypeString(types, n, encoded[n])
      decreases rest
    {
      var name :| name in rest;
      var text := Render(types, name, closures[name].reached, own);
      encoded, rest := encoded[name := text], rest - {name};
    }
    return Ok(Compiled(primary, encoded));
  }

  method Render(types: Types, name: Name, reached: set<Name>, own: map<Name, seq<byte>>) returns (full: seq<byte>)
    requires WellDeclared(types) && name in types && own == map n | n in types :: Declaration(n, types[n])
    requires forall b :: b in reached <==> Reaches(Dependencies(types), name, b)
    ensures IsTypeString(types, name, full)
  {
    hide Declaration, Lists, Reaches, WellDeclared;
    var order := InOrder(reached);
    ListedAreDeclared(types, name, order, reached);
    full := own[name];
    var i := 0;
    while i < |order|
      invariant 0 <= i <= |order|
      invariant full + Concat(types, order, i) == Declaration(name, types[name]) + Concat(types, order, 0)
    {
      assert order[i] in order;
      full := full + own[order[i]];
      i := i + 1;
    }
    assert full + [] == full;
    assert IsListing(types, name, order, reached);
  }

  lemma {:induction false} ListedAreDeclared(types: Types, name: Name, q: seq<Name>, s: set<Name>)
    requires name in types && Lists(q, s) && forall b :: b in s <==> Reaches(Dependencies(types), name, b)
    ensures forall x :: x in q ==> x in types
  {
    forall x | x in q ensures x in types {
      var p :| Connects(Dependencies(types), name, x, p);
    }
  }

  lemma {:induction false} SingletonRoot(s: set<Name>, x: Name)
    requires |s| == 1 && x in s
    ensures forall y :: y in s ==> y == x
  {
    assert |s - {x}| == 0;
    forall y | y in s ensures y == x {
      assert y !in s - {x};
    }
  }

  lemma {:induction false} CachedReach(deps: Graph, cache: map<Name, Closure>)
    requires CacheCorrect(deps, cache)
    ensures forall n, b :: n in cache ==> (b in cache[n].reached <==> Reaches(deps, n, b))
  {
  }
}
