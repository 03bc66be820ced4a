/** The type parser as the cursor over a byte string it is (abi_type.rs), proved against `Parse`. */
module AbiTypeParser {
  import opened ByteStrings
  import opened AbiTypes
  import opened AbiText
  import opened AbiParser

  /** The cursor and the outcome agree with what the specification reads. */
  predicate Agrees(spec: Result<Parsed, AbiError>, r: Result<AbiType, AbiError>, pos: nat, nodes: nat) {
    match spec
    case Ok(p) => r == Ok(p.ty) && pos == p.pos && nodes == p.nodes
    case Err(e) => r == Err(e)
  }

  class Parser {
    const bytes: seq<byte>
    var pos: nat
    var nodes: nat

    constructor (bytes: seq<byte>)
      ensures this.bytes == bytes && pos == 0 && nodes == 0
    {
      this.bytes := bytes;
      pos, nodes := 0, 0;
    }

    /** Moves over a stretch of one character class. */
    method Skip(class_: Class)
      requires pos <= |bytes|
      modifies `pos
      ensures pos == RunEnd(bytes, old(pos), class_)
    {
      while pos < |bytes| && InClass(bytes[pos], class_)
        invariant pos <= |bytes| && RunEnd(bytes, pos, class_) == RunEnd(bytes, old(pos), class_)
      {
        pos := pos + 1;
      }
    }

    method Eat(c: byte) returns (ate: bool)
      requires pos <= |bytes|
      modifies `pos
      ensures ate <==> Eaten(bytes, old(pos), c).Some?
      ensures pos == if ate then Eaten(bytes, old(pos), c).value else RunEnd(bytes, old(pos), Space)
    {
      Skip(Space);
      if pos < |bytes| && bytes[pos] == c {
        pos := pos + 1;
        return true;
      }
      return false;
    }

    method Count(depth: nat) returns (r: Result<(), AbiError>)
      modifies `nodes
      ensures nodes == old(nodes) + 1
      ensures r == if Uncountable(old(nodes), depth) then Err(Limit) else Ok(())
    {
      nodes := nodes + 1;
      if nodes > MAX_FIELDS || depth > MAX_DEPTH {
        return Err(Limit);
      }
      return Ok(());
    }

    method Ty(depth: nat) returns (r: Result<AbiType, AbiError>)
      requires pos <= |bytes|
      modifies this
      ensures Agrees(ParseType(bytes, old(pos), old(nodes), depth), r, pos, nodes)
      decreases MAX_FIELDS + 1 - nodes, 1
    {
      hide ParseBase, ParseSuffixes, RunEnd;
      var counted := Count(depth);
      if counted.Err? {
        return Err(counted.error);
      }
      Skip(Space);
      if pos + 5 <= |bytes| && bytes[pos..pos + 5] == TUPLE {
        pos := pos + 5;
        Skip(Space);
        if !(pos < |bytes| && bytes[pos] == OPEN) {
          return Err(Schema);
        }
      }
      assert Start(bytes, old(pos)) == Ok(pos);
      var base := Base(depth);
      if base.Err? {
        return base;
      }
      r := Suffixes(base.value, depth);
    }

    method Base(depth: nat) returns (r: Result<AbiType, AbiError>)
      requires pos <= |bytes| && nodes <= MAX_FIELDS
      modifies this
      ensures Agrees(ParseBase(bytes, old(pos), old(nodes), depth), r, pos, nodes)
      decreases MAX_FIELDS + 1 - nodes, 3
    {
      hide Inside, RunEnd, KindOf, New;
      var open := Eat(OPEN);
      if open {
        r := TupleInside(depth);
        return;
      }
      BlankOnce(bytes, old(pos));
      var start := pos;
      Skip(Alphanumeric);
      var kind := KindOf(bytes[start..pos]);
      if kind.Err? {
        return Err(kind.error);
      }
      r := New(kind.value);
    }

    method TupleInside(depth: nat) returns (r: Result<AbiType, AbiError>)
      requires pos <= |bytes| && nodes <= MAX_FIELDS
      modifies this
      ensures Agrees(Inside(bytes, old(pos), old(nodes), depth), r, pos, nodes)
      decreases MAX_FIELDS + 1 - nodes, 2
    {
      hide ParseType, RunEnd, New, Eaten;
      var fields := [];
      var closed := Eat(CLOSE);
      if !closed {
        BlankFields(bytes, old(pos), nodes, depth);
        while true
          invariant pos <= |bytes| && old(nodes) <= nodes <= MAX_FIELDS
          invariant ParseFields(bytes, pos, nodes, depth, fields) == ParseFields(bytes, old(pos), old(nodes), depth, [])
          decreases MAX_FIELDS + 1 - nodes
        {
          var field := Ty(depth + 1);
          if field.Err? {
            return Err(field.error);
          }
          fields := fields + [field.value];
          ghost var after := pos;
          closed := Eat(CLOSE);
          if closed {
            break;
          }
          var comma := Eat(COMMA);
          BlankEaten(bytes, after, COMMA);
          if !comma {
            return Err(Schema);
          }
        }
      }
      r := New(Tuple(fields));
    }

    method Suffixes(base: AbiType, depth: nat) returns (r: Result<AbiType, AbiError>)
      requires pos <= |bytes| && nodes <= MAX_FIELDS
      modifies this
      ensures Agrees(ParseSuffixes(bytes, base, old(pos), old(nodes), depth), r, pos, nodes)
    {
      hide RunEnd, ParseSuffix, Eaten;
      var value := base;
      ghost var at: nat := pos;
      var more := Eat(LEFT);
      while more
        invariant at <= |bytes| && nodes <= MAX_FIELDS
        invariant more <==> Eaten(bytes, at, LEFT).Some?
        invariant pos == if more then Eaten(bytes, at, LEFT).value else RunEnd(bytes, at, Space)
        invariant ParseSuffixes(bytes, value, at, nodes, depth)
          == ParseSuffixes(bytes, base, old(pos), old(nodes), depth)
        decreases MAX_FIELDS + 1 - nodes
      {
        var built := Suffix(value, depth);
        if built.Err? {
          return built;
        }
        value, at := built.value, pos;
        more := Eat(LEFT);
      }
      return Ok(value);
    }

    method Suffix(value: AbiType, depth: nat) returns (r: Result<AbiType, AbiError>)
      requires pos <= |bytes| && nodes <= MAX_FIELDS
      modifies this
      ensures Agrees(ParseSuffix(bytes, value, old(pos), old(nodes), depth), r, pos, nodes)
    {
      hide RunEnd, New, LengthOf, Eaten;
      var counted := Count(depth + 1);
      if counted.Err? {
        return Err(counted.error);
      }
      Skip(Space);
      var start := pos;
      Skip(Digit);
      var n := LengthOf(bytes[start..pos]);
      if n.Err? {
        return Err(n.error);
      }
      var closed := Eat(RIGHT);
      if !closed {
        return Err(Schema);
      }
      r := New(Array(value, n.value));
    }
  }

  /** Blanks already skipped stay skipped. */
  lemma {:induction false} BlankOnce(b: seq<byte>, pos: nat)
    requires pos <= |b|
    ensures RunEnd(b, RunEnd(b, pos, Space), Space) == RunEnd(b, pos, Space)
  {
  }

  lemma {:induction false} BlankEaten(b: seq<byte>, pos: nat, c: byte)
    requires pos <= |b|
    ensures Eaten(b, RunEnd(b, pos, Space), c) == Eaten(b, pos, c)
  {
    BlankOnce(b, pos);
  }

  lemma {:induction false} BlankStart(b: seq<byte>, pos: nat)
    requires pos <= |b|
    ensures Start(b, RunEnd(b, pos, Space)) == Start(b, pos)
  {
    BlankOnce(b, pos);
  }

  lemma {:induction false} BlankFields(b: seq<byte>, pos: nat, nodes: nat, depth: nat)
    requires pos <= |b| && nodes <= MAX_FIELDS
    ensures ParseFields(b, RunEnd(b, pos, Space), nodes, depth, []) == ParseFields(b, pos, nodes, depth, [])
  {
    hide RunEnd, ParseBase, ParseSuffixes, Start;
    BlankStart(b, pos);
  }

  method ParseText(text: seq<byte>) returns (r: Result<AbiType, AbiError>)
    ensures r == Parse(text)
  {
    hide ParseType, RunEnd;
    if |text| > MAX_TEXT {
      return Err(Limit);
    }
    var parser := new Parser(text);
    var ty := parser.Ty(0);
    if ty.Err? {
      return ty;
    }
    parser.Skip(Space);
    if parser.pos != |parser.bytes| {
      return Err(Schema);
    }
    return ty;
  }
}
