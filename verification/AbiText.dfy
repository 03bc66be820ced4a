/** The textual value forms the codec reads and writes: decimal and hexadecimal integers,
    hexadecimal bytes, checksummed addresses and UTF-8 strings (value.rs, address.rs). */
module AbiText {
  import opened ByteStrings
  import opened AbiTypes

  // ---------------------------------------------------------------- UTF-8 text

  predicate Continuation(b: byte) {
    0x80 <= b <= 0xBF
  }

  /** Length of the well-formed UTF-8 sequence that starts `s` (Unicode Table 3-7), or 0. */
  function Utf8Step(s: seq<byte>): (n: nat)
    ensures n <= |s|
  {
    if |s| >= 1 && s[0] <= 0x7F then 1
    else if |s| >= 2 && 0xC2 <= s[0] <= 0xDF && Continuation(s[1]) then 2
    else if |s| >= 3 && Continuation(s[1]) && Continuation(s[2])
            && ((s[0] == 0xE0 && s[1] >= 0xA0) || 0xE1 <= s[0] <= 0xEC
                || (s[0] == 0xED && s[1] <= 0x9F) || 0xEE <= s[0] <= 0xEF) then 3
    else if |s| >= 4 && Continuation(s[1]) && Continuation(s[2]) && Continuation(s[3])
            && ((s[0] == 0xF0 && s[1] >= 0x90) || 0xF1 <= s[0] <= 0xF3
                || (s[0] == 0xF4 && s[1] <= 0x8F)) then 4
    else 0
  }

  predicate IsUtf8(s: seq<byte>)
    decreases |s|
  {
    |s| == 0 || (Utf8Step(s) > 0 && IsUtf8(s[Utf8Step(s)..]))
  }

  predicate IsAscii(s: seq<byte>) {
    forall i :: 0 <= i < |s| ==> s[i] < 0x80
  }

  lemma {:induction false} AsciiIsUtf8(s: seq<byte>)
    requires IsAscii(s)
    ensures IsUtf8(s)
  {
    if |s| == 0 {
    } else {
      AsciiIsUtf8(s[1..]);
    }
  }

  /** Text of a Rust `str`. */
  type Text = s: seq<byte> | IsUtf8(s)

  // ---------------------------------------------------------------- JSON values

  /** A JSON value; a number keeps its exact 64-bit integer, when it has one. */
  datatype Json =
    | Null
    | Boolean(flag: bool)
    | Number(exact: Option<int>)
    | String(text: Text)
    | List(items: seq<Json>)
    | Object

  /** Any hash function; Keccak-256 in the source. */
  datatype Hasher = Hasher(digest: seq<byte> -> seq<byte>)

  // ---------------------------------------------------------------- digits

  const MINUS: byte := 0x2D
  const ZERO: byte := 0x30
  const LOWER_X: byte := 0x78
  const UPPER_X: byte := 0x58

  predicate IsDigit(c: byte) {
    0x30 <= c <= 0x39
  }

  predicate IsHexDigit(c: byte) {
    IsDigit(c) || 0x41 <= c <= 0x46 || 0x61 <= c <= 0x66
  }

  /** Value of a decimal or hexadecimal digit of either case. */
  function Nibble(c: byte): (n: nat)
    requires IsHexDigit(c)
    ensures n < 16 && (IsDigit(c) <==> n < 10)
  {
    if IsDigit(c) then c - 0x30 else if c <= 0x46 then c - 0x41 + 10 else c - 0x61 + 10
  }

  function LowerDigit(n: nat): (c: byte)
    requires n < 16
    ensures IsHexDigit(c) && Nibble(c) == n && c < 0x80
  {
    if n < 10 then 0x30 + n else 0x61 + (n - 10)
  }

  function UpperDigit(n: nat): (c: byte)
    requires n < 16
    ensures IsHexDigit(c) && Nibble(c) == n && c < 0x80
  {
    if n < 10 then 0x30 + n else 0x41 + (n - 10)
  }

  predicate DigitsIn(s: seq<byte>, radix: nat) {
    forall i :: 0 <= i < |s| ==> if radix == 16 then IsHexDigit(s[i]) else IsDigit(s[i])
  }

  function ParseDigits(s: seq<byte>, radix: nat): nat
    requires DigitsIn(s, radix)
  {
    if |s| == 0 then 0 else radix * ParseDigits(s[..|s| - 1], radix) + Nibble(s[|s| - 1])
  }

  function Decimal(n: nat): (s: seq<byte>)
    ensures |s| >= 1 && DigitsIn(s, 10) && IsAscii(s) && s[0] != MINUS
  {
    if n < 10 then [LowerDigit(n)] else Decimal(n / 10) + [LowerDigit(n % 10)]
  }

  lemma {:induction false} ParseDecimal(n: nat)
    ensures ParseDigits(Decimal(n), 10) == n
  {
    if n < 10 {
      assert Decimal(n)[..0] == [];
    } else {
      ParseDecimal(n / 10);
      assert Decimal(n)[..|Decimal(n)| - 1] == Decimal(n / 10);
    }
  }

  lemma {:induction false} DecimalLength(n: nat, k: nat)
    requires k >= 1
    ensures n < Pow(10, k) <==> |Decimal(n)| <= k
  {
    if n < 10 {
      PowMonotone(10, 1, k);
    } else if k > 1 {
      DecimalLength(n / 10, k - 1);
    }
  }

  const U256: nat := 0x1_00000000_00000000_00000000_00000000_00000000_00000000_00000000_00000000

  lemma {:induction false} Pow256()
    ensures Pow(256, 8) == 0x1_00000000_00000000
    ensures Pow(256, 32) == U256
  {
    assert Pow(256, 4) == 0x1_00000000;
    PowAdd(256, 4, 4);
    assert Pow(256, 16) == 0x1_00000000_00000000_00000000_00000000 by {
      PowAdd(256, 8, 8);
    }
    PowAdd(256, 16, 16);
  }

  lemma {:induction false} Pow10()
    ensures Pow(10, 77) < U256 < Pow(10, 78)
  {
    assert Pow(10, 13) == 10000000000000 by {
      assert Pow(10, 6) == 1000000;
      assert Pow(10, 7) == 10000000;
      PowAdd(10, 6, 7);
    }
    assert Pow(10, 26) == 100000000000000000000000000 by {
      PowAdd(10, 13, 13);
    }
    assert Pow(10, 52) == 10000000000000000000000000000000000000000000000000000 by {
      PowAdd(10, 26, 26);
    }
    assert Pow(10, 78) == 1000000000000000000000000000000000000000000000000000000000000000000000000000000 by {
      PowAdd(10, 52, 26);
    }
    PowAdd(10, 1, 77);
  }

  lemma {:induction false} PowPow(b: nat, m: nat, n: nat)
    ensures Pow(b, m * n) == Pow(Pow(b, m), n)
  {
    if n == 0 {
    } else {
      PowPow(b, m, n - 1);
      PowAdd(b, m, m * (n - 1));
      assert m + m * (n - 1) == m * n;
    }
  }

  // ---------------------------------------------------------------- integers

  const SAFE_INTEGER: int := 9_007_199_254_740_991

  function SignedDecimal(negative: bool, n: nat): (s: Text) {
    var s := if negative then [MINUS] + Decimal(n) else Decimal(n);
    AsciiIsUtf8(s);
    s
  }

  function IntegerText(v: Json): Result<seq<byte>, AbiError> {
    match v
    case String(s) => Ok(s)
    case Number(Some(i)) =>
      if -SAFE_INTEGER <= i <= SAFE_INTEGER then Ok(SignedDecimal(i < 0, if i < 0 then -i else i)) else Err(Value)
    case _ => Err(Value)
  }

  /** Sign and magnitude written by an integer value, in decimal or `0x` hexadecimal. */
  function ReadInteger(v: Json): (r: Result<(bool, nat), AbiError>)
    ensures r.Err? ==> r.error == Value
    ensures r.Ok? ==> r.value.1 < U256
  {
    var text :- IntegerText(v);
    if |text| > 80 then Err(Value)
    else
      var negative := |text| > 0 && text[0] == MINUS;
      var magnitude := if negative then text[1..] else text;
      var hex := |magnitude| >= 2 && magnitude[0] == ZERO && (magnitude[1] == LOWER_X || magnitude[1] == UPPER_X);
      var digits := if hex then magnitude[2..] else magnitude;
      var radix := if hex then 16 else 10;
      if digits == [] || !DigitsIn(digits, radix) then Err(Value)
      else
        var n := ParseDigits(digits, radix);
        if n >= U256 then Err(Value) else Ok((negative, n))
  }

  /** The two's-complement word of an integer value of the given width (value.rs, `integer`). */
  function IntegerWord(v: Json, signed: bool, bits: nat): (r: Result<seq<byte>, AbiError>)
    requires PrimitiveWidth(Int(signed, bits))
    ensures r.Ok? ==> |r.value| == 32
    ensures r.Err? ==> r.error == Value
  {
    var (negative, n) :- ReadInteger(v);
    if negative && n != 0 then
      if !signed || n > Pow(2, bits - 1) then Err(Value) else Ok(ToBe(U256 - n, 32))
    else if n >= Pow(2, bits - if signed then 1 else 0) then Err(Value)
    else Ok(ToBe(n, 32))
  }

  /** The decimal text of a word, refused unless it is sign- or zero-extended from `bits`. */
  function IntegerOfWord(w: seq<byte>, signed: bool, bits: nat): (r: Result<Text, AbiError>)
    requires |w| == 32 && PrimitiveWidth(Int(signed, bits))
    ensures r.Err? ==> r.error == Encoding
  {
    var start := 32 - bits / 8;
    var negative := signed && w[start] >= 128;
    if !All(w[..start], if negative then 255 else 0) then Err(Encoding)
    else
      Pow256();
      BeNatBound(w);
      Ok(SignedDecimal(negative, if negative then U256 - BeNat(w) else BeNat(w)))
  }

  lemma {:induction false} TopDigit(n: nat, b: nat, lo: nat, unit: nat)
    requires lo < unit && n == b * unit + lo
    ensures b < 128 <==> n < 128 * unit
  {
    if b < 128 {
      MulMonotone(b + 1, 128, unit);
    } else {
      MulMonotone(128, b, unit);
    }
  }

  /** Which half of its range the first byte puts a big-endian number in. */
  lemma {:induction false} LeadingHalf(s: seq<byte>)
    requires |s| >= 1
    ensures s[0] < 128 <==> BeNat(s) < 128 * Pow(256, |s| - 1)
  {
    assert BeNat(s[..1]) == s[0] by {
      assert s[..1][..0] == [];
    }
    BeNatSplitParts(s, 1);
    TopDigit(BeNat(s), s[0], BeNat(s[1..]), Pow(256, |s| - 1));
  }

  lemma {:induction false} HalfPower(m: nat)
    requires m >= 1
    ensures Pow(2, 8 * m) == 256 * Pow(256, m - 1)
    ensures Pow(2, 8 * m - 1) == 128 * Pow(256, m - 1)
  {
    assert Pow(2, 8) == 256;
    PowPow(2, 8, m);
    PowAdd(2, 1, 8 * m - 1);
  }

  /** Zero extension and sign extension, as bounds on the word's value. */
  lemma {:induction false} ExtensionIsRange(w: seq<byte>, m: nat)
    requires |w| == 32 && 1 <= m <= 32
    ensures All(w[..32 - m], 0) <==> BeNat(w) < Pow(2, 8 * m)
    ensures All(w[..32 - m], 0) && w[32 - m] < 128 <==> BeNat(w) < Pow(2, 8 * m - 1)
    ensures All(w[..32 - m], 255) && w[32 - m] >= 128 <==> BeNat(w) >= U256 - Pow(2, 8 * m - 1)
  {
    hide BeNat, Pow;
    var rest := w[32 - m..];
    Pow256();
    HalfPower(m);
    BeNatPrefixZero(w, 32 - m);
    BeNatPrefixOnes(w, 32 - m);
    LeadingHalf(rest);
    PowStep(256, m);
  }

  lemma {:induction false} PowStep(b: nat, n: nat)
    requires n > 0
    ensures Pow(b, n) == b * Pow(b, n - 1)
  {
  }

  lemma {:induction false} ReadSignedDecimal(negative: bool, n: nat)
    requires n < U256
    ensures ReadInteger(String(SignedDecimal(negative, n))) == Ok((negative, n))
  {
    hide Pow, Decimal, ParseDigits;
    Pow10();
    DecimalLength(n, 78);
    ParseDecimal(n);
    var text := SignedDecimal(negative, n);
    assert (if negative then text[1..] else text) == Decimal(n);
  }

  lemma {:induction false} WordOfIntegerOfWord(w: seq<byte>, signed: bool, bits: nat)
    requires |w| == 32 && PrimitiveWidth(Int(signed, bits))
    requires IntegerOfWord(w, signed, bits).Ok?
    ensures IntegerWord(String(IntegerOfWord(w, signed, bits).value), signed, bits) == Ok(w)
  {
    hide Pow, ToBe, BeNat, SignedDecimal, ReadInteger, All;
    var m := bits / 8;
    var negative := signed && w[32 - m] >= 128;
    ExtensionIsRange(w, m);
    Pow256();
    BeNatBound(w);
    ToBeOfBeNat(w);
    assert 8 * m == bits;
    PowPositive(2, bits - 1);
    ReadSignedDecimal(negative, if negative then U256 - BeNat(w) else BeNat(w));
  }

  predicate InRange(negative: bool, n: nat, signed: bool, bits: nat)
    requires bits >= 1
  {
    if negative then signed && 0 < n <= Pow(2, bits - 1) else n < Pow(2, bits - if signed then 1 else 0)
  }

  lemma {:induction false} IntegerOfRange(w: seq<byte>, negative: bool, n: nat, signed: bool, bits: nat)
    requires |w| == 32 && PrimitiveWidth(Int(signed, bits))
    requires InRange(negative, n, signed, bits) && BeNat(w) == if negative then U256 - n else n
    ensures IntegerOfWord(w, signed, bits) == Ok(SignedDecimal(negative, n))
  {
    hide Pow, BeNat, SignedDecimal, All;
    var m := bits / 8;
    WidthBound(bits);
    assert 8 * m == bits;
    ExtensionIsRange(w, m);
    assert signed && w[32 - m] >= 128 <==> negative;
  }

  lemma {:induction false} IntegerOfTwosComplement(negative: bool, n: nat, signed: bool, bits: nat)
    requires PrimitiveWidth(Int(signed, bits)) && InRange(negative, n, signed, bits)
    ensures n < U256
    ensures IntegerOfWord(ToBe(if negative then U256 - n else n, 32), signed, bits) == Ok(SignedDecimal(negative, n))
  {
    hide Pow, ToBe, BeNat, SignedDecimal, IntegerOfWord;
    WidthBound(bits);
    var x := if negative then U256 - n else n;
    var w := ToBe(x, 32);
    assert BeNat(w) == x by {
      Pow256();
      BeNatOfToBe(x, 32);
    }
    IntegerOfRange(w, negative, n, signed, bits);
  }

  lemma {:induction false} IntegerOfWordOfInteger(v: Json, signed: bool, bits: nat)
    requires PrimitiveWidth(Int(signed, bits)) && IntegerWord(v, signed, bits).Ok?
    ensures var (negative, n) := ReadInteger(v).value;
            IntegerOfWord(IntegerWord(v, signed, bits).value, signed, bits)
            == Ok(SignedDecimal(negative && n != 0, n))
  {
    hide Pow, ToBe, SignedDecimal, ReadInteger, IntegerOfWord;
    var (negative, n) := ReadInteger(v).value;
    IntegerOfTwosComplement(negative && n != 0, n, signed, bits);
  }

  lemma {:induction false} WidthBound(bits: nat)
    requires 1 <= bits <= 256
    ensures 2 * Pow(2, bits - 1) == Pow(2, bits) <= U256
  {
    assert Pow(2, 256) == U256 by {
      Pow256();
      assert Pow(2, 8) == 256;
      PowPow(2, 8, 32);
    }
    PowMonotone(2, bits, 256);
  }

  // ---------------------------------------------------------------- hexadecimal bytes

  function NibbleAt(b: seq<byte>, i: nat): (n: nat)
    requires i < 2 * |b|
    ensures n < 16
  {
    if i % 2 == 0 then b[i / 2] / 16 else b[i / 2] % 16
  }

  function HexDigits(b: seq<byte>): (s: seq<byte>)
    ensures |s| == 2 * |b| && IsAscii(s)
  {
    seq(2 * |b|, i requires 0 <= i < 2 * |b| => LowerDigit(NibbleAt(b, i)))
  }

  function FromNibbles(d: seq<byte>): (b: seq<byte>)
    requires |d| % 2 == 0 && DigitsIn(d, 16)
    ensures |b| == |d| / 2
  {
    seq(|d| / 2, i requires 0 <= i < |d| / 2 => 16 * Nibble(d[2 * i]) + Nibble(d[2 * i + 1]))
  }

  predicate HasHexPrefix(s: seq<byte>) {
    |s| >= 2 && s[0] == ZERO && s[1] == LOWER_X
  }

  function ToHex(b: seq<byte>): (s: Text)
    ensures |s| == 2 * |b| + 2 && s == [ZERO, LOWER_X] + HexDigits(b)
  {
    var s := [ZERO, LOWER_X] + HexDigits(b);
    AsciiIsUtf8(s);
    s
  }

  function DecodeHex(v: Json): (r: Result<seq<byte>, AbiError>)
    ensures r.Err? ==> r.error == Value
  {
    if !v.String? || !HasHexPrefix(v.text) then Err(Value)
    else
      var digits := v.text[2..];
      if |digits| % 2 != 0 || !DigitsIn(digits, 16) || |digits| / 2 > MAX_DATA_BYTES then Err(Value)
      else Ok(FromNibbles(digits))
  }

  lemma {:induction false} HexIsText(v: Json)
    ensures DecodeHex(v).Ok? ==> v.String?
  {
  }

  lemma {:induction false} NibblesOfHexDigits(b: seq<byte>)
    ensures FromNibbles(HexDigits(b)) == b && DigitsIn(HexDigits(b), 16)
  {
    var d := HexDigits(b);
    forall i | 0 <= i < |b| ensures FromNibbles(d)[i] == b[i] {
      assert Nibble(d[2 * i]) == NibbleAt(b, 2 * i) == b[i] / 16;
      assert Nibble(d[2 * i + 1]) == NibbleAt(b, 2 * i + 1) == b[i] % 16;
    }
  }

  lemma {:induction false} DecodeHexOfToHex(b: seq<byte>)
    ensures DecodeHex(String(ToHex(b))) == if |b| <= MAX_DATA_BYTES then Ok(b) else Err(Value)
  {
    hide HexDigits, FromNibbles, DigitsIn;
    assert ToHex(b)[2..] == HexDigits(b);
    NibblesOfHexDigits(b);
  }

  // ---------------------------------------------------------------- addresses

  /** The `0x`-prefixed checksum spelling: a digit is upper case where the hash nibble is at least 8. */
  function ChecksumText(a: seq<byte>, h: Hasher): (s: Text)
    requires |a| == 20
    ensures |s| == 42 && HasHexPrefix(s) && DigitsIn(s[2..], 16)
    ensures forall i :: 0 <= i < 40 ==> Nibble(s[2..][i]) == NibbleAt(a, i)
  {
    var hash := h.digest(HexDigits(a));
    var s := [ZERO, LOWER_X] + seq(40, i requires 0 <= i < 40 =>
      if i < 2 * |hash| && NibbleAt(hash, i) >= 8 then UpperDigit(NibbleAt(a, i)) else LowerDigit(NibbleAt(a, i)));
    AsciiIsUtf8(s);
    s
  }

  predicate HasLower(s: seq<byte>) {
    exists i :: 0 <= i < |s| && 0x61 <= s[i] <= 0x66
  }

  predicate HasUpper(s: seq<byte>) {
    exists i :: 0 <= i < |s| && 0x41 <= s[i] <= 0x46
  }

  /** Parse 40 hex digits with an optional prefix; mixed case must be the exact checksum. */
  function ParseAddress(v: Json, h: Hasher): (r: Result<seq<byte>, AbiError>)
    ensures r.Ok? ==> |r.value| == 20
    ensures r.Err? ==> r.error == Value
  {
    if !v.String? then Err(Value)
    else
      var hex := if HasHexPrefix(v.text) then v.text[2..] else v.text;
      if |hex| != 40 || !DigitsIn(hex, 16) then Err(Value)
      else
        var a := FromNibbles(hex);
        if HasLower(hex) && HasUpper(hex) && ChecksumText(a, h)[2..] != hex then Err(Value) else Ok(a)
  }

  lemma {:induction false} NibblesAt(b: seq<byte>, i: nat)
    requires i < |b|
    ensures NibbleAt(b, 2 * i) == b[i] / 16 && NibbleAt(b, 2 * i + 1) == b[i] % 16
  {
  }

  lemma {:induction false} ParseAddressOfChecksum(a: seq<byte>, h: Hasher)
    requires |a| == 20
    ensures ParseAddress(String(ChecksumText(a, h)), h) == Ok(a)
  {
    hide ChecksumText, NibbleAt;
    var s := ChecksumText(a, h)[2..];
    forall i | 0 <= i < 20
      ensures FromNibbles(s)[i] == a[i]
    {
      NibblesAt(a, i);
      assert Nibble(s[2 * i]) == NibbleAt(a, 2 * i) && Nibble(s[2 * i + 1]) == NibbleAt(a, 2 * i + 1);
    }
    assert FromNibbles(s) == a;
  }

  // ---------------------------------------------------------------- one-word primitives

  predicate IsWordKind(kind: Kind) {
    kind.Bool? || kind.Int? || kind.Address? || kind.FixedBytes?
  }

  /** The 32-byte word of a primitive value (codec.rs, `primitive_word`). */
  function PrimitiveWord(kind: Kind, v: Json, h: Hasher): (r: Result<seq<byte>, AbiError>)
    requires PrimitiveWidth(kind)
    ensures r.Ok? ==> |r.value| == 32
    ensures r.Err? ==> r.error == Value
  {
    match kind
    case Int(signed, bits) => IntegerWord(v, signed, bits)
    case Bool => if v.Boolean? then Ok(Zeros(31) + [if v.flag then 1 else 0]) else Err(Value)
    case Address =>
      var a :- ParseAddress(v, h);
      Ok(Zeros(12) + a)
    case FixedBytes(n) =>
      var b :- DecodeHex(v);
      if |b| != n then Err(Value) else Ok(b + Zeros(32 - n))
    case _ => Err(Value)
  }

  /** The value of a primitive word, refused unless the padding is canonical (codec.rs, `decode`). */
  function PrimitiveOfWord(kind: Kind, w: seq<byte>, h: Hasher): (r: Result<Json, AbiError>)
    requires |w| == 32 && PrimitiveWidth(kind)
    ensures r.Err? ==> r.error == Encoding
  {
    match kind
    case Int(signed, bits) =>
      var text :- IntegerOfWord(w, signed, bits);
      Ok(String(text))
    case Bool => if !All(w[..31], 0) || w[31] > 1 then Err(Encoding) else Ok(Boolean(w[31] == 1))
    case Address => if !All(w[..12], 0) then Err(Encoding) else Ok(String(ChecksumText(w[12..], h)))
    case FixedBytes(n) => if !All(w[n..], 0) then Err(Encoding) else Ok(String(ToHex(w[..n])))
    case _ => Err(Encoding)
  }

  /** The value the decoder prints for a primitive value that the encoder accepts. */
  function CanonicalPrimitive(kind: Kind, v: Json, h: Hasher): Json
    requires PrimitiveWidth(kind) && PrimitiveWord(kind, v, h).Ok?
  {
    match kind
    case Int(_, _) =>
      var (negative, n) := ReadInteger(v).value;
      String(SignedDecimal(negative && n != 0, n))
    case Address => String(ChecksumText(ParseAddress(v, h).value, h))
    case FixedBytes(_) => String(ToHex(DecodeHex(v).value))
    case _ => v
  }

  /** A word that decodes is the word its printed value encodes to. */
  lemma {:induction false} WordRoundTrip(kind: Kind, w: seq<byte>, h: Hasher)
    requires |w| == 32 && PrimitiveWidth(kind) && PrimitiveOfWord(kind, w, h).Ok?
    ensures PrimitiveWord(kind, PrimitiveOfWord(kind, w, h).value, h) == Ok(w)
    ensures CanonicalPrimitive(kind, PrimitiveOfWord(kind, w, h).value, h) == PrimitiveOfWord(kind, w, h).value
  {
    match kind
    case Int(signed, bits) =>
      WordOfIntegerOfWord(w, signed, bits);
      IntegerOfWordOfInteger(PrimitiveOfWord(kind, w, h).value, signed, bits);
    case Bool =>
      assert w == Zeros(31) + [w[31]];
    case Address =>
      ParseAddressOfChecksum(w[12..], h);
      assert w == w[..12] + w[12..] && w[..12] == Zeros(12);
    case FixedBytes(n) =>
      FixedBytesRoundTrip(n, w, h);
  }

  lemma {:induction false} FixedBytesRoundTrip(n: nat, w: seq<byte>, h: Hasher)
    requires |w| == 32 && 1 <= n <= 32 && All(w[n..], 0)
    ensures DecodeHex(String(ToHex(w[..n]))) == Ok(w[..n])
    ensures w == w[..n] + Zeros(32 - n)
  {
    DecodeHexOfToHex(w[..n]);
    assert w[n..] == Zeros(32 - n);
    assert w == w[..n] + w[n..];
  }

  /** A primitive value that encodes decodes to its canonical spelling. */
  lemma {:induction false} PrimitiveRoundTrip(kind: Kind, v: Json, h: Hasher)
    requires PrimitiveWidth(kind) && PrimitiveWord(kind, v, h).Ok?
    ensures PrimitiveOfWord(kind, PrimitiveWord(kind, v, h).value, h) == Ok(CanonicalPrimitive(kind, v, h))
  {
    var w := PrimitiveWord(kind, v, h).value;
    match kind
    case Int(signed, bits) =>
      IntegerOfWordOfInteger(v, signed, bits);
    case Bool =>
      assert w[..31] == Zeros(31);
    case Address =>
      assert w[..12] == Zeros(12) && w[12..] == ParseAddress(v, h).value;
    case FixedBytes(n) =>
      assert w[..n] == DecodeHex(v).value && w[n..] == Zeros(32 - n);
  }
}
