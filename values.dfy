/**
 * The closed set of value kinds a record can hold, the canonical text parser of each kind
 * (Rust's `FromStr`, used by SET) and its display form (Rust's `Display`, used by GET).
 *
 * The store keeps values behind `Box<dyn Any>` and recovers them by an exact-type downcast;
 * here a value is a tagged union and its tag is the type it was stored as.
 */
module Values {
  import opened Wrappers

  /** Bit widths of Rust's fixed-width integers; `isize` and `usize` are fixed at 64 bits. */
  datatype Width = W8 | W16 | W32 | W64 | W128 | WSize

  /** One tag per Rust type the dispatcher instantiates the store with. */
  datatype Tag =
    | Signed(width: Width)     // i8 .. i128, isize
    | Unsigned(width: Width)   // u8 .. u128, usize
    | BigInt                   // num::BigInt
    | F32 | F64
    | Bool | Char | Str        // bool, char, String
    | Bytes                    // Vec<u8>
  {
    predicate IsInteger() { Signed? || Unsigned? || BigInt? }
    predicate IsFloat() { F32? || F64? }
  }

  /** 2 to the number of bits of the width. */
  function Limit(w: Width): nat
  {
    match w
    case W8 => 0x100
    case W16 => 0x1_0000
    case W32 => 0x1_0000_0000
    case W64 => 0x1_0000_0000_0000_0000
    case W128 => 0x1_0000_0000_0000_0000_0000_0000_0000_0000
    case WSize => 0x1_0000_0000_0000_0000
  }

  /** The values of an integer type: two's-complement or unsigned range, unbounded for BigInt. */
  predicate InRange(t: Tag, n: int)
    requires t.IsInteger()
  {
    match t
    case Signed(w) => -(Limit(w) / 2) <= n < Limit(w) / 2
    case Unsigned(w) => 0 <= n < Limit(w)
    case BigInt => true
  }

  /** u64, the type of TTL seconds and of trie counters. */
  const U64: Tag := Unsigned(W64)

  datatype Value =
    | IntVal(tag: Tag, n: int)        // every integer type and BigInt
    | FloatVal(tag: Tag, bits: nat)   // f32 / f64, an opaque IEEE bit pattern
    | BoolVal(b: bool)
    | CharVal(c: char)
    | StrVal(s: string)
    | BytesVal(bytes: string)         // one character per byte

  /** The type a value was stored as: what `downcast_ref::<T>` compares against. */
  function KindOf(v: Value): Tag
  {
    match v
    case IntVal(t, _) => t
    case FloatVal(t, _) => t
    case BoolVal(_) => Bool
    case CharVal(_) => Char
    case StrVal(_) => Str
    case BytesVal(_) => Bytes
  }

  /** A value its Rust type can hold. */
  predicate WellFormed(v: Value)
  {
    match v
    case IntVal(t, n) => t.IsInteger() && InRange(t, n)
    case FloatVal(t, _) => t.IsFloat()
    case _ => true
  }

  /**
   * Floating point is foreign here: parsing (`f32::from_str`), addition and display of the
   * bit patterns are supplied by the caller.
   */
  datatype FloatOps = FloatOps(
    parse: (Tag, string) -> Option<nat>,
    add: (Tag, nat, nat) -> nat,
    show: (Tag, nat) -> string)

  /** `T::default()` for f32 and f64: positive zero, all bits clear. */
  const FloatZero: nat := 0

  /** Stand-in for `std::any::type_name::<T>()`: the dispatch spelling of each type. */
  function TypeName(t: Tag): string
  {
    match t
    case Signed(W8) => "i8"
    case Signed(W16) => "i16"
    case Signed(W32) => "i32"
    case Signed(W64) => "i64"
    case Signed(W128) => "i128"
    case Signed(WSize) => "isize"
    case Unsigned(W8) => "u8"
    case Unsigned(W16) => "u16"
    case Unsigned(W32) => "u32"
    case Unsigned(W64) => "u64"
    case Unsigned(W128) => "u128"
    case Unsigned(WSize) => "usize"
    case BigInt => "BigInt"
    case F32 => "f32"
    case F64 => "f64"
    case Bool => "bool"
    case Char => "char"
    case Str => "String"
    case Bytes => "Vec<u8>"
  }

  /** The type named by a SET/GET tag in the server's dispatch list; None for any other word. */
  function TagOfName(name: string): (r: Option<Tag>)
    ensures r.Some? ==> r.value != Bytes && TypeName(r.value) == name
  {
    if name == "i8" then Some(Signed(W8))
    else if name == "i16" then Some(Signed(W16))
    else if name == "i32" then Some(Signed(W32))
    else if name == "i64" then Some(Signed(W64))
    else if name == "i128" then Some(Signed(W128))
    else if name == "u8" then Some(Unsigned(W8))
    else if name == "u16" then Some(Unsigned(W16))
    else if name == "u32" then Some(Unsigned(W32))
    else if name == "u64" then Some(Unsigned(W64))
    else if name == "u128" then Some(Unsigned(W128))
    else if name == "isize" then Some(Signed(WSize))
    else if name == "usize" then Some(Unsigned(WSize))
    else if name == "BigInt" then Some(BigInt)
    else if name == "f32" then Some(F32)
    else if name == "f64" then Some(F64)
    else if name == "bool" then Some(Bool)
    else if name == "char" then Some(Char)
    else if name == "String" then Some(Str)
    else None
  }

  /** Every type except Vec<u8> is reached by its own name, and Vec<u8> by no name. */
  lemma TagOfNameInverts(t: Tag)
    ensures t != Bytes ==> TagOfName(TypeName(t)) == Some(t)
    ensures TagOfName(TypeName(Bytes)) == None
  {
  }

  /** No two types share a name, so a stored type name tells the type. */
  lemma TypeNameInjective(a: Tag, b: Tag)
    requires TypeName(a) == TypeName(b)
    ensures a == b
  {
    TagOfNameInverts(a);
    TagOfNameInverts(b);
  }

  // ---------------------------------------------------------------------------------------
  // Decimal digits

  predicate IsDigit(c: char) { '0' <= c <= '9' }

  predicate AllDigits(s: string) { forall i :: 0 <= i < |s| ==> IsDigit(s[i]) }

  function DigitValue(c: char): nat
    requires IsDigit(c)
  {
    c as int - '0' as int
  }

  function DigitChar(d: nat): (c: char)
    requires d < 10
    ensures IsDigit(c) && DigitValue(c) == d
  {
    ('0' as int + d) as char
  }

  /** The number a run of decimal digits denotes, most significant first. */
  function DecimalValue(s: string): nat
    requires AllDigits(s)
    decreases |s|
  {
    if s == [] then 0 else 10 * DecimalValue(s[..|s| - 1]) + DigitValue(s[|s| - 1])
  }

  /** `Display` of an unsigned integer: decimal, no sign, no leading zeros. */
  function NatToString(n: nat): string
    decreases n
  {
    if n < 10 then [DigitChar(n)] else NatToString(n / 10) + [DigitChar(n % 10)]
  }

  /** `Display` of a signed integer. */
  function IntToString(n: int): string
  {
    if n < 0 then "-" + NatToString(-n) else NatToString(n)
  }

  lemma {:induction false} NatToStringDigits(n: nat)
    ensures |NatToString(n)| >= 1 && AllDigits(NatToString(n))
    ensures DecimalValue(NatToString(n)) == n
    decreases n
  {
    if n >= 10 {
      NatToStringDigits(n / 10);
      var s := NatToString(n);
      assert s[..|s| - 1] == NatToString(n / 10);
    }
  }

  // ---------------------------------------------------------------------------------------
  // The canonical parsers

  /**
   * `<T as FromStr>::from_str` for the integer types, radix 10: a lone sign is rejected; a
   * leading `+` is skipped; a leading `-` is a sign only for signed types (an unsigned type
   * then sees it as a bad digit); the rest must be one or more ASCII digits whose value fits.
   */
  function ParseInteger(t: Tag, s: string): (r: Option<int>)
    requires t.IsInteger()
    ensures r.Some? ==> InRange(t, r.value)
  {
    if |s| == 0 then None
    else if (s[0] == '+' || s[0] == '-') && |s| == 1 then None
    else
      var negative := s[0] == '-' && !t.Unsigned?;
      var digits := if s[0] == '+' || negative then s[1..] else s;
      if !AllDigits(digits) then None
      else
        var value: int := DecimalValue(digits);
        var n := if negative then -value else value;
        if InRange(t, n) then Some(n) else None
  }

  /** Every value of an integer type survives display followed by parsing. */
  lemma IntegerRoundTrip(t: Tag, n: int)
    requires t.IsInteger() && InRange(t, n)
    ensures ParseInteger(t, IntToString(n)) == Some(n)
  {
    var m: nat := if n < 0 then -n else n;
    NatToStringDigits(m);
    var s := IntToString(n);
    if n < 0 {
      assert s[1..] == NatToString(m);
    } else {
      assert IsDigit(s[0]);
    }
  }

  /** `bool::from_str`: exactly "true" or "false". */
  function ParseBool(s: string): Option<bool>
  {
    if s == "true" then Some(true) else if s == "false" then Some(false) else None
  }

  /** `char::from_str`: exactly one character. */
  function ParseChar(s: string): Option<char>
  {
    if |s| == 1 then Some(s[0]) else None
  }

  /** The parse a typed SET applies to its text; Vec<u8> has no parser (SET stores it raw). */
  function Parse(t: Tag, s: string, fl: FloatOps): (r: Option<Value>)
    requires t != Bytes
    ensures r.Some? ==> KindOf(r.value) == t && WellFormed(r.value)
  {
    match t
    case Signed(_) | Unsigned(_) | BigInt =>
      (match ParseInteger(t, s) case Some(n) => Some(IntVal(t, n)) case None => None)
    case F32 | F64 =>
      (match fl.parse(t, s) case Some(b) => Some(FloatVal(t, b)) case None => None)
    case Bool => (match ParseBool(s) case Some(b) => Some(BoolVal(b)) case None => None)
    case Char => (match ParseChar(s) case Some(c) => Some(CharVal(c)) case None => None)
    case Str => Some(StrVal(s))
  }

  /** `Display` of a stored value; a byte vector is written out verbatim. */
  function Show(v: Value, fl: FloatOps): string
  {
    match v
    case IntVal(_, n) => IntToString(n)
    case FloatVal(t, b) => fl.show(t, b)
    case BoolVal(b) => if b then "true" else "false"
    case CharVal(c) => [c]
    case StrVal(s) => s
    case BytesVal(bytes) => bytes
  }

  /**
   * The display form of a value is text its own type parses back to the same value, so
   * whatever GET prints, a SET of that text with the same tag restores.
   */
  lemma ShowParseRoundTrip(v: Value, fl: FloatOps)
    requires WellFormed(v) && !v.FloatVal? && !v.BytesVal?
    ensures Parse(KindOf(v), Show(v, fl), fl) == Some(v)
  {
    if v.IntVal? {
      IntegerRoundTrip(v.tag, v.n);
    }
  }
}
