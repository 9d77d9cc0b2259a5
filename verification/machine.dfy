/**
 The machine integers and C strings of the program.

 Dafny's `int` is unbounded, so every C conversion that can lose bits is a
 function here. A C string is a `string` that holds no NUL character; the
 subset types say how long a `char` array of the program can make one.
 */
module Machine {

  const TWO_31: int := 0x8000_0000
  const TWO_32: int := 0x1_0000_0000
  const TWO_63: int := 0x8000_0000_0000_0000
  const TWO_64: int := 0x1_0000_0000_0000_0000

  type U32 = x: int | 0 <= x < 0x1_0000_0000
  type U64 = x: int | 0 <= x < 0x1_0000_0000_0000_0000
  type I32 = x: int | -0x8000_0000 <= x < 0x8000_0000
  type I64 = x: int | -0x8000_0000_0000_0000 <= x < 0x8000_0000_0000_0000

  type CString = s: string | '\0' !in s
  /** What a `char[65]` field can hold. */
  type Text64 = s: string | |s| <= 64 && '\0' !in s
  /** What a `char[129]` field can hold. */
  type Text128 = s: string | |s| <= 128 && '\0' !in s

  datatype Option<+T> = None | Some(value: T)

  function ToU32(x: int): U32 { x % TWO_32 }

  function ToU64(x: int): U64 { x % TWO_64 }

  function ToI32(x: int): I32 {
    var m := x % TWO_32;
    if m < TWO_31 then m else m - TWO_32
  }

  function ToI64(x: int): I64 {
    var m := x % TWO_64;
    if m < TWO_63 then m else m - TWO_64
  }

  // The operations of the program; their operands are machine integers already.

  /** `uint64_t` addition. */
  function AddU64(x: U64, y: U64): U64 {
    if x + y < TWO_64 then x + y else x + y - TWO_64
  }

  /** `(int64_t)` of a `uint64_t`. */
  function AsSigned(x: U64): I64 {
    if x < TWO_63 then x else x - TWO_64
  }

  function WrapSigned(x: int): I64
    requires -TWO_64 <= x < TWO_64
  {
    if x < -TWO_63 then x + TWO_64 else if x < TWO_63 then x else x - TWO_64
  }

  /** `int64_t` addition and subtraction, taking overflow to wrap. */
  function AddI64(x: I64, y: I64): I64 { WrapSigned(x + y) }

  function SubI64(x: I64, y: I64): I64 { WrapSigned(x - y) }

  lemma ModCongruence(x: int, y: int, k: int, m: int)
    requires m > 0 && x == y + k * m
    ensures x % m == y % m
  {
    var q, r := y / m, y % m;
    assert x == (q + k) * m + r;
    QuotientUnique(x, q + k, r, m);
  }

  lemma QuotientUnique(x: int, q: int, r: int, m: int)
    requires m > 0 && x == q * m + r && 0 <= r < m
    ensures x / m == q && x % m == r
  {
    var d := x / m - q;
    assert d * m == r - x % m;
    MultipleAtLeast(d, m);
  }

  lemma MultipleAtLeast(d: int, m: int)
    requires m > 0
    ensures d >= 1 ==> d * m >= m
    ensures d <= -1 ==> d * m <= -m
  {
  }

  /** The signed reading of a number is the only one of its class in range. */
  lemma SignedIs(x: int, y: I64, k: int)
    requires x == y + k * TWO_64
    ensures ToI64(x) == y
  {
    ModCongruence(x, y, k, TWO_64);
  }

  lemma SignedClass(x: int) returns (k: int)
    ensures x == ToI64(x) + k * TWO_64
  {
    k := x / TWO_64 + if x % TWO_64 < TWO_63 then 0 else 1;
  }

  /** Machine addition is exact up to whole multiples of 2^64. */
  lemma AddExact(x: int, amount: U64)
    ensures AddI64(ToI64(x), AsSigned(amount)) == ToI64(x + amount)
  {
    var k := SignedClass(x);
    var sum := ToI64(x) + AsSigned(amount);
    var j := (if sum < -TWO_63 then -1 else if sum < TWO_63 then 0 else 1) + if amount < TWO_63 then 0 else 1;
    SignedIs(x + amount, AddI64(ToI64(x), AsSigned(amount)), k + j);
  }

  lemma SubExact(x: int, a: U64, b: U64)
    ensures SubI64(ToI64(x), AsSigned(AddU64(a, b))) == ToI64(x - (a + b))
  {
    var k := SignedClass(x);
    var cost := AddU64(a, b);
    var difference := ToI64(x) - AsSigned(cost);
    var j := (if difference < -TWO_63 then -1 else if difference < TWO_63 then 0 else 1)
             - (if a + b < TWO_64 then 0 else 1) - if cost < TWO_63 then 0 else 1;
    SignedIs(x - (a + b), SubI64(ToI64(x), AsSigned(cost)), k + j);
  }

  lemma ToI32Exact(x: int)
    ensures ToI32(x) == x <==> -TWO_31 <= x < TWO_31
  {
  }

  lemma ToI64Exact(x: int)
    ensures ToI64(x) == x <==> -TWO_63 <= x < TWO_63
  {
  }
}
