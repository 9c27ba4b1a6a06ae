/** Values shared by every component: optional results and Go's fixed-width integers. */
module Machine {

  datatype Option<+T> = None | Some(value: T)

  datatype Result<+T, +E> = Ok(value: T) | Err(error: E) {
    predicate IsFailure() {
      Err?
    }

    function PropagateFailure<U>(): Result<U, E>
      requires Err?
    {
      Err(error)
    }

    function Extract(): T
      requires Ok?
    {
      value
    }

    function ToOption(): Option<T> {
      match this
      case Ok(v) => Some(v)
      case Err(_) => None
    }
  }

  const TWO_32: nat := 0x1_0000_0000
  const TWO_63: nat := 0x8000_0000_0000_0000
  const TWO_64: nat := 0x1_0000_0000_0000_0000

  type byte = b: int | 0 <= b < 0x100
  type uint32 = x: int | 0 <= x < 0x1_0000_0000
  type uint64 = x: int | 0 <= x < 0x1_0000_0000_0000_0000
  type int64 = x: int | -0x8000_0000_0000_0000 <= x < 0x8000_0000_0000_0000

  /** A Go string or byte slice. */
  type Bytes = seq<byte>

  /** The conversion `int64(u)`: the same 64 bits read in two's complement. */
  function AsInt64(u: uint64): (i: int64)
    ensures AsUint64(i) == u
  {
    if u < TWO_63 then u else u - TWO_64
  }

  /** The conversion `uint64(i)`. */
  function AsUint64(i: int64): uint64 {
    if i < 0 then i + TWO_64 else i
  }

  /** The sum of two `int` values as a 64-bit machine computes it. */
  function AddInt(a: int64, b: int64): (s: int64)
    ensures 0 <= a && 0 <= b ==> if a + b < TWO_63 then s == a + b else s < 0
  {
    AsInt64((a + b) % TWO_64)
  }

  lemma Assoc(a: Bytes, b: Bytes, c: Bytes)
    ensures a + (b + c) == (a + b) + c
  {
  }

  /** `strings.Compare(a, b) <= 0`: the order of strings and of store keys. */
  predicate BytesLe(a: Bytes, b: Bytes) {
    if a == [] then true
    else if b == [] then false
    else if a[0] != b[0] then a[0] < b[0]
    else BytesLe(a[1..], b[1..])
  }

  function Mapped<K, J>(f: K -> J, ks: seq<K>): (js: seq<J>)
    ensures |js| == |ks|
  {
    seq(|ks|, i requires 0 <= i < |ks| => f(ks[i]))
  }

  function Pow2(k: nat): (p: nat)
    ensures p > 0
  {
    if k == 0 then 1 else 2 * Pow2(k - 1)
  }

  lemma {:induction false} Pow2Add(a: nat, b: nat)
    ensures Pow2(a + b) == Pow2(a) * Pow2(b)
  {
    if a > 0 {
      Pow2Add(a - 1, b);
      DoubleProduct(Pow2(a - 1), Pow2(b));
    }
  }

  lemma DoubleProduct(x: nat, y: nat)
    ensures 2 * (x * y) == (2 * x) * y
  {
  }

  lemma Pow2Square(k: nat, p: nat)
    requires Pow2(k) == p
    ensures Pow2(2 * k) == p * p
  {
    Pow2Add(k, k);
  }

  lemma Pow2Widths()
    ensures Pow2(32) == TWO_32 && Pow2(64) == TWO_64
  {
    assert Pow2(8) == 0x100;
    hide Pow2;
    Pow2Square(8, 0x100);
    Pow2Square(16, 0x1_0000);
    Pow2Square(32, TWO_32);
  }

  /** The bitwise `|` of two non-negative integers. */
  function BitOr(a: nat, b: nat): nat {
    if a == 0 then b
    else if b == 0 then a
    else (if a % 2 == 1 || b % 2 == 1 then 1 else 0) + 2 * BitOr(a / 2, b / 2)
  }

  /** Or-ing in bits that all lie above the bits of `a` adds them. */
  lemma {:induction false} BitOrAbove(a: nat, c: nat, k: nat)
    requires a < Pow2(k)
    ensures BitOr(a, c * Pow2(k)) == a + c * Pow2(k)
  {
    if k == 0 || c == 0 || a == 0 {
    } else {
      var p := Pow2(k - 1);
      assert c * Pow2(k) == 2 * (c * p);
      assert c * p > 0 by { MulPositive(c, p); }
      BitOrAbove(a / 2, c, k - 1);
    }
  }

  lemma MulPositive(a: nat, b: nat)
    requires a > 0 && b > 0
    ensures a * b > 0
  {
  }

  /** `bits.Len64`: the number of bits needed to write `v`. */
  function BitLen(v: nat): nat {
    if v == 0 then 0 else 1 + BitLen(v / 2)
  }
}
