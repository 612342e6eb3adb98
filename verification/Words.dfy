/** Big-endian words and the integer conversions of the C++ code. */
module Words {

  type byte = x: int | 0 <= x < 256
  type u32 = x: int | 0 <= x < 0x1_0000_0000

  const TWO_31: int := 0x8000_0000
  const TWO_32: int := 0x1_0000_0000
  const TWO_63: int := 0x8000_0000_0000_0000
  const TWO_64: int := 0x1_0000_0000_0000_0000

  function Pow256(n: nat): (p: nat)
    ensures p >= 1
  {
    if n == 0 then 1 else 256 * Pow256(n - 1)
  }

  /** The low `n` bytes of `x`, most significant byte first (`endian_store`). */
  function Store(n: nat, x: nat): (b: seq<byte>)
    ensures |b| == n
  {
    if n == 0 then [] else Store(n - 1, x / 256) + [x % 256]
  }

  /** The number a big-endian byte string denotes (`endian_load`). */
  function Load(b: seq<byte>): (x: nat)
    ensures x < Pow256(|b|)
  {
    if b == [] then 0 else 256 * Load(b[..|b| - 1]) + b[|b| - 1]
  }

  lemma {:induction false} ModUnique(x: int, p: int, k: int, r: int)
    requires p > 0 && 0 <= r < p && x == k * p + r
    ensures x % p == r
  {
    var q := x / p;
    assert x == q * p + x % p;
    assert (q - k) * p == r - x % p;
    if q - k >= 1 {
      MulLe(1, q - k, p);
      assert false;
    } else if q - k <= -1 {
      MulLe(1, k - q, p);
      assert false;
    }
  }

  lemma {:induction false} MulLe(a: int, b: int, p: int)
    requires a <= b && p >= 0
    ensures a * p <= b * p
  {
    assert (b - a) * p >= 0;
  }

  lemma ModStep(x: nat, p: int)
    requires p > 0
    ensures x % (256 * p) == 256 * ((x / 256) % p) + x % 256
  {
    var q := x / 256;
    var k, r := q / p, q % p;
    assert q == k * p + r;
    assert 256 * (k * p) == k * (256 * p);
    ModUnique(x, 256 * p, k, 256 * r + x % 256);
  }

  /** Loading a stored word gives the value back modulo the word size. */
  lemma {:induction false} LoadStore(n: nat, x: nat)
    ensures Load(Store(n, x)) == x % Pow256(n)
  {
    if n > 0 {
      LoadStore(n - 1, x / 256);
      assert Store(n, x)[..n - 1] == Store(n - 1, x / 256);
      ModStep(x, Pow256(n - 1));
    }
  }

  lemma LoadStoreFitting(n: nat, x: nat)
    requires x < Pow256(n)
    ensures Load(Store(n, x)) == x
  {
    LoadStore(n, x);
    hide *;
  }

  /** Storing a loaded word gives the bytes back: the two are inverse. */
  lemma {:induction false} StoreLoad(b: seq<byte>)
    ensures Store(|b|, Load(b)) == b
  {
    if b != [] {
      var front, last := b[..|b| - 1], b[|b| - 1];
      StoreLoad(front);
      assert Load(b) / 256 == Load(front) && Load(b) % 256 == last;
      assert front + [last] == b;
    }
  }

  /** Byte `i` of a stored word has the weight of its distance from the end. */
  lemma {:induction false} BigEndian(n: nat, x: nat, i: nat)
    requires i < n
    ensures Store(n, x)[i] == x / Pow256(n - 1 - i) % 256
  {
    if i < n - 1 {
      BigEndian(n - 1, x / 256, i);
      DivTwice(x, Pow256(n - 2 - i));
    }
  }

  lemma DivTwice(x: nat, p: int)
    requires p > 0
    ensures x / 256 / p == x / (256 * p)
  {
    var q := x / 256;
    var k, r := q / p, q % p;
    assert q == k * p + r;
    assert 256 * (k * p) == k * (256 * p);
    DivUnique(x, 256 * p, k, 256 * r + x % 256);
  }

  lemma {:induction false} DivUnique(x: int, p: int, k: int, r: int)
    requires p > 0 && 0 <= r < p && x == k * p + r
    ensures x / p == k
  {
    ModUnique(x, p, k, r);
    var q := x / p;
    assert (q - k) * p == 0;
    if q - k >= 1 {
      MulLe(1, q - k, p);
      assert false;
    } else if q - k <= -1 {
      MulLe(1, k - q, p);
      assert false;
    }
  }

  lemma Pow256At()
    ensures Pow256(1) == 0x100 && Pow256(2) == 0x1_0000
    ensures Pow256(4) == TWO_32 && Pow256(8) == TWO_64
  {
    assert Pow256(3) == 0x100_0000;
    assert Pow256(5) == 0x100_0000_0000;
    assert Pow256(6) == 0x1_0000_0000_0000;
    assert Pow256(7) == 0x100_0000_0000_0000;
  }

  /** Conversion to `int32_t`, as `static_cast` and the implicit narrowing do it. */
  function ToInt32(x: int): (r: int)
    ensures -TWO_31 <= r < TWO_31
  {
    var y := x % TWO_32;
    if y < TWO_31 then y else y - TWO_32
  }

  /** The one number in range with the same low 32 bits. */
  lemma ToInt32Wraps(x: int, r: int)
    requires -TWO_31 <= r < TWO_31
    ensures ToInt32(x) == r <==> (x - r) % 0x1_0000_0000 == 0
  {
  }

  function ToInt64(x: int): (r: int)
    ensures -TWO_63 <= r < TWO_63
  {
    var y := x % TWO_64;
    if y < TWO_63 then y else y - TWO_64
  }

  /** `serialize<int32_t>(…, x)`: four bytes, whatever the width of `x`. */
  function Word32(x: int): (b: seq<byte>)
    ensures |b| == 4
  {
    Store(4, x % TWO_32)
  }

  function Word64(x: int): (b: seq<byte>)
    ensures |b| == 8
  {
    Store(8, x % TWO_64)
  }

  function LoadInt32(b: seq<byte>): int
    requires |b| == 4
  {
    ToInt32(Load(b))
  }

  function LoadU32(b: seq<byte>): u32
    requires |b| == 4
  {
    Pow256At();
    Load(b)
  }

  function LoadInt64(b: seq<byte>): int
    requires |b| == 8
  {
    ToInt64(Load(b))
  }

  lemma Wrap32(x: int)
    requires -TWO_31 <= x < TWO_31
    ensures ToInt32(x % TWO_32) == x
  {
  }

  lemma Wrap64(x: int)
    requires -TWO_63 <= x < TWO_63
    ensures ToInt64(x % TWO_64) == x
  {
  }

  lemma LoadWord32(x: int)
    ensures Load(Word32(x)) == x % TWO_32
  {
    var y := x % TWO_32;
    LoadStore(4, y);
    Pow256At();
    hide *;
    assert y % TWO_32 == y;
  }

  lemma LoadWord64(x: int)
    ensures Load(Word64(x)) == x % TWO_64
  {
    var y := x % TWO_64;
    LoadStore(8, y);
    Pow256At();
    hide *;
    assert y % TWO_64 == y;
  }

  lemma ReadWord32(x: int)
    ensures LoadInt32(Word32(x)) == ToInt32(x)
    ensures 0 <= x < TWO_32 ==> LoadU32(Word32(x)) == x
    ensures -TWO_31 <= x < TWO_31 ==> LoadInt32(Word32(x)) == x
  {
    LoadWord32(x);
    hide Word32, Load;
    if -TWO_31 <= x < TWO_31 {
      Wrap32(x);
    }
  }

  lemma ReadWord64(x: int)
    requires -TWO_63 <= x < TWO_63
    ensures LoadInt64(Word64(x)) == x
  {
    LoadWord64(x);
    Wrap64(x);
    hide Word64, Load, ToInt64;
  }
}
