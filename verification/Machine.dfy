/** Machine words and the little-endian byte layout the emulator's file formats share. */
module Machine {
  type U8 = x: int | 0 <= x < 0x100
  type U16 = x: int | 0 <= x < 0x1_0000
  type U32 = x: int | 0 <= x < 0x1_0000_0000
  type U64 = x: int | 0 <= x < 0x1_0000_0000_0000_0000

  const U32_MAX: U32 := 0xFFFF_FFFF

  datatype Option<+T> = None | Some(value: T)

  function Min(a: int, b: int): int { if a < b then a else b }

  /** `u32::saturating_add`. */
  function SaturatingAdd(a: U32, b: U32): U32 { Min(a + b, U32_MAX) }

  /** `u32::wrapping_add` and `u32::wrapping_sub`, which is what plain `+` and `-` do in a release build. */
  function WrappingAdd(a: U32, b: U32): U32 { if a + b <= U32_MAX then a + b else a + b - 0x1_0000_0000 }

  function WrappingSub(a: U32, b: U32): U32 { if a >= b then a - b else a - b + 0x1_0000_0000 }

  /** `u32::to_le_bytes`. */
  function Le32(x: U32): (bytes: seq<U8>)
    ensures |bytes| == 4
  {
    [x % 0x100, x / 0x100 % 0x100, x / 0x1_0000 % 0x100, x / 0x100_0000]
  }

  /** `u32::from_le_bytes` of the first four bytes. */
  function FromLe32(bytes: seq<U8>): U32
    requires |bytes| >= 4
  {
    bytes[0] as int + 0x100 * bytes[1] as int + 0x1_0000 * bytes[2] as int + 0x100_0000 * bytes[3] as int
  }

  lemma Le32RoundTrip(x: U32)
    ensures FromLe32(Le32(x)) == x
  {
    var a, b, c := x / 0x100, x / 0x1_0000, x / 0x100_0000;
    assert x == 0x100 * a + x % 0x100;
    assert a == 0x100 * b + a % 0x100 by { assert a / 0x100 == b; }
    assert b == 0x100 * c + b % 0x100 by { assert b / 0x100 == c; }
  }

  lemma SmallRemainder(n: nat, m: nat)
    requires n < m
    ensures n % m == n
  {
  }

  lemma ModAddsSize(x: nat, size: nat)
    requires size > 0
    ensures (x + size) % size == x % size
  {
    var q, r, p, y := x / size, x % size, (x + size) / size, (x + size) % size;
    assert x == size * q + r && x + size == size * p + y;
    SameRemainder(size, q + 1, r, p, y);
  }

  lemma SameRemainder(size: nat, a: nat, r: nat, b: nat, y: nat)
    requires r < size && y < size && size * a + r == size * b + y
    ensures r == y
  {
    if a < b {
      MoreIsMore(size, a, b);
    } else if b < a {
      MoreIsMore(size, b, a);
    }
  }

  lemma MoreIsMore(size: nat, a: nat, b: nat)
    requires a < b
    ensures size * a + size <= size * b
  {
    Distributes(size, a + 1, b - a - 1);
    Distributes(size, a, 1);
  }

  lemma Distributes(x: nat, a: nat, b: nat)
    ensures x * (a + b) == x * a + x * b && x * b >= 0
  {
  }

  // ---- any number of bytes ----

  function Pow256(n: nat): (r: nat)
    ensures r > 0
  {
    if n == 0 then 1 else 256 * Pow256(n - 1)
  }

  lemma {:induction false} Pow256Grows(a: nat, b: nat)
    requires a <= b
    ensures Pow256(a) <= Pow256(b)
  {
    if a < b {
      Pow256Grows(a, b - 1);
    }
  }

  /** Little-endian in `k` bytes, and back. */
  function Le(n: nat, k: nat): (bytes: seq<U8>)
    ensures |bytes| == k
  {
    if k == 0 then [] else [n % 0x100] + Le(n / 0x100, k - 1)
  }

  function FromLe(bytes: seq<U8>): nat { if bytes == [] then 0 else bytes[0] as nat + 0x100 * FromLe(bytes[1..]) }

  lemma {:induction false} LeRoundTrip(n: nat, k: nat)
    requires n < Pow256(k)
    ensures FromLe(Le(n, k)) == n
  {
    if k > 0 {
      LeRoundTrip(n / 0x100, k - 1);
    }
  }

  lemma {:induction false} FromLeBound(bytes: seq<U8>)
    ensures FromLe(bytes) < Pow256(|bytes|)
  {
    if bytes != [] {
      FromLeBound(bytes[1..]);
    }
  }

  lemma FromLeOfFour(bytes: seq<U8>)
    requires |bytes| == 4
    ensures FromLe(bytes) == FromLe32(bytes)
  {
    var b1, b2, b3 := bytes[1..], bytes[2..], bytes[3..];
    assert b1[1..] == b2 && b2[1..] == b3 && b3[1..] == [];
    assert FromLe(b3) == bytes[3] as nat;
    assert FromLe(b2) == bytes[2] as nat + 0x100 * FromLe(b3);
    assert FromLe(b1) == bytes[1] as nat + 0x100 * FromLe(b2);
  }
}
