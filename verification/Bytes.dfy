/** Bytes, machine integers and their big-endian form, and zero padding. */
module Bytes {
  type byte = x: int | 0 <= x < 256
  type u16 = x: int | 0 <= x < 0x1_0000
  type u32 = x: int | 0 <= x < 0x1_0000_0000
  type u128 = x: int | 0 <= x < Pow256(16)

  /** What a release build keeps of a sum that does not fit. */
  function Wrapped32(n: nat): (w: u32)
    ensures n < 0x1_0000_0000 ==> w == n
  {
    n % 0x1_0000_0000
  }

  function Wrapped16(n: nat): (w: u16)
    ensures n < 0x1_0000 ==> w == n
  {
    n % 0x1_0000
  }

  datatype Option<+T> = None | Some(value: T)

  function Pow256(n: nat): (p: nat)
    ensures p > 0
  {
    if n == 0 then 1 else 256 * Pow256(n - 1)
  }

  lemma {:induction false} Widths()
    ensures Pow256(2) == 0x1_0000
    ensures Pow256(4) == 0x1_0000_0000
  {
    assert Pow256(4) == 256 * (256 * Pow256(2));
  }

  /** The n low-order bytes of v, most significant first. */
  function BigEndian(v: nat, n: nat): (s: seq<byte>)
    ensures |s| == n
  {
    if n == 0 then [] else BigEndian(v / 256, n - 1) + [v % 256]
  }

  function FromBigEndian(s: seq<byte>): (v: nat)
    ensures v < Pow256(|s|)
  {
    if s == [] then 0 else 256 * FromBigEndian(s[..|s| - 1]) + s[|s| - 1]
  }

  lemma {:induction false} FromBigEndianOfBigEndian(v: nat, n: nat)
    requires v < Pow256(n)
    ensures FromBigEndian(BigEndian(v, n)) == v
  {
    if n > 0 {
      FromBigEndianOfBigEndian(v / 256, n - 1);
      assert BigEndian(v, n)[..n - 1] == BigEndian(v / 256, n - 1);
    }
  }

  lemma {:induction false} BigEndianOfFromBigEndian(s: seq<byte>)
    ensures BigEndian(FromBigEndian(s), |s|) == s
  {
    if s != [] {
      BigEndianOfFromBigEndian(s[..|s| - 1]);
      assert s == s[..|s| - 1] + [s[|s| - 1]];
    }
  }

  lemma {:induction false} SliceOfSlice<T>(s: seq<T>, a: nat, b: nat, c: nat, d: nat)
    requires a <= b <= |s| && c <= d <= b - a
    ensures s[a..b][c..d] == s[a + c..a + d]
  {
    forall i | 0 <= i < d - c
      ensures s[a..b][c..d][i] == s[a + c..a + d][i]
    {
      assert s[a..b][c + i] == s[a + c + i];
    }
  }

  lemma {:induction false} Adjacent<T>(s: seq<T>, a: nat, b: nat, c: nat)
    requires a <= b <= c <= |s|
    ensures s[a..b] + s[b..c] == s[a..c]
  {
  }

  function Zeros(n: nat): (z: seq<byte>)
    ensures |z| == n
  {
    seq(n, _ => 0)
  }

  /** s followed by zeros up to length n: what a fixed buffer holds after s is copied in and the rest cleared. */
  function Padded(s: seq<byte>, n: nat): (p: seq<byte>)
    requires |s| <= n
    ensures |p| == n
    ensures p[..|s|] == s
  {
    s + Zeros(n - |s|)
  }

  ghost predicate ZeroFrom(s: seq<byte>, n: nat) {
    forall i :: n <= i < |s| ==> s[i] == 0
  }

  /** Cutting s at n and padding it back restores s exactly when the cut removed only zeros. */
  lemma {:induction false} PaddedCut(s: seq<byte>, n: nat)
    requires n <= |s|
    ensures Padded(s[..n], |s|) == s <==> ZeroFrom(s, n)
  {
    if Padded(s[..n], |s|) == s {
      forall i | n <= i < |s| ensures s[i] == 0 {
        assert Padded(s[..n], |s|)[i] == 0;
      }
    }
  }
}
