/** Bytes and big-endian numbers. */
module Bytes {
  type Byte = x: int | 0 <= x < 256

  /** The minimal big-endian form of a number; 0 has no bytes. */
  function BigEndian(n: nat): seq<Byte> {
    if n == 0 then [] else BigEndian(n / 256) + [n % 256]
  }

  function FromBytes(b: seq<Byte>): nat {
    if b == [] then 0 else 256 * FromBytes(b[..|b| - 1]) + b[|b| - 1]
  }

  lemma {:induction false} BigEndianValue(n: nat)
    ensures FromBytes(BigEndian(n)) == n
  {
    if n > 0 {
      BigEndianValue(n / 256);
      assert BigEndian(n)[..|BigEndian(n)| - 1] == BigEndian(n / 256);
    }
  }

  /** No form of a number is shorter than the minimal one, and no other is as short. */
  lemma {:induction false} BigEndianIsShortest(b: seq<Byte>)
    ensures var m := BigEndian(FromBytes(b));
            |m| <= |b| && (|m| == |b| ==> m == b)
  {
    if b != [] {
      BigEndianIsShortest(b[..|b| - 1]);
      assert FromBytes(b) > 0 ==> FromBytes(b) / 256 == FromBytes(b[..|b| - 1]) && FromBytes(b) % 256 == b[|b| - 1];
    }
  }

  function Power(base: nat, e: nat): nat {
    if e == 0 then 1 else base * Power(base, e - 1)
  }

  lemma {:induction false} BigEndianLength(n: nat, k: nat)
    requires n < Power(256, k)
    ensures |BigEndian(n)| <= k
  {
    if n > 0 {
      assert k > 0;
      assert n / 256 < Power(256, k - 1);
      BigEndianLength(n / 256, k - 1);
    }
  }
}
