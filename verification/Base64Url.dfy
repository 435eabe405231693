/** The worker's base64url pair (section 5 of RFC 4648), built on the platform's btoa and atob. */
module Base64Url {
  import opened Collections
  import opened Bytes

  type Sextet = x: int | 0 <= x < 64

  // ---- Groups of bytes and of six-bit digits

  function Sextets(b: seq<Byte>): seq<Sextet> {
    if |b| == 0 then []
    else if |b| == 1 then [b[0] / 4, b[0] % 4 * 16]
    else if |b| == 2 then [b[0] / 4, b[0] % 4 * 16 + b[1] / 16, b[1] % 16 * 4]
    else [b[0] / 4, b[0] % 4 * 16 + b[1] / 16, b[1] % 16 * 4 + b[2] / 64, b[2] % 64] + Sextets(b[3..])
  }

  /** Three bytes make four digits; a last group of one or two bytes makes two or three. */
  lemma {:induction false} SextetsLength(b: seq<Byte>)
    ensures |Sextets(b)| == |b| / 3 * 4 + (if |b| % 3 == 0 then 0 else |b| % 3 + 1)
  {
    if |b| >= 3 {
      SextetsLength(b[3..]);
    }
  }

  /** The three bytes four digits stand for. */
  function First(a: int, b: int): int { a * 4 + b / 16 }

  function Second(b: int, c: int): int { b % 16 * 16 + c / 4 }

  function Third(c: int, d: int): int { c % 4 * 64 + d }

  function Octets(d: seq<Sextet>): Option<seq<Byte>> {
    if |d| == 0 then Some([])
    else if |d| == 1 then None
    else if |d| == 2 then Some([First(d[0], d[1])])
    else if |d| == 3 then Some([First(d[0], d[1]), Second(d[1], d[2])])
    else
      match Octets(d[4..])
      case None => None
      case Some(rest) => Some([First(d[0], d[1]), Second(d[1], d[2]), Third(d[2], d[3])] + rest)
  }

  lemma GroupOf(a: Byte, b: Byte, c: Byte)
    ensures First(a / 4, a % 4 * 16 + b / 16) == a
    ensures First(a / 4, a % 4 * 16) == a
    ensures Second(a % 4 * 16 + b / 16, b % 16 * 4 + c / 64) == b
    ensures Second(a % 4 * 16 + b / 16, b % 16 * 4) == b
    ensures Third(b % 16 * 4 + c / 64, c % 64) == c
  {
  }

  lemma OneByte(a: Byte)
    ensures Octets(Sextets([a])) == Some([a])
  {
    GroupOf(a, 0, 0);
    assert Sextets([a]) == [a / 4, a % 4 * 16];
  }

  lemma TwoBytes(a: Byte, b: Byte)
    ensures Octets(Sextets([a, b])) == Some([a, b])
  {
    GroupOf(a, b, 0);
    assert Sextets([a, b]) == [a / 4, a % 4 * 16 + b / 16, b % 16 * 4];
  }

  lemma LastGroup(b: seq<Byte>)
    requires |b| < 3
    ensures Octets(Sextets(b)) == Some(b)
  {
    hide Octets, Sextets;
    if |b| == 1 {
      OneByte(b[0]);
      assert b == [b[0]];
    } else if |b| == 2 {
      TwoBytes(b[0], b[1]);
      assert b == [b[0], b[1]];
    } else {
      NoBytes();
      assert b == [];
    }
  }

  lemma NoBytes()
    ensures Octets(Sextets([])) == Some([])
  {
  }

  lemma {:induction false} OctetsOfSextets(b: seq<Byte>)
    ensures Octets(Sextets(b)) == Some(b)
  {
    if |b| < 3 {
      LastGroup(b);
    } else {
      GroupOf(b[0], b[1], b[2]);
      OctetsOfSextets(b[3..]);
      var d := Sextets(b);
      assert d[0] == b[0] / 4 && d[1] == b[0] % 4 * 16 + b[1] / 16 && d[2] == b[1] % 16 * 4 + b[2] / 64
          && d[3] == b[2] % 64;
      assert d[4..] == Sextets(b[3..]);
      assert Octets(d) == Some([First(d[0], d[1]), Second(d[1], d[2]), Third(d[2], d[3])] + b[3..]);
      assert b == [b[0], b[1], b[2]] + b[3..];
    }
  }

  // ---- Characters

  function CharOf(x: Sextet): char {
    if x < 26 then ('A' as int + x) as char
    else if x < 52 then ('a' as int + x - 26) as char
    else if x < 62 then ('0' as int + x - 52) as char
    else if x == 62 then '+'
    else '/'
  }

  function ValueOf(c: char): (r: Option<Sextet>) {
    if 'A' <= c <= 'Z' then Some(c as int - 'A' as int)
    else if 'a' <= c <= 'z' then Some(c as int - 'a' as int + 26)
    else if '0' <= c <= '9' then Some(c as int - '0' as int + 52)
    else if c == '+' then Some(62)
    else if c == '/' then Some(63)
    else None
  }

  lemma ValueOfChar(x: Sextet)
    ensures ValueOf(CharOf(x)) == Some(x)
    ensures CharOf(x) != '=' && CharOf(x) != '-' && CharOf(x) != '_' && CharOf(x) != '.'
  {
  }

  function Chars(d: seq<Sextet>): (s: string)
    ensures |s| == |d|
  {
    seq(|d|, i requires 0 <= i < |d| => CharOf(d[i]))
  }

  function Values(s: string): (r: Option<seq<Sextet>>)
    ensures r.Some? ==> |r.value| == |s|
  {
    if s == "" then Some([])
    else
      match (Values(s[..|s| - 1]), ValueOf(s[|s| - 1]))
      case (Some(d), Some(x)) => Some(d + [x])
      case _ => None
  }

  lemma {:induction false} ValuesOfChars(d: seq<Sextet>)
    ensures Values(Chars(d)) == Some(d)
  {
    if d != [] {
      var n := |d| - 1;
      assert Chars(d)[..n] == Chars(d[..n]);
      ValuesOfChars(d[..n]);
      ValueOfChar(d[n]);
      FrontAndLast(d);
    }
  }

  // ---- btoa and atob

  function Equals(n: nat): (s: string)
    ensures |s| == n && forall i :: 0 <= i < n ==> s[i] == '='
  {
    seq(n, _ => '=')
  }

  function Btoa(b: seq<Byte>): string {
    Chars(Sextets(b)) + Equals((3 - |b| % 3) % 3)
  }

  /** At most two '=' complete a last group of four. */
  function DropPadding(s: string): string {
    var n := |s|;
    if n == 0 || n % 4 != 0 || s[n - 1] != '=' then s
    else if s[n - 2] == '=' then s[..n - 2]
    else s[..n - 1]
  }

  /** The forgiving decoder, on text without white space. */
  function Atob(s: string): Option<seq<Byte>> {
    match Values(DropPadding(s))
    case None => None
    case Some(d) => Octets(d)
  }

  // ---- The pair

  function Replaced(s: string, from: char, to: char): (r: string)
    ensures |r| == |s|
    ensures forall i :: 0 <= i < |s| ==> r[i] == if s[i] == from then to else s[i]
  {
    seq(|s|, i requires 0 <= i < |s| => if s[i] == from then to else s[i])
  }

  function StripEquals(s: string): string {
    if s != "" && s[|s| - 1] == '=' then StripEquals(s[..|s| - 1]) else s
  }

  function Encode(b: seq<Byte>): string {
    StripEquals(Replaced(Replaced(Btoa(b), '+', '-'), '/', '_'))
  }

  /** What completes the last group of four. */
  function Padding(n: nat): string {
    if n % 4 == 0 then "" else Equals(4 - n % 4)
  }

  function Decode(s: string): Option<seq<Byte>> {
    Atob(Replaced(Replaced(s, '-', '+'), '_', '/') + Padding(|s|))
  }

  method EncodeBuffer(u8: array<Byte>) returns (s: string)
    ensures s == Encode(u8[..])
  {
    var bin: seq<Byte> := [];
    var i := 0;
    while i < u8.Length
      invariant 0 <= i <= u8.Length && bin == u8[..i]
    {
      bin := bin + [u8[i]];
      i := i + 1;
    }
    assert u8[..] == u8[..i];
    s := StripEquals(Replaced(Replaced(Btoa(bin), '+', '-'), '/', '_'));
  }

  /** The decoded bytes in a fresh buffer, or nothing when atob throws. */
  method DecodeToBytes(s: string) returns (out: array?<Byte>)
    ensures Decode(s) == if out == null then None else Some(out[..])
    ensures out != null ==> fresh(out)
  {
    var pad := if |s| % 4 == 0 then "" else Equals(4 - |s| % 4);
    assert pad == Padding(|s|);
    var bin := Atob(Replaced(Replaced(s, '-', '+'), '_', '/') + pad);
    if bin == None {
      return null;
    }
    var buffer := new Byte[|bin.value|];
    var i := 0;
    while i < |bin.value|
      invariant 0 <= i <= |bin.value|
      invariant buffer[..i] == bin.value[..i]
    {
      buffer[i] := bin.value[i];
      i := i + 1;
    }
    assert buffer[..] == buffer[..i] && bin.value[..i] == bin.value;
    return buffer;
  }

  // ---- Round trip

  function UrlChar(x: Sextet): char {
    if CharOf(x) == '+' then '-' else if CharOf(x) == '/' then '_' else CharOf(x)
  }

  function UrlChars(d: seq<Sextet>): (s: string)
    ensures |s| == |d|
  {
    seq(|d|, i requires 0 <= i < |d| => UrlChar(d[i]))
  }

  lemma {:induction false} StripPadding(s: string, n: nat)
    requires s != "" ==> s[|s| - 1] != '='
    ensures StripEquals(s + Equals(n)) == s
  {
    if n == 0 {
      assert s + Equals(0) == s;
    } else {
      assert (s + Equals(n))[..|s| + n - 1] == s + Equals(n - 1);
      StripPadding(s, n - 1);
    }
  }

  /** Encoding yields the digits' characters without padding. */
  lemma EncodeIsUrlChars(b: seq<Byte>)
    ensures Encode(b) == UrlChars(Sextets(b))
  {
    var d := Sextets(b);
    var n := (3 - |b| % 3) % 3;
    var s := Replaced(Replaced(Btoa(b), '+', '-'), '/', '_');
    assert s == UrlChars(d) + Equals(n) by {
      forall i | 0 <= i < |d|
        ensures s[i] == UrlChar(d[i])
      {
        ValueOfChar(d[i]);
      }
    }
    if d != [] {
      ValueOfChar(d[|d| - 1]);
    }
    StripPadding(UrlChars(d), n);
  }

  lemma UnreplacedChars(d: seq<Sextet>)
    ensures Replaced(Replaced(UrlChars(d), '-', '+'), '_', '/') == Chars(d)
  {
    forall i | 0 <= i < |d|
      ensures Replaced(Replaced(UrlChars(d), '-', '+'), '_', '/')[i] == Chars(d)[i]
    {
      ValueOfChar(d[i]);
    }
  }

  lemma DropOne(t: string)
    requires |t| % 4 == 3 && t[|t| - 1] != '='
    ensures DropPadding(t + "=") == t
  {
    assert (t + "=")[|t| - 1] == t[|t| - 1];
    assert (t + "=")[..|t|] == t;
  }

  lemma DropTwo(t: string)
    requires |t| % 4 == 2
    ensures DropPadding(t + "==") == t
  {
    assert (t + "==")[..|t|] == t;
  }

  /** The padding that completes the last group is dropped again. */
  lemma PaddingDropped(t: string)
    requires |t| % 4 != 1 && (t != "" ==> t[|t| - 1] != '=')
    ensures DropPadding(t + Padding(|t|)) == t
  {
    if |t| % 4 == 0 {
      assert t + "" == t;
    } else if |t| % 4 == 3 {
      DropOne(t);
      assert Equals(1) == "=";
    } else {
      DropTwo(t);
      assert Equals(2) == "==";
    }
  }

  lemma AtobOfChars(d: seq<Sextet>)
    requires |d| % 4 != 1
    ensures Atob(Chars(d) + Padding(|d|)) == Octets(d)
  {
    hide Values, Octets, DropPadding, Padding, CharOf;
    ValuesOfChars(d);
    if d != [] {
      ValueOfChar(d[|d| - 1]);
    }
    PaddingDropped(Chars(d));
  }

  /** Decoding undoes encoding, for all bytes. */
  lemma DecodeEncode(b: seq<Byte>)
    ensures Decode(Encode(b)) == Some(b)
  {
    EncodeIsUrlChars(b);
    UnreplacedChars(Sextets(b));
    SextetsLength(b);
    AtobOfChars(Sextets(b));
    OctetsOfSextets(b);
    hide Atob, Octets, Sextets, Replaced, UrlChars, Padding, Encode;
  }

  // ---- The text, character by character

  const UPPER := "ABCDEFGHIJKLMNOPQRSTUVWXYZ"
  const LOWER := "abcdefghijklmnopqrstuvwxyz"
  const DIGITS := "0123456789"
  const ALPHABET := UPPER + LOWER + DIGITS + "-_"

  function ByteAt(b: seq<Byte>, j: nat): Byte {
    if j < |b| then b[j] else 0
  }

  /** Bits 6i to 6i + 5 of the bytes, followed by zeros: they lie in two neighbouring bytes. */
  function SixBits(b: seq<Byte>, i: nat): Sextet {
    var j := 6 * i / 8;
    var word := ByteAt(b, j) * 256 + ByteAt(b, j + 1);
    match 6 * i % 8
    case 0 => word / 1024 % 64
    case 6 => word / 16 % 64
    case 4 => word / 64 % 64
    case _ => word / 256 % 64
  }

  lemma {:induction false} SextetsAreBits(b: seq<Byte>, i: nat)
    requires i < |Sextets(b)|
    ensures Sextets(b)[i] == SixBits(b, i)
  {
    if i >= 4 {
      SextetsAreBits(b[3..], i - 4);
      var j := 6 * i / 8;
      assert 6 * (i - 4) / 8 == j - 3 && 6 * (i - 4) % 8 == 6 * i % 8;
      assert ByteAt(b[3..], j - 3) == ByteAt(b, j) && ByteAt(b[3..], j - 2) == ByteAt(b, j + 1);
    } else {
      GroupBits(b, i);
    }
  }

  lemma FirstGroup(b: seq<Byte>, i: nat)
    requires i < 4 && i < |Sextets(b)|
    ensures var x, y, z := ByteAt(b, 0), ByteAt(b, 1), ByteAt(b, 2);
            Sextets(b)[i] == [x / 4, x % 4 * 16 + y / 16, y % 16 * 4 + z / 64, z % 64][i]
  {
  }

  lemma FirstSixBits(b: seq<Byte>, i: nat)
    requires i < 4
    ensures var x, y, z := ByteAt(b, 0), ByteAt(b, 1), ByteAt(b, 2);
            SixBits(b, i) == [x / 4, x % 4 * 16 + y / 16, y % 16 * 4 + z / 64, z % 64][i]
  {
    hide ByteAt;
    match i
    case 0 => FirstBits(ByteAt(b, 0), ByteAt(b, 1));
    case 1 => LastBits(ByteAt(b, 0), ByteAt(b, 1));
    case 2 => MiddleBits(ByteAt(b, 1), ByteAt(b, 2));
    case _ =>
      assert i == 3;
      FirstBits(ByteAt(b, 2), ByteAt(b, 3));
  }

  lemma GroupBits(b: seq<Byte>, i: nat)
    requires i < 4 && i < |Sextets(b)|
    ensures Sextets(b)[i] == SixBits(b, i)
  {
    hide Sextets, SixBits;
    FirstGroup(b, i);
    FirstSixBits(b, i);
  }

  lemma FirstBits(x: Byte, y: Byte)
    ensures (x * 256 + y) / 1024 % 64 == x / 4 && (x * 256 + y) / 256 == x
  {
    var q, r := x / 4, x % 4;
    assert x * 256 + y == 1024 * q + (256 * r + y) && 256 * r + y < 1024;
  }

  lemma LastBits(x: Byte, y: Byte)
    ensures (x * 256 + y) / 16 % 64 == x % 4 * 16 + y / 16
  {
    var q, r := x / 4, x % 4;
    assert (x * 256 + y) / 16 == x * 16 + y / 16 == 64 * q + (r * 16 + y / 16);
    assert r * 16 + y / 16 < 64;
  }

  lemma MiddleBits(x: Byte, y: Byte)
    ensures (x * 256 + y) / 64 % 64 == x % 16 * 4 + y / 64
  {
    var q, r := x / 16, x % 16;
    assert (x * 256 + y) / 64 == x * 4 + y / 64 == 64 * q + (r * 4 + y / 64);
    assert r * 4 + y / 64 < 64;
  }

  lemma LetterIs(x: Sextet)
    requires x < 52
    ensures CharOf(x) == if x < 26 then UPPER[x] else LOWER[x - 26]
  {
  }

  lemma UrlCharIs(x: Sextet)
    ensures UrlChar(x) == ALPHABET[x]
  {
    if x < 52 { LetterIs(x); }
    ValueOfChar(x);
  }

  /**
   The encoder is that of the standard: one character for every six bits, zeros completing the last of them, each
   the character of the alphabet at their value.
   */
  lemma EncodeIsStandard(b: seq<Byte>)
    ensures |Encode(b)| == (8 * |b| + 5) / 6
    ensures forall i :: 0 <= i < |Encode(b)| ==> Encode(b)[i] == ALPHABET[SixBits(b, i)]
  {
    EncodeIsUrlChars(b);
    SextetsLength(b);
    forall i | 0 <= i < |Encode(b)|
      ensures Encode(b)[i] == ALPHABET[SixBits(b, i)]
    {
      SextetsAreBits(b, i);
      UrlCharIs(Sextets(b)[i]);
    }
    hide Encode, Sextets, UrlChar, SixBits;
  }

  // ---- Which texts decode

  predicate IsDigit(c: char) {
    'A' <= c <= 'Z' || 'a' <= c <= 'z' || '0' <= c <= '9' || c == '-' || c == '_' || c == '+' || c == '/'
  }

  lemma {:induction false} ValuesIff(s: string)
    ensures Values(s).Some? <==> forall i :: 0 <= i < |s| ==> ValueOf(s[i]).Some?
  {
    if s != "" {
      ValuesIff(s[..|s| - 1]);
      FrontAndLast(s);
    }
  }

  lemma OctetsStep(d: seq<Sextet>)
    ensures |d| < 4 ==> (Octets(d).Some? <==> |d| != 1)
    ensures |d| >= 4 ==> (Octets(d).Some? <==> Octets(d[4..]).Some?)
  {
    hide First, Second, Third;
  }

  lemma {:induction false} OctetsIff(d: seq<Sextet>)
    ensures Octets(d).Some? <==> |d| % 4 != 1
  {
    hide First, Second, Third, Octets;
    OctetsStep(d);
    if |d| >= 4 {
      OctetsIff(d[4..]);
    }
  }

  /** A text without padding decodes exactly if it has only digits, of either alphabet, and no single one is left. */
  lemma DecodesIff(s: string)
    requires '=' !in s
    ensures Decode(s).Some? <==> |s| % 4 != 1 && forall i :: 0 <= i < |s| ==> IsDigit(s[i])
  {
    var t := Replaced(Replaced(s, '-', '+'), '_', '/');
    assert forall i :: 0 <= i < |s| ==> t[i] != '=' && (ValueOf(t[i]).Some? <==> IsDigit(s[i]));
    if |s| % 4 == 1 {
      DropTwo(t + "=");
      assert t + "=" + "==" == t + Padding(|s|);
      ValuesIff(t + "=");
      assert ValueOf((t + "=")[|s|]) == None;
    } else {
      PaddingDropped(t);
      ValuesIff(t);
      if Values(t).Some? { OctetsIff(Values(t).value); }
    }
    hide Values, Octets, DropPadding, ValueOf, Replaced;
  }

  /** No encoded text contains a full stop. */
  lemma EncodeHasNoStop(b: seq<Byte>)
    ensures '.' !in Encode(b)
  {
    EncodeIsUrlChars(b);
    var d := Sextets(b);
    forall i | 0 <= i < |d|
      ensures UrlChars(d)[i] != '.'
    {
      ValueOfChar(d[i]);
    }
  }
}
