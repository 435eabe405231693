/**
 The service's RLP encoder for transaction fields (Ethereum Yellow Paper, Appendix B), with a decoder
 to state what its output determines.
 */
module Rlp {
  import opened Collections
  import opened Bytes

  /** Lengths are Go ints. */
  const MAX_LEN := 0x8000_0000_0000_0000

  // ---- The encoder

  function EncodeLen(length: nat): seq<Byte>
    requires length < MAX_LEN
  {
    if length < 56 then [length]
    else
      LengthOfLength(length);
      [0xb7 + |BigEndian(length)|] + BigEndian(length)
  }

  lemma LengthOfLength(length: nat)
    requires length < MAX_LEN
    ensures |BigEndian(length)| <= 8
    ensures length > 0 ==> |BigEndian(length)| > 0
  {
    assert Power(256, 8) == 0x1_0000_0000_0000_0000 by {
      assert Power(256, 0) == 1;
      assert Power(256, 1) == 256;
      assert Power(256, 2) == 0x1_0000;
      assert Power(256, 4) == 256 * Power(256, 3) == 0x1_0000_0000;
      assert Power(256, 6) == 256 * Power(256, 5);
      assert Power(256, 8) == 256 * Power(256, 7);
    }
    BigEndianLength(length, 8);
  }

  function EncodeBytes(b: seq<Byte>): seq<Byte>
    requires |b| < MAX_LEN
  {
    if |b| == 0 then [0x80]
    else if |b| == 1 && b[0] < 0x80 then b
    else if |b| <= 55 then [0x80 + |b|] + b
    else EncodeLen(|b|) + b
  }

  /** The concatenated encodings of a list's items. */
  function EncodeAll(items: seq<seq<Byte>>): seq<Byte>
    requires forall i :: 0 <= i < |items| ==> |items[i]| < MAX_LEN
  {
    if items == [] then []
    else EncodeAll(items[..|items| - 1]) + EncodeBytes(items[|items| - 1])
  }

  function ListHeader(length: nat): seq<Byte>
    requires length < MAX_LEN
  {
    if length <= 55 then [0xc0 + length] else EncodeLen(length)
  }

  method EncodeList(items: seq<seq<Byte>>) returns (r: seq<Byte>)
    requires forall i :: 0 <= i < |items| ==> |items[i]| < MAX_LEN
    requires |EncodeAll(items)| < MAX_LEN
    ensures r == ListHeader(|EncodeAll(items)|) + EncodeAll(items)
  {
    var encoded: seq<Byte> := [];
    var i := 0;
    while i < |items|
      invariant 0 <= i <= |items|
      invariant encoded == EncodeAll(items[..i])
    {
      assert items[..i + 1][..i] == items[..i];
      encoded := encoded + EncodeBytes(items[i]);
      i := i + 1;
    }
    assert items[..i] == items;
    if |encoded| <= 55 {
      r := [0xc0 + |encoded|] + encoded;
    } else {
      r := EncodeLen(|encoded|) + encoded;
    }
  }

  // ---- A decoder of byte strings

  /** The byte string at the front of `s` and what follows it. */
  function DecodeOne(s: seq<Byte>): (r: Option<(seq<Byte>, seq<Byte>)>)
    ensures r.Some? ==> |r.value.1| < |s|
  {
    if s == [] then None
    else if s[0] < 0x80 then Some((s[..1], s[1..]))
    else if s[0] <= 0xb7 then
      var n := s[0] - 0x80;
      if |s| < 1 + n then None else Some((s[1..1 + n], s[1 + n..]))
    else if s[0] <= 0xbf then
      var k := s[0] - 0xb7;
      if |s| < 1 + k then None
      else
        var n := FromBytes(s[1..1 + k]);
        if |s| < 1 + k + n then None else Some((s[1 + k..1 + k + n], s[1 + k + n..]))
    else None
  }

  function DecodeAll(s: seq<Byte>): Option<seq<seq<Byte>>>
    decreases |s|
  {
    if s == [] then Some([])
    else
      match DecodeOne(s)
      case None => None
      case Some((b, rest)) =>
        match DecodeAll(rest)
        case None => None
        case Some(bs) => Some([b] + bs)
  }

  lemma DecodeShort(b: seq<Byte>, rest: seq<Byte>)
    requires 0 < |b| <= 55
    ensures DecodeOne([0x80 + |b|] + b + rest) == Some((b, rest))
  {
    var s := [0x80 + |b|] + b + rest;
    assert s[1..1 + |b|] == b;
    assert s[1 + |b|..] == rest;
  }

  lemma DecodeLongAt(len: seq<Byte>, b: seq<Byte>, rest: seq<Byte>)
    requires 0 < |len| <= 8 && FromBytes(len) == |b|
    ensures DecodeOne([0xb7 + |len|] + len + b + rest) == Some((b, rest))
  {
    hide FromBytes;
    var s := [0xb7 + |len|] + len + b + rest;
    assert s[1..1 + |len|] == len;
    assert s[1 + |len|..1 + |len| + |b|] == b;
    assert s[1 + |len| + |b|..] == rest;
  }

  lemma DecodeLong(b: seq<Byte>, rest: seq<Byte>)
    requires 55 < |b| < MAX_LEN
    ensures DecodeOne(EncodeLen(|b|) + b + rest) == Some((b, rest))
  {
    LengthOfLength(|b|);
    BigEndianValue(|b|);
    DecodeLongAt(BigEndian(|b|), b, rest);
    hide DecodeOne, BigEndian, FromBytes;
  }

  /** Decoding recovers an encoded byte string and whatever follows it. */
  lemma DecodeEncode(b: seq<Byte>, rest: seq<Byte>)
    requires |b| < MAX_LEN
    ensures DecodeOne(EncodeBytes(b) + rest) == Some((b, rest))
  {
    if |b| == 0 {
      var s: seq<Byte> := [0x80] + rest;
      assert s[1..1] == [] && s[1..] == rest;
    } else if |b| == 1 && b[0] < 0x80 {
      var s := b + rest;
      assert s[..1] == b && s[1..] == rest;
    } else if |b| <= 55 {
      DecodeShort(b, rest);
    } else {
      DecodeLong(b, rest);
    }
  }

  lemma {:induction false} EncodeAllFront(items: seq<seq<Byte>>)
    requires items != [] && forall i :: 0 <= i < |items| ==> |items[i]| < MAX_LEN
    ensures EncodeAll(items) == EncodeBytes(items[0]) + EncodeAll(items[1..])
  {
    hide EncodeBytes, EncodeAll;
    var n := |items| - 1;
    EncodeAllStep(items);
    if n == 0 {
      EncodeAllNone();
      assert items[..0] == [] && items[1..] == [];
    } else {
      var front, rest := items[..n], items[1..];
      EncodeAllFront(front);
      EncodeAllStep(rest);
      assert front[1..] == rest[..n - 1] && front[0] == items[0] && rest[n - 1] == items[n];
    }
  }

  lemma EncodeAllStep(items: seq<seq<Byte>>)
    requires items != [] && forall i :: 0 <= i < |items| ==> |items[i]| < MAX_LEN
    ensures EncodeAll(items) == EncodeAll(items[..|items| - 1]) + EncodeBytes(items[|items| - 1])
  {
    hide EncodeBytes;
  }

  lemma EncodeAllNone()
    ensures EncodeAll([]) == []
  {
  }

  lemma EncodeBytesNonempty(b: seq<Byte>)
    requires |b| < MAX_LEN
    ensures EncodeBytes(b) != []
  {
    if |b| > 55 { LengthOfLength(|b|); }
  }

  lemma DecodeAllFront(b: seq<Byte>, rest: seq<Byte>, bs: seq<seq<Byte>>)
    requires |b| < MAX_LEN && DecodeAll(rest) == Some(bs)
    ensures DecodeAll(EncodeBytes(b) + rest) == Some([b] + bs)
  {
    hide EncodeBytes, DecodeOne;
    DecodeEncode(b, rest);
    EncodeBytesNonempty(b);
    var s := EncodeBytes(b) + rest;
    assert DecodeOne(s) == Some((b, rest));
  }

  /** A concatenation of encoded byte strings determines them, however many there are. */
  lemma {:induction false} DecodeAllEncodeAll(items: seq<seq<Byte>>)
    requires forall i :: 0 <= i < |items| ==> |items[i]| < MAX_LEN
    ensures DecodeAll(EncodeAll(items)) == Some(items)
  {
    hide EncodeBytes, EncodeAll;
    if items == [] {
      EncodeAllNone();
    } else {
      hide DecodeAll;
      EncodeAllFront(items);
      DecodeAllEncodeAll(items[1..]);
      DecodeAllFront(items[0], EncodeAll(items[1..]), items[1..]);
      assert items == [items[0]] + items[1..];
    }
  }

  /** So the fields of a transaction can be told from the bytes that are signed. */
  lemma FieldsAreDetermined(a: seq<seq<Byte>>, b: seq<seq<Byte>>)
    requires forall i :: 0 <= i < |a| ==> |a[i]| < MAX_LEN
    requires forall i :: 0 <= i < |b| ==> |b[i]| < MAX_LEN
    ensures EncodeAll(a) == EncodeAll(b) <==> a == b
  {
    DecodeAllEncodeAll(a);
    DecodeAllEncodeAll(b);
  }

  /**
   The header of a list starts in the list range if and only if the payload has at most 55 bytes; a
   longer list is encoded exactly like the byte string of its payload, and decodes as that.
   */
  lemma LongListReadsAsString(items: seq<seq<Byte>>)
    requires forall i :: 0 <= i < |items| ==> |items[i]| < MAX_LEN
    requires |EncodeAll(items)| < MAX_LEN
    ensures var payload := EncodeAll(items);
            var list := ListHeader(|payload|) + payload;
            && (list[0] >= 0xc0 <==> |payload| <= 55)
            && (|payload| <= 55 ==> list[0] == 0xc0 + |payload| && list[1..] == payload)
            && (|payload| > 55 ==> list == EncodeBytes(payload) && DecodeOne(list) == Some((payload, [])))
  {
    var payload := EncodeAll(items);
    if |payload| > 55 {
      LengthOfLength(|payload|);
      DecodeEncode(payload, []);
      assert EncodeBytes(payload) + [] == EncodeBytes(payload);
    }
  }

  // ---- The encoding is canonical

  lemma LongParts(s: seq<Byte>, b: seq<Byte>, rest: seq<Byte>) returns (len: seq<Byte>)
    requires DecodeOne(s) == Some((b, rest)) && s[0] > 0xb7
    ensures |len| > 0 && FromBytes(len) == |b| && s == [0xb7 + |len|] + len + b + rest
  {
    hide FromBytes;
    var k := s[0] - 0xb7;
    len := s[1..1 + k];
    assert b == s[1 + k..1 + k + |b|] && rest == s[1 + k + |b|..];
  }

  lemma EncodeLongIs(b: seq<Byte>)
    requires 55 < |b| < MAX_LEN
    ensures |BigEndian(|b|)| <= 8 && EncodeBytes(b) == [0xb7 + |BigEndian(|b|)|] + BigEndian(|b|) + b
  {
    hide BigEndian;
    LengthOfLength(|b|);
  }

  lemma ShortestLong(b: seq<Byte>, s: seq<Byte>, rest: seq<Byte>)
    requires |b| < MAX_LEN && DecodeOne(s) == Some((b, rest)) && s[0] > 0xb7
    ensures var h := |s| - |rest|;
            |EncodeBytes(b)| <= h && s == s[..h] + rest && (|EncodeBytes(b)| == h ==> s[..h] == EncodeBytes(b))
  {
    var len := LongParts(s, b, rest);
    hide DecodeOne, FromBytes, BigEndian, EncodeLen;
    BigEndianIsShortest(len);
    assert s[..|s| - |rest|] == [0xb7 + |len|] + len + b;
    if |b| > 55 { EncodeLongIs(b); }
  }

  /** What decodes to a byte string is no shorter than its encoding, and only the encoding is as short. */
  lemma EncodeIsShortest(b: seq<Byte>, s: seq<Byte>, rest: seq<Byte>)
    requires |b| < MAX_LEN && DecodeOne(s) == Some((b, rest))
    ensures var h := |s| - |rest|;
            |EncodeBytes(b)| <= h && s == s[..h] + rest && (|EncodeBytes(b)| == h ==> s[..h] == EncodeBytes(b))
  {
    if s[0] > 0xb7 {
      ShortestLong(b, s, rest);
    } else if s[0] >= 0x80 {
      assert b == s[1..1 + |b|] && rest == s[1 + |b|..];
      assert s[..1 + |b|] == [s[0]] + b;
    }
    hide EncodeLen, FromBytes;
  }

  /** And so for all the fields of a transaction: of the byte strings that decode to them theirs is the one shortest. */
  lemma {:induction false} EncodingIsCanonical(items: seq<seq<Byte>>, s: seq<Byte>)
    requires DecodeAll(s) == Some(items) && forall i :: 0 <= i < |items| ==> |items[i]| < MAX_LEN
    ensures |EncodeAll(items)| <= |s| && (|EncodeAll(items)| == |s| <==> s == EncodeAll(items))
    decreases |s|
  {
    hide EncodeBytes, DecodeOne;
    if s != [] {
      var (b, rest) := DecodeOne(s).value;
      assert items[0] == b && DecodeAll(rest) == Some(items[1..]);
      EncodeIsShortest(b, s, rest);
      EncodingIsCanonical(items[1..], rest);
      EncodeAllFront(items);
    }
  }

  // ---- Fields given as text

  function HexDigit(d: nat): char
    requires d < 16
  {
    "0123456789abcdef"[d]
  }

  function HexValue(c: char): Option<nat> {
    if '0' <= c <= '9' then Some(c as int - '0' as int)
    else if 'a' <= c <= 'f' then Some(c as int - 'a' as int + 10)
    else if 'A' <= c <= 'F' then Some(c as int - 'A' as int + 10)
    else None
  }

  /** hex.DecodeString, which refuses an odd number of digits. */
  function HexDecode(s: string): (r: Option<seq<Byte>>)
    ensures r.Some? ==> 2 * |r.value| == |s|
  {
    if s == "" then Some([])
    else if |s| == 1 then None
    else
      match (HexDecode(s[..|s| - 2]), HexValue(s[|s| - 2]), HexValue(s[|s| - 1]))
      case (Some(b), Some(hi), Some(lo)) => if 16 * hi + lo < 256 then Some(b + [16 * hi + lo]) else None
      case _ => None
  }

  /** A character has the value of its place among the hex digits, in either case, and no other has a value. */
  lemma HexValueIff(c: char, d: nat)
    requires d < 16
    ensures HexValue(c) == Some(d) <==> c == "0123456789abcdef"[d] || c == "0123456789ABCDEF"[d]
    ensures HexValue(c).Some? ==> HexValue(c).value < 16
  {
  }

  /** A text decodes if and only if it is an even number of hex digits, and then to one byte for each two of them. */
  lemma {:induction false} HexDecodesIff(s: string)
    ensures var r := HexDecode(s);
            && (r.Some? <==> |s| % 2 == 0 && forall i :: 0 <= i < |s| ==> HexValue(s[i]).Some?)
            && (r.Some? ==>
                  forall i :: 0 <= i < |r.value| ==>
                    r.value[i] == 16 * HexValue(s[2 * i]).value + HexValue(s[2 * i + 1]).value)
  {
    hide HexValue;
    if |s| >= 2 {
      var n := |s| - 2;
      HexDecodesIff(s[..n]);
      HexValueIff(s[n], 0);
      HexValueIff(s[n + 1], 0);
      assert |s| % 2 == |s[..n]| % 2;
      assert (forall i :: 0 <= i < |s| ==> HexValue(s[i]).Some?) <==>
        (forall i :: 0 <= i < n ==> HexValue(s[..n][i]).Some?) && HexValue(s[n]).Some? && HexValue(s[n + 1]).Some?;
    }
  }

  /** How a text field is encoded: one that does not decode counts as empty. */
  function EncodeText(digits: string): seq<Byte>
    requires |digits| < MAX_LEN
  {
    match HexDecode(digits)
    case Some(b) => EncodeBytes(b)
    case None => [0x80]
  }

  /** A quantity as fmt's %x prints it. */
  function HexOf(n: nat): (s: string)
    ensures |s| > 0
  {
    if n < 16 then [HexDigit(n)] else HexOf(n / 16) + [HexDigit(n % 16)]
  }

  /** A quantity is printed without leading zeros: in no more digits than it needs. */
  lemma {:induction false} HexOfIsMinimal(n: nat, k: nat)
    requires k > 0
    ensures |HexOf(n)| <= k <==> n < Power(16, k)
  {
    if k == 1 {
      assert Power(16, 1) == 16 * Power(16, 0);
      assert n >= 16 ==> |HexOf(n)| == |HexOf(n / 16)| + 1;
    } else if n < 16 {
      PowerAtLeast(k);
    } else {
      HexOfIsMinimal(n / 16, k - 1);
    }
  }

  lemma {:induction false} PowerAtLeast(k: nat)
    requires k > 0
    ensures Power(16, k) >= 16
  {
    if k > 1 {
      PowerAtLeast(k - 1);
    } else {
      assert Power(16, 0) == 1;
    }
  }

  lemma HexDigitValue(d: nat)
    requires d < 16
    ensures HexValue(HexDigit(d)) == Some(d)
  {
  }

  lemma HexOfSplit(n: nat)
    requires n >= 256
    ensures HexOf(n) == HexOf(n / 256) + [HexDigit(n / 16 % 16), HexDigit(n % 16)]
  {
    assert n / 16 / 16 == n / 256;
    assert HexOf(n / 16) == HexOf(n / 256) + [HexDigit(n / 16 % 16)];
  }

  lemma HexDecodeTwo(s: string, hi: nat, lo: nat)
    requires hi < 16 && lo < 16 && HexDecode(s).Some?
    ensures HexDecode(s + [HexDigit(hi), HexDigit(lo)]) == Some(HexDecode(s).value + [16 * hi + lo])
  {
    hide HexDigit, HexValue;
    HexDigitValue(hi);
    HexDigitValue(lo);
    var t := s + [HexDigit(hi), HexDigit(lo)];
    assert t[..|t| - 2] == s;
  }

  lemma NibbleSum(n: nat)
    ensures 16 * (n / 16 % 16) + n % 16 == n % 256
  {
  }

  lemma HexOfDigits(n: nat)
    requires 16 <= n < 256
    ensures HexOf(n) == [HexDigit(n / 16), HexDigit(n % 16)]
  {
    assert HexOf(n / 16) == [HexDigit(n / 16)];
  }

  lemma BigEndianStep(n: nat)
    ensures n > 0 ==> BigEndian(n) == BigEndian(n / 256) + [n % 256]
    ensures 0 < n < 256 ==> BigEndian(n) == [n]
  {
    assert BigEndian(0) == [];
  }

  lemma HexDecodeByte(hi: nat, lo: nat)
    requires hi < 16 && lo < 16
    ensures HexDecode([HexDigit(hi), HexDigit(lo)]) == Some([16 * hi + lo])
  {
    hide HexDigit, HexDecode;
    HexDecodeEmpty();
    HexDecodeTwo("", hi, lo);
    assert "" + [HexDigit(hi), HexDigit(lo)] == [HexDigit(hi), HexDigit(lo)];
    var none: seq<Byte> := [];
    assert none + [16 * hi + lo] == [16 * hi + lo];
  }

  lemma HexDecodeEmpty()
    ensures HexDecode("") == Some([])
  {
  }

  lemma HexOfByte(n: nat)
    requires 16 <= n < 256
    ensures HexDecode(HexOf(n)) == Some(BigEndian(n))
  {
    hide HexOf, HexDigit, HexDecode, BigEndian;
    HexOfDigits(n);
    BigEndianStep(n);
    HexDecodeByte(n / 16, n % 16);
  }

  lemma HexOfSmall(n: nat)
    requires n < 16
    ensures |HexOf(n)| == 1
  {
  }

  lemma {:induction false} HexOfEven(n: nat)
    requires |HexOf(n)| % 2 == 0
    ensures HexDecode(HexOf(n)) == Some(BigEndian(n))
  {
    hide HexOf, HexDecode, HexDigit, BigEndian;
    if n < 16 {
      HexOfSmall(n);
    } else if n < 256 {
      HexOfByte(n);
    } else {
      HexOfSplit(n);
      HexOfEven(n / 256);
      HexDecodeTwo(HexOf(n / 256), n / 16 % 16, n % 16);
      NibbleSum(n);
      BigEndianStep(n);
    }
  }

  lemma {:induction false} HexDecodeOdd(s: string)
    requires |s| % 2 == 1
    ensures HexDecode(s) == None
  {
    if |s| > 1 {
      HexDecodeOdd(s[..|s| - 2]);
    }
  }

  /**
   A quantity printed with %x is encoded as that quantity if and only if it is 0 or its number of hex
   digits is even; otherwise it is encoded as 0.
   */
  lemma QuantityIsEncodedIff(n: nat)
    requires |HexOf(n)| < MAX_LEN && |BigEndian(n)| < MAX_LEN
    ensures EncodeText(HexOf(n)) == EncodeBytes(BigEndian(n)) <==> n == 0 || |HexOf(n)| % 2 == 0
    ensures |HexOf(n)| % 2 == 1 ==> EncodeText(HexOf(n)) == EncodeBytes(BigEndian(0))
  {
    hide HexOf, HexDecode, BigEndian, EncodeBytes, FromBytes;
    if |HexOf(n)| % 2 == 0 {
      HexOfEven(n);
    } else {
      HexDecodeOdd(HexOf(n));
      EncodingOfZero();
      EncodeBytesInjective(BigEndian(n), BigEndian(0));
      BigEndianValue(n);
      BigEndianValue(0);
    }
  }

  lemma EncodingOfZero()
    ensures BigEndian(0) == [] && EncodeBytes([]) == [0x80]
  {
  }

  lemma EncodeBytesInjective(a: seq<Byte>, b: seq<Byte>)
    requires |a| < MAX_LEN && |b| < MAX_LEN
    ensures EncodeBytes(a) == EncodeBytes(b) <==> a == b
  {
    hide EncodeBytes, DecodeOne;
    DecodeEncode(a, []);
    DecodeEncode(b, []);
  }
}
