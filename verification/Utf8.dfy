/** Bytes and the UTF-8 encoding of RFC 3629, as Python's strict `str.encode` and `bytes.decode`. */
module Utf8 {
  import opened Wrappers

  newtype byte = x: int | 0 <= x < 256

  function EncodeChar(c: char): (bytes: seq<byte>)
    ensures 1 <= |bytes| <= 4
  {
    var n := c as int;
    if n < 0x80 then [n as byte]
    else if n < 0x800 then [(0xC0 + n / 0x40) as byte, (0x80 + n % 0x40) as byte]
    else if n < 0x1_0000 then
      [(0xE0 + n / 0x1000) as byte, (0x80 + n / 0x40 % 0x40) as byte, (0x80 + n % 0x40) as byte]
    else
      [(0xF0 + n / 0x4_0000) as byte, (0x80 + n / 0x1000 % 0x40) as byte,
       (0x80 + n / 0x40 % 0x40) as byte, (0x80 + n % 0x40) as byte]
  }

  function Encode(s: string): seq<byte> {
    if s == "" then [] else EncodeChar(s[0]) + Encode(s[1..])
  }

  predicate IsContinuation(b: byte) {
    0x80 <= b < 0xC0
  }

  /** The length a first byte announces; 0 when it cannot start a character. */
  function Width(first: byte): (w: nat)
    ensures w <= 4
    ensures IsContinuation(first) ==> w == 0
  {
    if first < 0x80 then 1
    else if first < 0xC0 then 0
    else if first < 0xE0 then 2
    else if first < 0xF0 then 3
    else if first < 0xF8 then 4
    else 0
  }

  /** The six bits a continuation byte carries. */
  function Low6(b: byte): nat {
    (b as nat) % 0x40
  }

  /** The code point a byte group of the announced length spells, before it is checked. */
  function CodePoint(bytes: seq<byte>): (n: nat)
    requires bytes != [] && |bytes| == Width(bytes[0])
  {
    var first := bytes[0] as nat;
    if |bytes| == 1 then first
    else if |bytes| == 2 then first % 0x20 * 0x40 + Low6(bytes[1])
    else if |bytes| == 3 then (first % 0x10 * 0x40 + Low6(bytes[1])) * 0x40 + Low6(bytes[2])
    else ((first % 0x08 * 0x40 + Low6(bytes[1])) * 0x40 + Low6(bytes[2])) * 0x40 + Low6(bytes[3])
  }

  predicate IsScalar(n: int) {
    0 <= n < 0xD800 || 0xE000 <= n < 0x11_0000
  }

  /** A group counts only if it is the encoding of its code point. */
  function DecodeGroup(group: seq<byte>): (c: Option<char>)
    requires group != [] && |group| == Width(group[0])
    ensures c.Some? ==> EncodeChar(c.value) == group
  {
    var n := CodePoint(group);
    if IsScalar(n) && EncodeChar(n as char) == group then Some(n as char) else None
  }

  function Append(s: string, rest: Option<string>): Option<string> {
    if rest.None? then None else Some(s + rest.value)
  }

  /** Strict decoding, one group after another. */
  function Decode(bytes: seq<byte>): Option<string> {
    if bytes == [] then Some("") else
      var w := Width(bytes[0]);
      if w == 0 || |bytes| < w then None else
        match DecodeGroup(bytes[..w])
        case None => None
        case Some(c) => Append([c], Decode(bytes[w..]))
  }

  lemma Base64Digits(n: nat)
    ensures n == n / 0x40 * 0x40 + n % 0x40
    ensures (0x80 + n % 0x40) % 0x40 == n % 0x40
    ensures n / 0x40 / 0x40 == n / 0x1000 && n / 0x1000 / 0x40 == n / 0x4_0000
  {
  }

  lemma GroupOfTwo(n: nat)
    requires 0x80 <= n < 0x800
    ensures var group := [(0xC0 + n / 0x40) as byte, (0x80 + n % 0x40) as byte];
            Width(group[0]) == 2 && CodePoint(group) == n && IsContinuation(group[1])
  {
    Base64Digits(n);
    assert (0xC0 + n / 0x40) % 0x20 == n / 0x40;
  }

  lemma GroupOfThree(n: nat)
    requires 0x800 <= n < 0x1_0000
    ensures var group := [(0xE0 + n / 0x1000) as byte, (0x80 + n / 0x40 % 0x40) as byte, (0x80 + n % 0x40) as byte];
            Width(group[0]) == 3 && CodePoint(group) == n && IsContinuation(group[1]) && IsContinuation(group[2])
  {
    Base64Digits(n);
    Base64Digits(n / 0x40);
    assert (0xE0 + n / 0x1000) % 0x10 == n / 0x1000;
  }

  lemma GroupOfFour(n: nat)
    requires 0x1_0000 <= n < 0x11_0000
    ensures var group := [(0xF0 + n / 0x4_0000) as byte, (0x80 + n / 0x1000 % 0x40) as byte,
                          (0x80 + n / 0x40 % 0x40) as byte, (0x80 + n % 0x40) as byte];
            && Width(group[0]) == 4 && CodePoint(group) == n
            && IsContinuation(group[1]) && IsContinuation(group[2]) && IsContinuation(group[3])
  {
    Base64Digits(n);
    Base64Digits(n / 0x40);
    Base64Digits(n / 0x1000);
    assert (0xF0 + n / 0x4_0000) % 0x08 == n / 0x4_0000;
  }

  /** The first byte of a group announces its length, and the group spells its character. */
  lemma GroupOfChar(c: char)
    ensures Width(EncodeChar(c)[0]) == |EncodeChar(c)|
    ensures CodePoint(EncodeChar(c)) == c as int
    ensures forall i :: 1 <= i < |EncodeChar(c)| ==> IsContinuation(EncodeChar(c)[i])
  {
    var n := c as int;
    if 0x80 <= n < 0x800 {
      GroupOfTwo(n);
    } else if 0x800 <= n < 0x1_0000 {
      GroupOfThree(n);
    } else if 0x1_0000 <= n {
      GroupOfFour(n);
    }
  }

  lemma {:induction false} EncodeConcat(a: string, b: string)
    ensures Encode(a + b) == Encode(a) + Encode(b)
  {
    if a == "" {
      assert a + b == b;
    } else {
      assert (a + b)[1..] == a[1..] + b;
      EncodeConcat(a[1..], b);
    }
  }

  lemma DecodeOneChar(c: char, rest: seq<byte>)
    ensures Decode(EncodeChar(c) + rest) == Append([c], Decode(rest))
  {
    var group := EncodeChar(c);
    var bytes := group + rest;
    GroupOfChar(c);
    assert bytes[0] == group[0];
    assert bytes[..|group|] == group && bytes[|group|..] == rest;
    assert IsScalar(c as int) && (c as int) as char == c;
  }

  lemma AppendTwice(a: string, b: string, rest: Option<string>)
    ensures Append(a, Append(b, rest)) == Append(a + b, rest)
  {
    if rest.Some? {
      assert a + (b + rest.value) == (a + b) + rest.value;
    }
  }

  lemma EncodeFirst(s: string, rest: seq<byte>)
    requires s != ""
    ensures Encode(s) + rest == EncodeChar(s[0]) + (Encode(s[1..]) + rest)
  {
  }

  /** Decoding undoes encoding, whatever follows. */
  lemma {:induction false} DecodeEncodeThen(s: string, rest: seq<byte>)
    ensures Decode(Encode(s) + rest) == Append(s, Decode(rest))
  {
    if s == "" {
      assert Encode(s) + rest == rest;
      assert Decode(rest).Some? ==> "" + Decode(rest).value == Decode(rest).value;
    } else {
      DecodeEncodeThen(s[1..], rest);
      EncodeFirst(s, rest);
      DecodeOneChar(s[0], Encode(s[1..]) + rest);
      AppendTwice([s[0]], s[1..], Decode(rest));
      assert [s[0]] + s[1..] == s;
    }
  }

  /** Plain ASCII travels as itself. */
  lemma {:induction false} AsciiIsItself(s: string)
    requires forall i :: 0 <= i < |s| ==> s[i] as int < 0x80
    ensures |Encode(s)| == |s| && forall i :: 0 <= i < |s| ==> Encode(s)[i] as int == s[i] as int
  {
    if s != "" {
      AsciiIsItself(s[1..]);
    }
  }

  lemma DecodeEncode(s: string)
    ensures Decode(Encode(s)) == Some(s)
  {
    DecodeEncodeThen(s, []);
    assert Encode(s) + [] == Encode(s);
    assert s + "" == s;
  }

  lemma FirstGroup(bytes: seq<byte>)
    requires bytes != [] && Decode(bytes).Some?
    ensures var w, s := Width(bytes[0]), Decode(bytes).value;
            && 0 < w <= |bytes| && s != "" && EncodeChar(s[0]) == bytes[..w]
            && Decode(bytes[w..]) == Some(s[1..])
  {
  }

  lemma EncodeGlued(bytes: seq<byte>, w: nat, s: string)
    requires s != "" && w <= |bytes|
    requires EncodeChar(s[0]) == bytes[..w] && Encode(s[1..]) == bytes[w..]
    ensures Encode(s) == bytes
  {
  }

  /** Only encodings decode. */
  lemma {:induction false} EncodeDecode(bytes: seq<byte>)
    ensures Decode(bytes).Some? ==> Encode(Decode(bytes).value) == bytes
  {
    if Decode(bytes).Some? && bytes != [] {
      FirstGroup(bytes);
      var w := Width(bytes[0]);
      EncodeDecode(bytes[w..]);
      EncodeGlued(bytes, w, Decode(bytes).value);
    }
  }

  /** A position in an encoded string is either between two characters or at a continuation byte. */
  lemma {:induction false} CutEncoded(s: string, k: nat) returns (i: nat)
    requires k <= |Encode(s)|
    ensures i <= |s|
    ensures (k < |Encode(s)| && IsContinuation(Encode(s)[k])) || Encode(s[i..]) == Encode(s)[k..]
  {
    if k == 0 {
      return 0;
    }
    var group := EncodeChar(s[0]);
    GroupOfChar(s[0]);
    if k < |group| {
      assert Encode(s)[k] == group[k];
      return 0;
    }
    i := CutEncoded(s[1..], k - |group|);
    assert s[1..][i..] == s[1 + i..];
    assert Encode(s)[k..] == Encode(s[1..])[k - |group|..];
    i := i + 1;
  }
}
