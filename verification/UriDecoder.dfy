/**
 Percent-decoding of URIs (section 2.1 of RFC 3986), on NUL-terminated byte arrays. The array
 of a URI ends with its terminator, so that reading past it would be out of bounds.
 */
module UriDecoder {
  import opened Basics

  const PERCENT: Byte := 0x25

  /** Sets the bit that tells lower-case letters from upper-case ones. */
  function LowerCase(c: Byte): Byte {
    if c / 0x20 % 2 == 0 then c + 0x20 else c
  }

  function HexValue(c: Byte): Option<Byte> {
    if 0x30 <= c <= 0x39 then Some(c - 0x30)
    else if 0x61 <= LowerCase(c) <= 0x66 then Some(LowerCase(c) - 0x57)
    else None
  }

  /** The byte that two hex digits stand for. */
  function HexPair(s: seq<Byte>): Option<Byte> {
    if |s| < 2 || HexValue(s[0]).None? || HexValue(s[1]).None? then None
    else Some(HexValue(s[0]).value * 16 + HexValue(s[1]).value)
  }

  function Prepend(s: seq<Byte>, r: Option<seq<Byte>>): Option<seq<Byte>> {
    if r.None? then None else Some(s + r.value)
  }

  function Decode(s: seq<Byte>): Option<seq<Byte>> {
    if s == [] then Some([])
    else if s[0] != PERCENT then Prepend([s[0]], Decode(s[1..]))
    else if HexPair(s[1..]).None? then None
    else Prepend([HexPair(s[1..]).value], Decode(s[3..]))
  }

  // ----- what decoding undoes -----

  /** The hex digit for a value, in either case. */
  function HexDigit(v: int, upper: bool): Byte
    requires 0 <= v < 16
  {
    (if upper then "0123456789ABCDEF" else "0123456789abcdef")[v] as int
  }

  /** A HEXDIG of RFC 3986, in either case. */
  predicate IsHexDigit(c: Byte) {
    || '0' as int <= c <= '9' as int
    || 'A' as int <= c <= 'F' as int
    || 'a' as int <= c <= 'f' as int
  }

  /** `c` is one of the digits for `v`. */
  predicate IsDigitOf(c: Byte, v: int)
    requires 0 <= v < 16
  {
    c == HexDigit(v, true) || c == HexDigit(v, false)
  }

  /** The values of exactly the hex digits are taken, and each is that of its digit. */
  lemma HexValueIff(c: Byte, v: int)
    requires 0 <= v < 16
    ensures HexValue(c).Some? <==> IsHexDigit(c)
    ensures HexValue(c) == Some(v) <==> IsDigitOf(c, v)
    ensures HexValue(c).Some? ==> 0 <= HexValue(c).value < 16
  {
  }

  /** Two characters make a byte exactly if they are the digits of its halves. */
  lemma HexPairIff(s: seq<Byte>, b: Byte)
    ensures HexPair(s).Some? <==> |s| >= 2 && IsHexDigit(s[0]) && IsHexDigit(s[1])
    ensures HexPair(s) == Some(b) <==> |s| >= 2 && IsDigitOf(s[0], b / 16) && IsDigitOf(s[1], b % 16)
  {
    hide HexValue, IsHexDigit, IsDigitOf;
    if |s| >= 2 {
      HexValueIff(s[0], b / 16);
      HexValueIff(s[1], b % 16);
    }
  }

  /** `s` spells each of the bytes out, or escapes it by '%' and two digits; '%' is always escaped. */
  predicate IsEncoding(s: seq<Byte>, bytes: seq<Byte>) {
    if bytes == [] then s == []
    else
      var b, rest := bytes[0], bytes[1..];
      || (s != [] && s[0] == b != '%' as int && IsEncoding(s[1..], rest))
      || (&& |s| >= 3 && s[0] == '%' as int && IsDigitOf(s[1], b / 16) && IsDigitOf(s[2], b % 16)
          && IsEncoding(s[3..], rest))
  }

  /** Decoding finds exactly the bytes of which the text is an encoding. */
  lemma {:induction false} DecodeIffEncoding(s: seq<Byte>, bytes: seq<Byte>)
    ensures Decode(s) == Some(bytes) <==> IsEncoding(s, bytes)
    decreases |s|
  {
    hide HexPair;
    if s != [] && bytes != [] {
      var rest := bytes[1..];
      HexPairIff(s[1..], bytes[0]);
      assert bytes == [bytes[0]] + rest;
      DecodeIffEncoding(s[1..], rest);
      if |s| >= 3 {
        DecodeIffEncoding(s[3..], rest);
      }
      if s[0] != PERCENT && Decode(s[1..]).Some? {
        assert ([s[0]] + Decode(s[1..]).value)[1..] == Decode(s[1..]).value;
      }
      if s[0] == PERCENT && HexPair(s[1..]).Some? && Decode(s[3..]).Some? {
        assert ([HexPair(s[1..]).value] + Decode(s[3..]).value)[1..] == Decode(s[3..]).value;
      }
    }
  }

  /** How one byte is to be written; '%' is escaped in any case. */
  datatype Style = Style(escape: bool, upper1: bool, upper2: bool)

  function Encode1(b: Byte, style: Style): seq<Byte> {
    if b != PERCENT && !style.escape then [b]
    else [PERCENT, HexDigit(b / 16, style.upper1), HexDigit(b % 16, style.upper2)]
  }

  function Encode(bytes: seq<Byte>, styles: seq<Style>): seq<Byte>
    requires |styles| == |bytes|
  {
    if bytes == [] then [] else Encode1(bytes[0], styles[0]) + Encode(bytes[1..], styles[1..])
  }

  lemma {:induction false} EncodeIsEncoding(bytes: seq<Byte>, styles: seq<Style>)
    requires |styles| == |bytes|
    ensures IsEncoding(Encode(bytes, styles), bytes)
  {
    if bytes != [] {
      var b, first, rest := bytes[0], Encode1(bytes[0], styles[0]), Encode(bytes[1..], styles[1..]);
      var s := first + rest;
      EncodeIsEncoding(bytes[1..], styles[1..]);
      assert s[|first|..] == rest;
      if |first| == 3 {
        assert s[1] == first[1] && s[2] == first[2];
      }
    }
  }

  /** Decoding undoes encoding, whichever bytes were escaped and in whichever case. */
  lemma RoundTrip(bytes: seq<Byte>, styles: seq<Style>)
    requires |styles| == |bytes|
    ensures Decode(Encode(bytes, styles)) == Some(bytes)
  {
    EncodeIsEncoding(bytes, styles);
    DecodeIffEncoding(Encode(bytes, styles), bytes);
  }

  // ----- when decoding fails -----

  /** At `p` there is a '%' without two hex digits behind it. */
  predicate IsStray(s: seq<Byte>, p: nat) {
    p < |s| && s[p] == '%' as int && !(p + 2 < |s| && IsHexDigit(s[p + 1]) && IsHexDigit(s[p + 2]))
  }

  lemma StrayLater(s: seq<Byte>, k: nat, p: nat)
    requires k <= |s|
    ensures IsStray(s[k..], p) <==> IsStray(s, k + p)
  {
    if p < |s| - k {
      assert s[k..][p + 1..] == s[k + p + 1..];
    }
  }

  /** Decoding fails exactly if some '%' lacks its two hex digits. */
  lemma {:induction false} DecodeFailsIff(s: seq<Byte>)
    ensures Decode(s).None? <==> exists p: nat :: IsStray(s, p)
    decreases |s|, 1
  {
    if s != [] {
      assert s[0 + 1..] == s[1..];
      if s[0] != PERCENT {
        DecodeFailsAfter(s, 1);
      } else if HexPair(s[1..]).Some? {
        assert !IsStray(s, 1) && !IsStray(s, 2);
        DecodeFailsAfter(s, 3);
      } else {
        assert IsStray(s, 0);
      }
    }
  }

  lemma {:induction false} DecodeFailsAfter(s: seq<Byte>, k: nat)
    requires 0 < k <= |s|
    requires forall p: nat :: p < k ==> !IsStray(s, p)
    ensures Decode(s[k..]).None? <==> exists p: nat :: IsStray(s, p)
    decreases |s|, 0
  {
    DecodeFailsIff(s[k..]);
    if p: nat :| IsStray(s[k..], p) {
      StrayLater(s, k, p);
    }
    if p: nat :| IsStray(s, p) {
      StrayLater(s, k, p - k);
    }
  }

  /** Without '%' there is nothing to decode. */
  lemma {:induction false} DecodePlain(s: seq<Byte>)
    requires PERCENT !in s
    ensures Decode(s) == Some(s)
  {
    if s != [] {
      assert s[0] in s && forall c :: c in s[1..] ==> c in s;
      DecodePlain(s[1..]);
      assert s == [s[0]] + s[1..];
    }
  }

  // ----- the decoder -----

  /** The array is a C string: it ends with its terminator, and there is none before. */
  ghost predicate IsCString(a: array<Byte>)
    reads a
  {
    a.Length > 0 && a[a.Length - 1] == 0 && 0 !in a[..a.Length - 1]
  }

  /** Reads two hex digits at `at`; the second one is looked at only if the first one is good. */
  method HexCharPairToByte(uri: array<Byte>, at: nat) returns (r: Option<Byte>)
    requires IsCString(uri) && at < uri.Length
    ensures r == HexPair(uri[at..uri.Length - 1])
  {
    var byte: int := 0;
    ghost var s := uri[at..uri.Length - 1];
    for i := 0 to 2
      invariant i <= |s|
      invariant i == 0 ==> byte == 0
      invariant i == 1 ==> HexValue(s[0]) == Some(byte)
      invariant i == 2 ==> HexPair(s) == Some(byte)
    {
      assert 0 <= byte < 16;
      var c := uri[at + i];
      if 0x30 <= c <= 0x39 {
        byte := byte * 16 + c - 0x30;
      } else {
        c := LowerCase(c);
        if 0x61 <= c <= 0x66 {
          byte := byte * 16 + c - 0x57;
        } else {
          return None;
        }
      }
    }
    return Some(byte);
  }

  /** The place of the first '%', or of the terminator. */
  method FindPercent(uri: array<Byte>) returns (i: nat)
    requires IsCString(uri)
    ensures i < uri.Length && PERCENT !in uri[..i] && (i < uri.Length - 1 ==> uri[i] == PERCENT)
  {
    i := 0;
    while uri[i] != 0 && uri[i] != PERCENT
      invariant i < uri.Length && PERCENT !in uri[..i]
      decreases uri.Length - i
    {
      i := i + 1;
    }
  }

  lemma PrependMore(done: seq<Byte>, x: Byte, r: Option<seq<Byte>>)
    ensures Prepend(done, Prepend([x], r)) == Prepend(done + [x], r)
  {
    if r.Some? {
      assert done + ([x] + r.value) == done + [x] + r.value;
    }
  }

  lemma {:induction false} DecodePrefix(plain: seq<Byte>, s: seq<Byte>)
    requires PERCENT !in plain
    ensures Decode(plain + s) == Prepend(plain, Decode(s))
    decreases |plain|
  {
    var n := |plain| - 1;
    if plain == [] {
      assert plain + s == s;
      assert Decode(s).Some? ==> [] + Decode(s).value == Decode(s).value;
    } else {
      var front, x := plain[..n], plain[n];
      assert plain == front + [x] && plain + s == front + ([x] + s);
      assert x in plain && forall c :: c in front ==> c in plain;
      DecodePrefix(front, [x] + s);
      assert ([x] + s)[1..] == s;
      PrependMore(front, x, Decode(s));
    }
  }

  lemma DecodeCopy(s: seq<Byte>, at: nat, done: seq<Byte>)
    requires at < |s| && s[at] != PERCENT
    ensures Prepend(done, Decode(s[at..])) == Prepend(done + [s[at]], Decode(s[at + 1..]))
  {
    assert s[at..][1..] == s[at + 1..];
    PrependMore(done, s[at], Decode(s[at + 1..]));
  }

  lemma DecodeEscape(s: seq<Byte>, at: nat, done: seq<Byte>)
    requires at < |s| && s[at] == PERCENT
    ensures var byte := HexPair(s[at + 1..]);
            if byte.None? then Decode(s[at..]).None?
            else at + 3 <= |s| && Prepend(done, Decode(s[at..])) == Prepend(done + [byte.value], Decode(s[at + 3..]))
  {
    assert s[at..][1..] == s[at + 1..];
    var byte := HexPair(s[at + 1..]);
    if byte.Some? {
      assert s[at..][3..] == s[at + 3..];
      PrependMore(done, byte.value, Decode(s[at + 3..]));
    }
  }

  lemma NothingToDecode(s: seq<Byte>, at: nat, done: seq<Byte>)
    requires at == |s|
    ensures Prepend(done, Decode(s[at..])) == Some(done)
  {
    assert s[at..] == [] && done + [] == done;
  }

  /**
   Decodes from the first '%' on; the result is the length, or none if an escape is malformed.
   The test for room behind a '%' keeps using the place of the first one; what stops a
   malformed escape near the end is the terminator, which is no hex digit.
   */
  method DecodeRest(uri: array<Byte>, first: nat, decoded: array<Byte>, ghost s: seq<Byte>) returns (n: Option<nat>)
    requires IsCString(uri) && s == uri[..uri.Length - 1] && first < |s| && uri[first] == PERCENT
    requires decoded != uri && decoded.Length == uri.Length
    requires Decode(s) == Prepend(decoded[..first], Decode(s[first..]))
    modifies decoded
    ensures n.None? <==> Decode(s).None?
    ensures n.Some? ==> n.value < decoded.Length && Decode(s) == Some(decoded[..n.value]) && decoded[n.value] == 0
  {
    hide Decode, HexPair;
    var len, ch, dest := uri.Length - 1, first, first;
    while uri[ch] != 0
      invariant first <= dest <= ch <= len && (ch == first || first + 3 <= len)
      invariant Decode(s) == Prepend(decoded[..dest], Decode(s[ch..]))
      decreases len - ch
    {
      ghost var done := decoded[..dest];
      if uri[ch] != PERCENT {
        DecodeCopy(s, ch, done);
        decoded[dest] := uri[ch];
        assert decoded[..dest + 1] == done + [s[ch]];
        dest, ch := dest + 1, ch + 1;
      } else {
        DecodeEscape(s, ch, done);
        assert s[ch + 1..] == uri[ch + 1..len];
        var byte := HexCharPairToByte(uri, ch + 1);
        if first + 3 > len || byte.None? {
          return None;
        }
        decoded[dest] := byte.value;
        assert decoded[..dest + 1] == done + [byte.value];
        dest, ch := dest + 1, ch + 3;
      }
    }
    NothingToDecode(s, ch, decoded[..dest]);
    assert Decode(s) == Some(decoded[..dest]);
    ghost var done := decoded[..dest];
    decoded[dest] := 0;
    assert decoded[..dest] == done;
    return Some(dest);
  }

  /** Decodes a URI: the URI itself if there is nothing to decode, null if an escape is malformed. */
  method DecodeUri(uri: array<Byte>) returns (decoded: array?<Byte>)
    requires IsCString(uri)
    ensures PERCENT !in uri[..uri.Length - 1] <==> decoded == uri
    ensures decoded == null <==> Decode(uri[..uri.Length - 1]).None?
    ensures decoded != null && decoded != uri ==>
              var d := Decode(uri[..uri.Length - 1]).value;
              fresh(decoded) && |d| < decoded.Length == uri.Length && decoded[..|d|] == d && decoded[|d|] == 0
  {
    var first := FindPercent(uri);
    ghost var s := uri[..uri.Length - 1];
    if uri[first] == 0 {
      assert s == uri[..first];
      DecodePlain(s);
      return uri;
    }
    decoded := new Byte[uri.Length];
    forall k | 0 <= k < first {
      decoded[k] := uri[k];
    }
    assert s == s[..first] + s[first..] && decoded[..first] == s[..first] == uri[..first];
    DecodePrefix(s[..first], s[first..]);
    var n := DecodeRest(uri, first, decoded, s);
    if n.None? {
      return null;
    }
    assert s[first] in s;
  }
}
