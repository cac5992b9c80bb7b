/**
 * The `"X2"` rendering of digest bytes: two upper-case hexadecimal digits per byte,
 * most significant nibble first, bytes in order, no separators. This is the
 * base 16 encoding of section 8 of RFC 4648. `FromBase16` is its decoder.
 */
module Hex {
  import opened Wrappers

  newtype byte = x: int | 0 <= x < 256

  predicate IsUpperHexChar(c: char) {
    ('0' <= c <= '9') || ('A' <= c <= 'F')
  }

  predicate IsUpperHex(s: string) {
    forall i :: 0 <= i < |s| ==> IsUpperHexChar(s[i])
  }

  /** The upper-case digit of a nibble. */
  function HexDigit(n: int): (c: char)
    requires 0 <= n < 16
    ensures IsUpperHexChar(c)
  {
    if n < 10 then ('0' as int + n) as char else ('A' as int + n - 10) as char
  }

  /** The nibble an upper-case digit stands for; nothing for any other character. */
  function DigitValue(c: char): (r: Option<int>)
    ensures r.Some? <==> IsUpperHexChar(c)
    ensures r.Some? ==> 0 <= r.value < 16 && HexDigit(r.value) == c
  {
    if '0' <= c <= '9' then Some(c as int - '0' as int)
    else if 'A' <= c <= 'F' then Some(c as int - 'A' as int + 10)
    else None
  }

  /** `b.ToString("X2")`. */
  function X2(b: byte): (s: string)
    ensures |s| == 2 && IsUpperHex(s)
    ensures DigitValue(s[0]) == Some(b as int / 16) && DigitValue(s[1]) == Some(b as int % 16)
  {
    [HexDigit(b as int / 16), HexDigit(b as int % 16)]
  }

  /** The byte two digits stand for. */
  function DecodeByte(hi: char, lo: char): (r: Option<byte>)
    ensures r.Some? <==> IsUpperHexChar(hi) && IsUpperHexChar(lo)
  {
    match (DigitValue(hi), DigitValue(lo))
    case (Some(h), Some(l)) => Some((16 * h + l) as byte)
    case _ => None
  }

  lemma X2Decodes(b: byte)
    ensures DecodeByte(X2(b)[0], X2(b)[1]) == Some(b)
  {
  }

  /** The text the `foreach` loop over the digest bytes builds: each byte's two digits appended in order. */
  function Base16(bytes: seq<byte>): (s: string)
    ensures |s| == 2 * |bytes|
    ensures IsUpperHex(s)
  {
    if bytes == [] then ""
    else Base16(bytes[..|bytes| - 1]) + X2(bytes[|bytes| - 1])
  }

  /** Decoder of upper-case base 16 text; fails on odd length or any other character. */
  function FromBase16(s: string): (r: Option<seq<byte>>)
    decreases |s|
  {
    if |s| == 0 then Some([])
    else if |s| == 1 then None
    else
      match (FromBase16(s[..|s| - 2]), DecodeByte(s[|s| - 2], s[|s| - 1]))
      case (Some(init), Some(b)) => Some(init + [b])
      case _ => None
  }

  /** The rendering of byte `i` sits at characters `2i` and `2i + 1`. */
  lemma {:induction false} Base16At(bytes: seq<byte>, i: int)
    requires 0 <= i < |bytes|
    ensures Base16(bytes)[2 * i .. 2 * i + 2] == X2(bytes[i])
  {
    var n := |bytes|;
    if i < n - 1 {
      Base16At(bytes[..n - 1], i);
      assert bytes[..n - 1][i] == bytes[i];
    }
  }

  /** Decoding the rendering gives back the digest bytes: the rendering loses nothing. */
  lemma {:induction false} DecodeBase16(bytes: seq<byte>)
    ensures FromBase16(Base16(bytes)) == Some(bytes)
  {
    if bytes != [] {
      var n := |bytes|;
      var s := Base16(bytes);
      var init, last := bytes[..n - 1], bytes[n - 1];
      assert s == Base16(init) + X2(last);
      DecodeBase16(init);
      assert s[..|s| - 2] == Base16(init);
      X2Decodes(last);
      assert s[|s| - 2] == X2(last)[0] && s[|s| - 1] == X2(last)[1];
      assert DecodeByte(s[|s| - 2], s[|s| - 1]) == Some(last);
      assert init + [last] == bytes;
    }
  }

  /** Two digits that decode to a byte are that byte's rendering. */
  lemma X2OfDecoded(hi: char, lo: char, b: byte)
    requires DecodeByte(hi, lo) == Some(b)
    ensures X2(b) == [hi, lo]
  {
    var h, l := DigitValue(hi).value, DigitValue(lo).value;
    assert b as int == 16 * h + l;
    assert b as int / 16 == h && b as int % 16 == l;
  }

  /** Whatever text decodes is exactly the rendering of what it decodes to. */
  lemma {:induction false} EncodeFromBase16(s: string, bytes: seq<byte>)
    requires FromBase16(s) == Some(bytes)
    ensures Base16(bytes) == s
  {
    if |s| > 0 {
      var n := |s|;
      var init := FromBase16(s[..n - 2]).value;
      var b := DecodeByte(s[n - 2], s[n - 1]).value;
      assert bytes == init + [b];
      EncodeFromBase16(s[..n - 2], init);
      X2OfDecoded(s[n - 2], s[n - 1], b);
      assert bytes[..|bytes| - 1] == init;
      assert s == s[..n - 2] + [s[n - 2], s[n - 1]];
    }
  }

  /** Two byte strings render alike only when they are equal. */
  lemma Base16Injective(a: seq<byte>, b: seq<byte>)
    ensures Base16(a) == Base16(b) ==> a == b
  {
    DecodeBase16(a);
    DecodeBase16(b);
  }
}
