/**
  The UTF-8 encoder of RFC 3629 (what `Encoding.UTF8.GetBytes` and a default
  `StreamWriter` produce: no byte-order mark), and the facts about it that the
  string round trip depends on.
*/
module Utf8 {
  import opened Bytes

  /** The UTF-8 byte-order mark, the encoding of U+FEFF. */
  const Utf8Bom: seq<byte> := [0xEF, 0xBB, 0xBF]

  const ByteOrderMark: char := '\U{FEFF}'

  /** The one to four bytes RFC 3629 assigns to a Unicode scalar value. */
  function EncodeChar(c: char): (r: seq<byte>)
    ensures 1 <= |r| <= 4
    ensures forall i :: 0 <= i < |r| ==> r[i] < 0xF5
  {
    var v := c as int;
    if v < 0x80 then [v]
    else if v < 0x800 then [0xC0 + v / 0x40, 0x80 + v % 0x40]
    else if v < 0x1_0000 then [0xE0 + v / 0x1000, 0x80 + (v / 0x40) % 0x40, 0x80 + v % 0x40]
    else [0xF0 + v / 0x4_0000, 0x80 + (v / 0x1000) % 0x40, 0x80 + (v / 0x40) % 0x40, 0x80 + v % 0x40]
  }

  function Utf8Encode(s: string): (r: seq<byte>)
    ensures |r| >= |s|
    ensures forall i :: 0 <= i < |r| ==> r[i] < 0xF5
  {
    if s == [] then [] else EncodeChar(s[0]) + Utf8Encode(s[1..])
  }

  predicate StartsWith(bytes: seq<byte>, prefix: seq<byte>)
  {
    |prefix| <= |bytes| && bytes[..|prefix|] == prefix
  }

  predicate StartsWithByteOrderMark(s: string)
  {
    |s| > 0 && s[0] == ByteOrderMark
  }

  /** Only U+FEFF is encoded as the three bytes EF BB BF. */
  lemma EncodeCharIsBom(c: char)
    ensures StartsWith(EncodeChar(c), Utf8Bom) <==> c == ByteOrderMark
  {
    var v := c as int;
    var r := EncodeChar(c);
    if StartsWith(r, Utf8Bom) {
      assert r[..3] == Utf8Bom;
      assert r[0] == 0xEF && r[1] == 0xBB && r[2] == 0xBF;
      if v < 0x800 {
        assert false;
      } else if v >= 0x1_0000 {
        assert false;
      }
      assert 0x800 <= v < 0x1_0000;
      assert v / 0x1000 == 0xF && (v / 0x40) % 0x40 == 0x3B && v % 0x40 == 0x3F;
    }
  }

  /**
    The UTF-8 encoding of a string starts with the byte-order mark exactly when
    the string starts with U+FEFF, and then the rest of the bytes encode the
    rest of the string.
  */
  lemma EncodeStartsWithBom(s: string)
    ensures StartsWith(Utf8Encode(s), Utf8Bom) <==> StartsWithByteOrderMark(s)
    ensures StartsWithByteOrderMark(s) ==> Utf8Encode(s)[3..] == Utf8Encode(s[1..])
  {
    if s != [] {
      var first := EncodeChar(s[0]);
      var bytes := Utf8Encode(s);
      EncodeCharIsBom(s[0]);
      if StartsWith(bytes, Utf8Bom) {
        assert bytes[0] == 0xEF;
        assert first[0] == 0xEF;
        assert |first| == 3;
        assert first == bytes[..3];
      }
    }
  }
}
