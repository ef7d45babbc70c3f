/** Length-encoded integers and strings (pkg/mysqlproxy/protocol.go). */
module LenEnc {
  import opened ByteStrings

  /** The encoding of `uint64(v)`. */
  function LenEncInt(v: nat): (r: bytes)
    ensures |r| == if v < 251 then 1 else if v < TWO_16 then 3 else if v < TWO_24 then 4 else 9
  {
    if v < 251 then [v]
    else if v < TWO_16 then [0xFC] + LE(v, 2)
    else if v < TWO_24 then [0xFD] + LE(v, 3)
    else [0xFE] + LE(v, 8)
  }

  method PutLenEncInt(v: uint64) returns (buf: array<byte>)
    ensures fresh(buf) && buf[..] == LenEncInt(v)
  {
    if v < 251 {
      buf := new byte[1];
      buf[0] := v;
    } else if v < TWO_16 {
      buf := new byte[3];
      buf[0] := 0xFC;
      PutLE(buf, 1, v, 2);
      assert buf[..] == [0xFC] + LE(v, 2);
    } else if v < TWO_24 {
      buf := new byte[4];
      buf[0] := 0xFD;
      buf[1] := v % 256;
      buf[2] := (v / 256) % 256;
      buf[3] := (v / 65536) % 256;
      LE3(v);
      assert buf[..] == [0xFD] + LE(v, 3);
    } else {
      buf := new byte[9];
      buf[0] := 0xFE;
      PutLE(buf, 1, v, 8);
      assert buf[..] == [0xFE] + LE(v, 8);
    }
  }

  function LenEncString(s: bytes): bytes {
    LenEncInt(|s|) + s
  }

  /** decodeLenEncInt: the value at `pos` and the position after it. It accepts every input:
      0xFB reads as 0, 0xFF as the one-byte value 255, and a cut-off value as 0. */
  function DecodeLenEncInt(data: bytes, pos: nat): (r: (int64, nat))
    ensures pos >= |data| ==> r == (0, pos)
    ensures pos < |data| ==> pos < r.1 <= |data|
    ensures pos < |data| && data[pos] != 0xFE ==> 0 <= r.0 < TWO_24
  {
    if pos >= |data| then (0, pos)
    else if data[pos] == 0xFB then (0, pos + 1)
    else if data[pos] == 0xFC then
      if pos + 3 > |data| then (0, pos + 1) else (Fixed(data[pos + 1..pos + 3]), pos + 3)
    else if data[pos] == 0xFD then
      if pos + 4 > |data| then (0, pos + 1) else (Fixed(data[pos + 1..pos + 4]), pos + 4)
    else if data[pos] == 0xFE then
      if pos + 9 > |data| then (0, pos + 1) else (Fixed(data[pos + 1..pos + 9]), pos + 9)
    else (data[pos], pos + 1)
  }

  /** `int(...)` of a little-endian integer of at most eight bytes. */
  function Fixed(b: bytes): (r: int64)
    requires |b| in {2, 3, 8}
    ensures |b| <= 3 ==> 0 <= r < TWO_24
  {
    FromLEBound(b);
    Pow256Values();
    ToInt64(FromLE(b))
  }

  /** Decoding undoes encoding wherever the encoding stands, and stops right after it. The
      value comes back through Go's int, so it is the same number exactly below 2^63. */
  lemma DecodeUndoesEncode(before: bytes, v: uint64, after: bytes)
    ensures DecodeLenEncInt(before + LenEncInt(v) + after, |before|) ==
            (ToInt64(v), |before| + |LenEncInt(v)|)
    ensures DecodeLenEncInt(before + LenEncInt(v) + after, |before|).0 == v <==> v < TWO_63
  {
    var e := LenEncInt(v);
    var data := before + e + after;
    var pos := |before|;
    assert data[pos..pos + |e|] == e;
    assert data[pos] == e[0];
    assert |e| > 1 ==> data[pos + 1..pos + |e|] == e[1..];
    Pow256Values();
    if 251 <= v < TWO_16 {
      FromLEOfLE(v, 2);
    } else if TWO_16 <= v < TWO_24 {
      FromLEOfLE(v, 3);
    } else if TWO_24 <= v {
      FromLEOfLE(v, 8);
    }
  }

  /** No encoding is a prefix of another one: the code can be read without look-ahead. */
  lemma PrefixCode(v: uint64, a: bytes, w: uint64, b: bytes)
    requires LenEncInt(v) + a == LenEncInt(w) + b
    ensures v == w && a == b
  {
    DecodeUndoesEncode([], v, a);
    DecodeUndoesEncode([], w, b);
    assert [] + LenEncInt(v) == LenEncInt(v) && [] + LenEncInt(w) == LenEncInt(w);
    assert a == (LenEncInt(v) + a)[|LenEncInt(v)|..];
    assert b == (LenEncInt(w) + b)[|LenEncInt(w)|..];
  }

  /** The first byte tells the length, and 0xFB and 0xFF never start an encoding. */
  lemma FirstByte(v: nat)
    ensures LenEncInt(v)[0] != 0xFB && LenEncInt(v)[0] != 0xFF
    ensures LenEncInt(v)[0] == 0 <==> v == 0
    ensures LenEncInt(v)[0] == 0xFE <==> v >= TWO_24
  {
  }

  /** No two strings, with whatever follows them, share an encoding. */
  lemma StringPrefixCode(s: bytes, a: bytes, t: bytes, b: bytes)
    requires |s| < TWO_64 && |t| < TWO_64
    requires LenEncString(s) + a == LenEncString(t) + b
    ensures s == t && a == b
  {
    assert LenEncString(s) + a == LenEncInt(|s|) + (s + a);
    assert LenEncString(t) + b == LenEncInt(|t|) + (t + b);
    PrefixCode(|s|, s + a, |t|, t + b);
    assert s == (s + a)[..|s|] && t == (t + b)[..|t|];
    assert a == (s + a)[|s|..] && b == (t + b)[|t|..];
  }
}
