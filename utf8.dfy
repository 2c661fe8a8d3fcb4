/**
 * The UTF-8 helpers of the invoice script, `strToUTF8Arr` and
 * `UTF8ArrToStr`.  A JavaScript string is a sequence of UTF-16 code units
 * (`charCodeAt` is below 0x10000), so the encoder writes one to three bytes
 * per unit.  The decoder reads the lead byte, takes up to five continuation
 * bytes without checking them, and hands the sum to `String.fromCharCode`,
 * which keeps its low sixteen bits.
 */
module Utf8 {
  import opened Bytes

  /** A UTF-16 code unit, as `charCodeAt` returns it. */
  type CodeUnit = c: int | 0 <= c < 0x10000

  // ------------------------------------------------------------ encoder

  /** The bytes of one code unit: the one-, two- and three-byte forms. */
  function EncodeUnit(c: CodeUnit): (r: seq<Byte>)
    ensures 1 <= |r| <= 3
  {
    if c < 0x80 then [c]
    else if c < 0x800 then [192 + c / 64, 128 + c % 64]
    else [224 + c / 4096, 128 + c / 64 % 64, 128 + c % 64]
  }

  /** The mapping pass of `strToUTF8Arr`: the byte count of a unit, by the full table of the source. */
  function UnitLength(c: nat): nat
  {
    if c < 0x80 then 1 else if c < 0x800 then 2 else if c < 0x10000 then 3
    else if c < 0x200000 then 4 else if c < 0x4000000 then 5 else 6
  }

  /** The bytes of a string, unit after unit. */
  function EncodeUnits(s: seq<CodeUnit>): seq<Byte>
  {
    if s == [] then [] else EncodeUnit(s[0]) + EncodeUnits(s[1..])
  }

  /** The byte count of the mapping pass is the length of the unit's bytes. */
  lemma UnitLengthIsLength(c: CodeUnit)
    ensures UnitLength(c) == |EncodeUnit(c)|
  {
  }

  /**
   * The bytes are standard UTF-8 for the unit taken as a code point: the
   * shortest form, a lead byte that tells the length, continuation bytes
   * `10xxxxxx`, and the unit's bits in order.
   */
  lemma EncodeUnitForm(c: CodeUnit)
    ensures var r := EncodeUnit(c);
      (|r| == 1 <==> c < 0x80) && (|r| == 2 <==> 0x80 <= c < 0x800) && (|r| == 3 <==> 0x800 <= c)
    ensures var r := EncodeUnit(c);
      (|r| == 1 ==> r[0] < 128) &&
      (|r| == 2 ==> 192 <= r[0] < 224) &&
      (|r| == 3 ==> 224 <= r[0] < 240)
    ensures var r := EncodeUnit(c);
      forall k :: 1 <= k < |r| ==> 128 <= r[k] < 192
  {
  }

  lemma {:induction false} EncodeUnitsAppend(a: seq<CodeUnit>, b: seq<CodeUnit>)
    ensures EncodeUnits(a + b) == EncodeUnits(a) + EncodeUnits(b)
  {
    if a != [] {
      assert (a + b)[1..] == a[1..] + b;
      EncodeUnitsAppend(a[1..], b);
    } else {
      assert a + b == b;
    }
  }

  /** One more unit of the prefix adds its bytes, and they still fit in the bytes of the whole string. */
  lemma EncodeUnitsStep(s: seq<CodeUnit>, i: nat)
    requires i < |s|
    ensures EncodeUnits(s[..i + 1]) == EncodeUnits(s[..i]) + EncodeUnit(s[i])
    ensures |EncodeUnits(s[..i + 1])| <= |EncodeUnits(s)|
  {
    assert s[..i + 1] == s[..i] + [s[i]];
    EncodeUnitsAppend(s[..i], [s[i]]);
    assert EncodeUnits([s[i]]) == EncodeUnit(s[i]) + EncodeUnits([]);
    assert s == s[..i + 1] + s[i + 1..];
    EncodeUnitsAppend(s[..i + 1], s[i + 1..]);
  }

  /** The branches of the transcription pass: the bytes of one unit, written at nIdx. */
  method WriteUnit(aBytes: array<Byte>, nIdx: nat, nChr: CodeUnit) returns (next: nat)
    requires nIdx + |EncodeUnit(nChr)| <= aBytes.Length
    modifies aBytes
    ensures next == nIdx + |EncodeUnit(nChr)|
    ensures aBytes[..next] == old(aBytes[..nIdx]) + EncodeUnit(nChr)
  {
    if nChr < 128 {
      aBytes[nIdx] := nChr;
      next := nIdx + 1;
      assert aBytes[..next] == old(aBytes[..nIdx]) + [nChr];
    } else if nChr < 0x800 {
      aBytes[nIdx] := 192 + nChr / 64;
      aBytes[nIdx + 1] := 128 + nChr % 64;
      next := nIdx + 2;
      assert aBytes[..next] == old(aBytes[..nIdx]) + [aBytes[nIdx], aBytes[nIdx + 1]];
    } else {
      aBytes[nIdx] := 224 + nChr / 4096;
      aBytes[nIdx + 1] := 128 + nChr / 64 % 64;
      aBytes[nIdx + 2] := 128 + nChr % 64;
      next := nIdx + 3;
      assert aBytes[..next] == old(aBytes[..nIdx]) + [aBytes[nIdx], aBytes[nIdx + 1], aBytes[nIdx + 2]];
    }
  }

  /**
   * `strToUTF8Arr`: a mapping pass sums the byte counts, a zero-filled array
   * of that length is allocated, and a transcription pass writes each unit's
   * bytes until the array is full.
   */
  method StrToUtf8Arr(sDOMStr: seq<CodeUnit>) returns (aBytes: array<Byte>)
    ensures fresh(aBytes)
    ensures aBytes[..] == EncodeUnits(sDOMStr)
  {
    var nStrLen := |sDOMStr|;
    var nArrLen := 0;
    var nMapIdx := 0;
    while nMapIdx < nStrLen
      invariant nMapIdx <= nStrLen
      invariant nArrLen == |EncodeUnits(sDOMStr[..nMapIdx])|
    {
      var nChr := sDOMStr[nMapIdx];
      EncodeUnitsStep(sDOMStr, nMapIdx);
      UnitLengthIsLength(nChr);
      nArrLen := nArrLen + UnitLength(nChr);
      nMapIdx := nMapIdx + 1;
    }
    assert sDOMStr[..nStrLen] == sDOMStr;
    aBytes := new Byte[nArrLen](_ => 0);
    var nIdx := 0;
    var nChrIdx := 0;
    while nIdx < nArrLen
      invariant nChrIdx <= nStrLen
      invariant nIdx == |EncodeUnits(sDOMStr[..nChrIdx])| <= nArrLen
      invariant nArrLen == |EncodeUnits(sDOMStr)|
      invariant nChrIdx == nStrLen ==> nIdx == nArrLen
      invariant aBytes[..nIdx] == EncodeUnits(sDOMStr[..nChrIdx])
      decreases nStrLen - nChrIdx
    {
      if nChrIdx + 1 == nStrLen {
        assert sDOMStr[..nChrIdx + 1] == sDOMStr;
      }
      var nChr := sDOMStr[nChrIdx];
      EncodeUnitsStep(sDOMStr, nChrIdx);
      nIdx := WriteUnit(aBytes, nIdx, nChr);
      nChrIdx := nChrIdx + 1;
    }
    if nChrIdx < nStrLen {
      EncodeUnitsStep(sDOMStr, nChrIdx);
    }
    assert sDOMStr[..nChrIdx] == sDOMStr;
  }

  // ------------------------------------------------------------ decoder

  /**
   * How many bytes the decoder takes for the character that starts b: the
   * lead byte's range picks a form, and the form is taken only when the bytes
   * it needs are all there; otherwise the lead byte stands alone.
   */
  function Width(b: seq<Byte>): (w: nat)
    requires |b| >= 1
    ensures 1 <= w <= |b|
  {
    var p := b[0];
    if 251 < p < 254 && 6 <= |b| then 6
    else if 247 < p < 252 && 5 <= |b| then 5
    else if 239 < p < 248 && 4 <= |b| then 4
    else if 223 < p < 240 && 3 <= |b| then 3
    else if 191 < p < 224 && 2 <= |b| then 2
    else 1
  }

  /** The payload of continuation byte k, `aBytes[++nIdx] - 128`; nothing checks that it is one. */
  function Tail(b: seq<Byte>, k: nat): int
    requires k < |b|
  {
    b[k] as int - 128
  }

  /** The number the decoder builds from the Width(b) bytes that start b. */
  function RawValue(b: seq<Byte>): int
    requires |b| >= 1
  {
    var p := b[0] as int;
    match Width(b)
    case 6 => (p - 252) * 1073741824 + Tail(b, 1) * 16777216 + Tail(b, 2) * 262144 + Tail(b, 3) * 4096 + Tail(b, 4) * 64 + Tail(b, 5)
    case 5 => (p - 248) * 16777216 + Tail(b, 1) * 262144 + Tail(b, 2) * 4096 + Tail(b, 3) * 64 + Tail(b, 4)
    case 4 => (p - 240) * 262144 + Tail(b, 1) * 4096 + Tail(b, 2) * 64 + Tail(b, 3)
    case 3 => (p - 224) * 4096 + Tail(b, 1) * 64 + Tail(b, 2)
    case 2 => (p - 192) * 64 + Tail(b, 1)
    case _ => p
  }

  /** `String.fromCharCode`: the number modulo 2^16. */
  function FromCharCode(x: int): CodeUnit
  {
    x % 0x10000
  }

  /** What `UTF8ArrToStr` returns. */
  function DecodeUtf8(b: seq<Byte>): seq<CodeUnit>
    decreases |b|
  {
    if b == [] then [] else [FromCharCode(RawValue(b))] + DecodeUtf8(b[Width(b)..])
  }

  /**
   * The branches of `UTF8ArrToStr`'s loop body: the number built from the
   * character at nIdx, and the index of its last byte.
   */
  method ReadChar(aBytes: seq<Byte>, nIdx0: nat) returns (code: int, nIdx: nat)
    requires nIdx0 < |aBytes|
    ensures code == RawValue(aBytes[nIdx0..])
    ensures nIdx == nIdx0 + Width(aBytes[nIdx0..]) - 1
  {
    ghost var b := aBytes[nIdx0..];
    var nLen := |aBytes|;
    nIdx := nIdx0;
    var nPart := aBytes[nIdx] as int;
    assert nPart == b[0];
    if nPart > 251 && nPart < 254 && nIdx + 5 < nLen {
      assert Width(b) == 6;
      code := (nPart - 252) * 1073741824 + ((aBytes[nIdx + 1] as int) - 128) * 16777216 + ((aBytes[nIdx + 2] as int) - 128) * 262144
        + ((aBytes[nIdx + 3] as int) - 128) * 4096 + ((aBytes[nIdx + 4] as int) - 128) * 64 + (aBytes[nIdx + 5] as int) - 128;
      nIdx := nIdx + 5;
    } else if nPart > 247 && nPart < 252 && nIdx + 4 < nLen {
      assert Width(b) == 5;
      code := (nPart - 248) * 16777216 + ((aBytes[nIdx + 1] as int) - 128) * 262144 + ((aBytes[nIdx + 2] as int) - 128) * 4096
        + ((aBytes[nIdx + 3] as int) - 128) * 64 + (aBytes[nIdx + 4] as int) - 128;
      nIdx := nIdx + 4;
    } else if nPart > 239 && nPart < 248 && nIdx + 3 < nLen {
      assert Width(b) == 4;
      code := (nPart - 240) * 262144 + ((aBytes[nIdx + 1] as int) - 128) * 4096 + ((aBytes[nIdx + 2] as int) - 128) * 64 + (aBytes[nIdx + 3] as int) - 128;
      nIdx := nIdx + 3;
    } else if nPart > 223 && nPart < 240 && nIdx + 2 < nLen {
      assert Width(b) == 3;
      code := (nPart - 224) * 4096 + ((aBytes[nIdx + 1] as int) - 128) * 64 + (aBytes[nIdx + 2] as int) - 128;
      nIdx := nIdx + 2;
    } else if nPart > 191 && nPart < 224 && nIdx + 1 < nLen {
      assert Width(b) == 2;
      code := (nPart - 192) * 64 + (aBytes[nIdx + 1] as int) - 128;
      nIdx := nIdx + 1;
    } else {
      assert Width(b) == 1;
      code := nPart;
    }
  }

  /** The decoder at index i takes one character and goes on after it. */
  lemma DecodeStep(b: seq<Byte>, i: nat, code: int, next: nat)
    requires i < |b|
    requires code == RawValue(b[i..]) && next == i + Width(b[i..])
    ensures next <= |b|
    ensures DecodeUtf8(b[i..]) == [FromCharCode(code)] + DecodeUtf8(b[next..])
  {
    assert b[i..][Width(b[i..])..] == b[next..];
  }

  /** `UTF8ArrToStr`: one character per step, the index advanced past the bytes it took. */
  method Utf8ArrToStr(aBytes: seq<Byte>) returns (sView: seq<CodeUnit>)
    ensures sView == DecodeUtf8(aBytes)
  {
    sView := [];
    var nLen := |aBytes|;
    var nIdx := 0;
    while nIdx < nLen
      invariant nIdx <= nLen
      invariant sView + DecodeUtf8(aBytes[nIdx..]) == DecodeUtf8(aBytes)
    {
      ghost var start := nIdx;
      var code;
      code, nIdx := ReadChar(aBytes, nIdx);
      DecodeStep(aBytes, start, code, nIdx + 1);
      sView := sView + [FromCharCode(code)];
      nIdx := nIdx + 1;
    }
  }

  // ------------------------------------------------------------ properties

  /** Each unit's bytes decode to the unit, whatever follows them. */
  lemma DecodeUnit(c: CodeUnit, rest: seq<Byte>)
    ensures var b := EncodeUnit(c) + rest;
      Width(b) == |EncodeUnit(c)| && FromCharCode(RawValue(b)) == c
  {
    var b := EncodeUnit(c) + rest;
    if c >= 0x800 {
      assert b[0] == 224 + c / 4096 && b[1] == 128 + c / 64 % 64 && b[2] == 128 + c % 64;
      assert c == c / 4096 * 4096 + c / 64 % 64 * 64 + c % 64;
    } else if c >= 0x80 {
      assert b[0] == 192 + c / 64 && b[1] == 128 + c % 64;
    }
  }

  /** Decoding what the encoder wrote gives back the string. */
  lemma {:induction false} Utf8RoundTrip(s: seq<CodeUnit>)
    ensures DecodeUtf8(EncodeUnits(s)) == s
  {
    if s != [] {
      var b := EncodeUnits(s);
      assert b == EncodeUnit(s[0]) + EncodeUnits(s[1..]);
      DecodeUnit(s[0], EncodeUnits(s[1..]));
      assert b[|EncodeUnit(s[0])|..] == EncodeUnits(s[1..]);
      Utf8RoundTrip(s[1..]);
    }
  }

  /** The decoder yields at most one unit per byte, and at least one per six. */
  lemma {:induction false} DecodeLength(b: seq<Byte>)
    ensures |DecodeUtf8(b)| <= |b| <= 6 * |DecodeUtf8(b)|
    decreases |b|
  {
    if b != [] {
      DecodeLength(b[Width(b)..]);
    }
  }

  /**
   * A four-byte sequence (U+1F600 in UTF-8) comes out as one code unit
   * holding the low sixteen bits of the code point, not as a surrogate pair.
   */
  lemma FourByteFormTruncated()
    ensures DecodeUtf8([0xF0, 0x9F, 0x98, 0x80]) == [0xF600]
  {
    var b: seq<Byte> := [0xF0, 0x9F, 0x98, 0x80];
    assert Width(b) == 4 && RawValue(b) == 0x1F600;
    assert b[4..] == [];
  }
}
