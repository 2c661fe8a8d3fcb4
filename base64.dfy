/**
 * The base64 codec of the invoice script (`base64EncArr`, `base64DecToArr`
 * and their digit helpers), the alphabet of section 4 of RFC 4648.  The
 * encoder breaks its output with CRLF after every 76 characters and pads the
 * last group with `=`; the decoder drops every character outside the
 * alphabet, padding and line breaks included.
 *
 * The 24-bit accumulator is an `int`.  The source fills it with `|=`; each
 * byte or digit lands in bits that are still zero, so that is addition here,
 * and `x >>> k & m` is `x / 2^k % (m + 1)`.
 */
module Base64 {
  import opened Bytes

  // ------------------------------------------------------------ digits

  /** The characters the decoder keeps: `A-Z`, `a-z`, `0-9`, `+` and `/`. */
  predicate InAlphabet(c: char)
  {
    'A' <= c <= 'Z' || 'a' <= c <= 'z' || '0' <= c <= '9' || c == '+' || c == '/'
  }

  /** `uint6ToB64`: the digit of a six-bit value; anything larger falls back to `A`. */
  function Uint6ToB64(n: nat): char
  {
    if n < 26 then (n + 65) as char
    else if n < 52 then (n + 71) as char
    else if n < 62 then (n - 4) as char
    else if n == 62 then '+'
    else if n == 63 then '/'
    else 'A'
  }

  /** `b64ToUint6`: the value of a digit; any other character counts as 0. */
  function B64ToUint6(c: char): (r: nat)
    ensures r < 64
  {
    var code := c as int;
    if 64 < code < 91 then code - 65
    else if 96 < code < 123 then code - 71
    else if 47 < code < 58 then code + 4
    else if code == 43 then 62
    else if code == 47 then 63
    else 0
  }

  /** Every six-bit value has a digit in the alphabet, and reading it back gives the value. */
  lemma DigitRoundTrip(n: nat)
    requires n < 64
    ensures InAlphabet(Uint6ToB64(n))
    ensures B64ToUint6(Uint6ToB64(n)) == n
  {
  }

  /** Every character of the alphabet is the digit of its value. */
  lemma ValueRoundTrip(c: char)
    requires InAlphabet(c)
    ensures B64ToUint6(c) < 64
    ensures Uint6ToB64(B64ToUint6(c)) == c
  {
  }

  // ------------------------------------------------------------ groups

  /** A 24-bit group: three bytes, or four six-bit digits. */
  type Word24 = x: int | 0 <= x < 0x100_0000

  /** Three bytes (or the one or two that end the input, zero-filled) as a 24-bit value. */
  function Pack(b: seq<Byte>): Word24
    requires 1 <= |b| <= 3
  {
    b[0] as int * 65536 + (if |b| > 1 then b[1] as int * 256 else 0) + (if |b| > 2 then b[2] as int else 0)
  }

  /** The 24-bit groups of a byte string, three bytes each, the last one zero-filled. */
  function Groups(bytes: seq<Byte>): seq<Word24>
  {
    if bytes == [] then []
    else if |bytes| <= 3 then [Pack(bytes)]
    else [Pack(bytes[..3])] + Groups(bytes[3..])
  }

  /** k whole groups followed by one more group of one to three bytes. */
  lemma {:induction false} GroupsAppend(a: seq<Byte>, b: seq<Byte>, k: nat)
    requires |a| == 3 * k && 1 <= |b| <= 3
    ensures Groups(a + b) == Groups(a) + [Pack(b)]
    ensures |Groups(a)| == k
  {
    if k > 0 {
      GroupsAppend(a[3..], b, k - 1);
      assert (a + b)[..3] == a[..3];
      assert (a + b)[3..] == a[3..] + b;
      if k == 1 {
        assert a[3..] == [];
      }
    }
  }

  /** Digit k (0 is the most significant) of a 24-bit group: `x >>> 18 - 6k & 63`. */
  function Sextet(x: Word24, k: nat): nat
    requires k < 4
  {
    if k == 0 then x / 262144 % 64
    else if k == 1 then x / 4096 % 64
    else if k == 2 then x / 64 % 64
    else x % 64
  }

  /** The four digits of a group. */
  function EncodeGroup(x: Word24): (r: string)
    ensures |r| == 4
  {
    [Uint6ToB64(Sextet(x, 0)), Uint6ToB64(Sextet(x, 1)), Uint6ToB64(Sextet(x, 2)), Uint6ToB64(Sextet(x, 3))]
  }

  /** Group g starts a new line: every 19 groups (57 bytes, 76 digits). */
  predicate NewLine(g: nat)
  {
    g > 0 && g % 19 == 0
  }

  /** The text with the line break that precedes group g, if it has one. */
  function Broken(text: string, g: nat): string
  {
    if NewLine(g) then text + "\r\n" else text
  }

  /** The encoder's text before the final trim: the groups' digits with the line breaks between them. */
  function Body(vs: seq<Word24>): (r: string)
    ensures |r| >= 4 * |vs|
  {
    if vs == [] then ""
    else Broken(Body(vs[..|vs| - 1]), |vs| - 1) + EncodeGroup(vs[|vs| - 1])
  }

  /** How many digits of the last group are padding: 2 after one byte, 1 after two. */
  function PadCount(n: nat): nat
  {
    if n % 3 == 0 then 0 else 3 - n % 3
  }

  /** The `=` signs that stand for the cut digits. */
  function Padding(cut: nat): string
  {
    if cut == 0 then "" else if cut == 1 then "=" else "=="
  }

  /** What `base64EncArr` returns: the body with the padded digits turned into `=`. */
  function Encode(bytes: seq<Byte>): string
  {
    Trim(Body(Groups(bytes)), PadCount(|bytes|))
  }

  /** The body less its last `cut` digits, followed by as many `=`. */
  function Trim(body: string, cut: nat): string
    requires cut <= |body|
  {
    body[..|body| - cut] + Padding(cut)
  }

  /**
   * The break test of the encoder, `nIdx > 0 && (nIdx * 4 / 3) % 76 === 0`,
   * in exact arithmetic: the quotient is whole only when 3 divides 4 * nIdx.
   */
  predicate BreakBefore(i: nat)
  {
    i > 0 && (i * 4) % 3 == 0 && (i * 4 / 3) % 76 == 0
  }

  /** Byte j of group g is byte 3g + j; the break test fires exactly at the first byte of every 19th group. */
  lemma BreakAt(g: nat, j: nat)
    requires j < 3
    ensures (3 * g + j) % 3 == j && (3 * g + j) / 3 == g
    ensures BreakBefore(3 * g + j) <==> j == 0 && NewLine(g)
  {
    var i := 3 * g + j;
    DivMod3(g, j);
    assert i * 4 == 3 * (4 * g + j) + j;
    DivMod3(4 * g + j, j);
    if j == 0 {
      var h, t := g / 19, g % 19;
      assert g == 19 * h + t;
      DivMod76(h, 4 * t);
      assert 4 * g == 76 * h + 4 * t;
    }
  }

  lemma DivMod3(q: nat, r: nat)
    requires r < 3
    ensures (3 * q + r) % 3 == r && (3 * q + r) / 3 == q
  {
  }

  lemma DivMod76(q: nat, r: nat)
    requires r < 76
    ensures (76 * q + r) % 76 == r
  {
  }

  /** `base64EncArr`: one pass over the bytes, flushing four digits per group. */
  method Base64EncArr(aBytes: seq<Byte>) returns (r: string)
    ensures r == Encode(aBytes)
  {
    var nMod3 := 2;
    var sB64Enc := "";
    var nUint24 := 0;
    var nIdx := 0;
    ghost var g := 0;  // the group being filled starts at byte 3g
    while nIdx < |aBytes|
      invariant 3 * g <= nIdx <= |aBytes| && nIdx - 3 * g <= 2
      invariant nMod3 == if nIdx == 3 * g then 2 else nIdx - 1 - 3 * g
      invariant nIdx == |aBytes| ==> sB64Enc == Body(Groups(aBytes))
      invariant nIdx < |aBytes| ==> EncoderState(aBytes, g, nIdx - 3 * g, sB64Enc, nUint24)
    {
      ghost var j := nIdx - 3 * g;
      ghost var text1, acc1 := EncoderAdvance(aBytes, g, j, nIdx, sB64Enc, nUint24);
      nMod3 := nIdx % 3;
      assert nMod3 == j;
      if BreakBefore(nIdx) {
        sB64Enc := sB64Enc + "\r\n";
      }
      var byte := aBytes[nIdx] as int;
      nUint24 := nUint24 + (if nMod3 == 0 then byte * 65536 else if nMod3 == 1 then byte * 256 else byte);
      assert sB64Enc == text1 && nUint24 == acc1;
      if nMod3 == 2 || |aBytes| - nIdx == 1 {
        sB64Enc := sB64Enc + EncodeGroup(nUint24);
        assert sB64Enc == Body(Groups(aBytes[..nIdx + 1]));
        nUint24 := 0;
        if nMod3 == 2 {
          g := g + 1;
          assert aBytes[..3 * g] == aBytes[..nIdx + 1];
        }
        assert nIdx + 1 == |aBytes| ==> aBytes[..nIdx + 1] == aBytes;
      }
      nIdx := nIdx + 1;
    }
    EncodeFinish(aBytes, g, sB64Enc, nMod3);
    r := sB64Enc[..|sB64Enc| - 2 + nMod3] + (if nMod3 == 2 then "" else if nMod3 == 1 then "=" else "==");
  }

  /**
   * The encoder before byte j of group g: the earlier groups are written out,
   * this group's line break too once its first byte is read, and the
   * accumulator holds the group's bytes read so far.
   */
  ghost predicate EncoderState(bytes: seq<Byte>, g: nat, j: nat, text: string, acc: int)
    requires 3 * g + j <= |bytes| && j <= 2
  {
    if j == 0 then text == Body(Groups(bytes[..3 * g])) && acc == 0
    else text == Broken(Body(Groups(bytes[..3 * g])), g) && acc == Pack(bytes[3 * g..3 * g + j])
  }

  /** One byte of the encoder loop, from one state to the next; byte i is byte j of group g. */
  lemma EncoderAdvance(bytes: seq<Byte>, g: nat, j: nat, i: nat, text: string, acc: int) returns (text1: string, acc1: Word24)
    requires i == 3 * g + j && i < |bytes| && j <= 2
    requires EncoderState(bytes, g, j, text, acc)
    ensures i % 3 == j
    ensures text1 == if BreakBefore(i) then text + "\r\n" else text
    ensures var b := bytes[i] as int;
      acc1 == acc + (if j == 0 then b * 65536 else if j == 1 then b * 256 else b)
    ensures j == 2 || |bytes| - i == 1 ==> text1 + EncodeGroup(acc1) == Body(Groups(bytes[..i + 1]))
    ensures !(j == 2 || |bytes| - i == 1) ==> EncoderState(bytes, g, j + 1, text1, acc1)
  {
    BreakAt(g, j);
    text1 := if BreakBefore(i) then text + "\r\n" else text;
    PackStep(bytes, g, j);
    acc1 := Pack(bytes[3 * g..3 * g + j + 1]);
    if j == 2 || |bytes| - i == 1 {
      BodyStep(bytes, g, j);
    } else {
      assert bytes[3 * g..3 * g + j + 1] == bytes[3 * g..3 * g + (j + 1)];
    }
  }

  /** The closing trim: cutting `2 - nMod3` digits and appending as many `=` is the padding of `Encode`. */
  lemma EncodeFinish(bytes: seq<Byte>, g: nat, text: string, nMod3: int)
    requires 3 * g <= |bytes| <= 3 * g + 2
    requires nMod3 == if |bytes| == 3 * g then 2 else |bytes| - 1 - 3 * g
    requires text == Body(Groups(bytes))
    ensures 0 <= |text| - 2 + nMod3 <= |text|
    ensures Encode(bytes) == text[..|text| - 2 + nMod3] + (if nMod3 == 2 then "" else if nMod3 == 1 then "=" else "==")
  {
    PadOf(g, |bytes|, nMod3);
    GroupsNonEmpty(bytes);
    TrimPadding(text, PadCount(|bytes|), nMod3);
  }

  lemma PadOf(g: nat, n: nat, nMod3: int)
    requires 3 * g <= n <= 3 * g + 2
    requires nMod3 == if n == 3 * g then 2 else n - 1 - 3 * g
    ensures PadCount(n) == 2 - nMod3
  {
    DivMod3(g, n - 3 * g);
  }

  lemma GroupsNonEmpty(bytes: seq<Byte>)
    ensures bytes != [] ==> |Groups(bytes)| >= 1
  {
  }

  /** The trim of `Encode`, written with the cut, is the trim of the encoder, written with `nMod3`. */
  lemma TrimPadding(text: string, cut: nat, nMod3: int)
    requires cut == 2 - nMod3 && cut <= |text|
    ensures Trim(text, cut) == text[..|text| - 2 + nMod3] + (if nMod3 == 2 then "" else if nMod3 == 1 then "=" else "==")
  {
  }

  /** One byte of the encoder loop: the accumulator takes the byte at its place in the group. */
  lemma PackStep(bytes: seq<Byte>, g: nat, j: nat)
    requires 3 * g + j < |bytes| && j <= 2
    ensures var b := bytes[3 * g + j] as int;
      Pack(bytes[3 * g..3 * g + j + 1]) ==
        if j == 0 then b * 65536
        else Pack(bytes[3 * g..3 * g + j]) + (if j == 1 then b * 256 else b)
  {
    var w := bytes[3 * g..3 * g + j + 1];
    assert j > 0 ==> bytes[3 * g..3 * g + j] == w[..j];
  }

  /** A flushed group extends the body by its line break and its four digits. */
  lemma BodySnoc(gs: seq<Word24>, v: Word24)
    ensures Body(gs + [v]) == Broken(Body(gs), |gs|) + EncodeGroup(v)
  {
    var gv := gs + [v];
    assert gv[..|gv| - 1] == gs;
  }

  /** Flushing the group that ends at byte 3g + j extends the body of the groups before it. */
  lemma BodyStep(bytes: seq<Byte>, g: nat, j: nat)
    requires 3 * g + j < |bytes| && j <= 2
    ensures Body(Groups(bytes[..3 * g + j + 1])) ==
      Broken(Body(Groups(bytes[..3 * g])), g) + EncodeGroup(Pack(bytes[3 * g..3 * g + j + 1]))
  {
    var s, e := 3 * g, 3 * g + j + 1;
    assert bytes[..e] == bytes[..s] + bytes[s..e];
    GroupsAppend(bytes[..s], bytes[s..e], g);
    BodySnoc(Groups(bytes[..s]), Pack(bytes[s..e]));
  }

  // ------------------------------------------------------------ decoder

  /** `replace(/[^A-Za-z0-9\+\/]/g, "")`: the alphabet characters of the text, in order. */
  function Strip(s: string): (r: string)
    ensures forall c :: c in r ==> InAlphabet(c)
  {
    if s == [] then []
    else Strip(s[..|s| - 1]) + (if InAlphabet(s[|s| - 1]) then [s[|s| - 1]] else [])
  }

  /** The 24-bit value of a quad of one to four digits, missing low digits counting as 0. */
  function QuadValue(q: string): Word24
    requires 1 <= |q| <= 4
  {
    B64ToUint6(q[0]) * 262144
      + (if |q| > 1 then B64ToUint6(q[1]) * 4096 else 0)
      + (if |q| > 2 then B64ToUint6(q[2]) * 64 else 0)
      + (if |q| > 3 then B64ToUint6(q[3]) else 0)
  }

  /** The values of the quads of a digit string, four digits each, the last one possibly shorter. */
  function Values(t: string): seq<Word24>
  {
    if t == [] then []
    else if |t| <= 4 then [QuadValue(t)]
    else [QuadValue(t[..4])] + Values(t[4..])
  }

  /** k whole quads followed by one more quad of one to four digits. */
  lemma {:induction false} ValuesAppend(a: string, b: string, k: nat)
    requires |a| == 4 * k && 1 <= |b| <= 4
    ensures Values(a + b) == Values(a) + [QuadValue(b)]
  {
    if k > 0 {
      ValuesAppend(a[4..], b, k - 1);
      assert (a + b)[..4] == a[..4];
      assert (a + b)[4..] == a[4..] + b;
      if k == 1 {
        assert a[4..] == [];
      }
    }
  }

  /** The three bytes of a 24-bit value, `nUint24 >>> 16, 8, 0 & 255`. */
  function Split3(x: Word24): (r: seq<Byte>)
    ensures |r| == 3
  {
    [x / 65536 % 256, x / 256 % 256, x % 256]
  }

  /** The bytes of a run of 24-bit values, three each. */
  function Unpack(vs: seq<Word24>): (r: seq<Byte>)
    ensures |r| == 3 * |vs|
  {
    if vs == [] then [] else Unpack(vs[..|vs| - 1]) + Split3(vs[|vs| - 1])
  }

  /** The first L bytes of u, zero-filled past its end: what an array of length L holds after u is written from 0 on. */
  function Fit(u: seq<Byte>, L: nat): (r: seq<Byte>)
    ensures |r| == L
  {
    seq(L, k requires 0 <= k < L => if k < |u| then u[k] else 0)
  }

  /** The length of the decoded array, `nInLen * 3 + 1 >> 2`, rounded up to a multiple of the block size when one is given (0 stands for none). */
  function OutLen(n: nat, blocks: nat): nat
  {
    var len := (n * 3 + 1) / 4;
    if blocks == 0 then len else (len + blocks - 1) / blocks * blocks
  }

  /** What `base64DecToArr` returns. */
  function Decode(s: string, blocks: nat): (r: seq<Byte>)
    ensures |r| == OutLen(|Strip(s)|, blocks)
  {
    var t := Strip(s);
    Fit(Unpack(Values(t)), OutLen(|t|, blocks))
  }

  /** `base64DecToArr`: strip, then one pass over the digits, writing three bytes per quad while the array has room. */
  method Base64DecToArr(sBase64: string, nBlocksSize: nat) returns (taBytes: array<Byte>)
    ensures fresh(taBytes)
    ensures taBytes[..] == Decode(sBase64, nBlocksSize)
  {
    var sB64Enc := Strip(sBase64);
    var nOutLen := OutLen(|sB64Enc|, nBlocksSize);
    taBytes := new Byte[nOutLen](_ => 0);
    assert taBytes[..] == Fit([], nOutLen);
    DecodeInto(sB64Enc, taBytes);
  }

  /** The loop of `base64DecToArr` over the stripped digits, into a zero-filled array. */
  method DecodeInto(sB64Enc: string, taBytes: array<Byte>)
    requires taBytes[..] == Fit([], taBytes.Length)
    modifies taBytes
    ensures taBytes[..] == Fit(Unpack(Values(sB64Enc)), taBytes.Length)
  {
    var nInLen := |sB64Enc|;
    var nOutLen := taBytes.Length;
    var nUint24 := 0;
    var nOutIdx := 0;
    var nInIdx := 0;
    ghost var g := 0;  // quads flushed so far
    ghost var f := 0;  // digits flushed so far
    ghost var u: seq<Byte> := [];  // the bytes of the quads flushed so far
    assert sB64Enc[..0] == [];
    while nInIdx < nInLen
      invariant f <= nInIdx <= nInLen && nInIdx - f <= 3
      invariant nInIdx < nInLen ==> f == 4 * g
      invariant nInIdx == nInLen ==> f == nInLen
      invariant u == Unpack(Values(sB64Enc[..f]))
      invariant nOutIdx == Min(|u|, nOutLen)
      invariant taBytes[..] == Fit(u, nOutLen)
      invariant nUint24 == if nInIdx == f then 0 else QuadValue(sB64Enc[f..nInIdx])
    {
      nUint24 := AddDigit(sB64Enc, nInIdx, nUint24, g, f);
      var nMod4 := nInIdx % 4;
      if nMod4 == 3 || nInLen - nInIdx == 1 {
        nOutIdx, u := FlushQuad(taBytes, nOutIdx, nUint24, sB64Enc, g, f, nInIdx + 1, u);
        nUint24 := 0;
        f := nInIdx + 1;
        if nMod4 == 3 {
          g := g + 1;
        }
      }
      nInIdx := nInIdx + 1;
    }
    assert sB64Enc[..f] == sB64Enc;
  }

  /** One digit joins the accumulator at the weight of its place in the quad. */
  method AddDigit(sB64Enc: string, nInIdx: nat, nUint24: Word24, ghost g: nat, ghost f: nat) returns (acc: Word24)
    requires f == 4 * g && f <= nInIdx < |sB64Enc| && nInIdx - f <= 3
    requires nUint24 == if nInIdx == f then 0 else QuadValue(sB64Enc[f..nInIdx])
    ensures acc == QuadValue(sB64Enc[f..nInIdx + 1])
    ensures nInIdx % 4 == nInIdx - f
  {
    ghost var acc1 := DecoderAdvance(sB64Enc, g, f, nInIdx - f, nInIdx, nUint24);
    var nMod4 := nInIdx % 4;
    var digit := B64ToUint6(sB64Enc[nInIdx]);
    acc := nUint24 + (if nMod4 == 0 then digit * 262144 else if nMod4 == 1 then digit * 4096 else if nMod4 == 2 then digit * 64 else digit);
    assert acc == acc1;
  }

  /** A completed quad (or the short last one) goes to the array; the bytes written so far are those of the digits up to `e`. */
  method FlushQuad(taBytes: array<Byte>, nOutIdx: nat, nUint24: Word24, ghost t: string, ghost g: nat, ghost f: nat, ghost e: nat, ghost u: seq<Byte>)
    returns (next: nat, ghost u1: seq<Byte>)
    requires f == 4 * g && f < e <= |t| && e - f <= 4
    requires nUint24 == QuadValue(t[f..e])
    requires u == Unpack(Values(t[..f]))
    requires nOutIdx == Min(|u|, taBytes.Length)
    requires taBytes[..] == Fit(u, taBytes.Length)
    modifies taBytes
    ensures u1 == Unpack(Values(t[..e]))
    ensures next == Min(|u1|, taBytes.Length)
    ensures taBytes[..] == Fit(u1, taBytes.Length)
  {
    DecoderFlush(t, g, f, e, nUint24);
    next := StoreGroup(taBytes, nOutIdx, nUint24, u);
    u1 := u + Split3(nUint24);
  }

  /**
   * The inner loop of `base64DecToArr`: the three bytes of the accumulator go
   * to the array from `nOutIdx` on, as long as it has room.
   */
  method StoreGroup(taBytes: array<Byte>, nOutIdx: nat, nUint24: Word24, ghost u: seq<Byte>) returns (next: nat)
    requires nOutIdx == Min(|u|, taBytes.Length)
    requires taBytes[..] == Fit(u, taBytes.Length)
    modifies taBytes
    ensures next == Min(|u| + 3, taBytes.Length)
    ensures taBytes[..] == Fit(u + Split3(nUint24), taBytes.Length)
  {
    ghost var w := Split3(nUint24);
    var nMod3 := 0;
    next := nOutIdx;
    assert u + w[..0] == u;
    while nMod3 < 3 && next < taBytes.Length
      invariant 0 <= nMod3 <= 3
      invariant next == Min(|u| + nMod3, taBytes.Length)
      invariant taBytes[..] == Fit(u + w[..nMod3], taBytes.Length)
    {
      FitSnoc(u + w[..nMod3], w[nMod3], taBytes.Length);
      assert u + w[..nMod3 + 1] == u + w[..nMod3] + [w[nMod3]];
      taBytes[next] := (nUint24 / (if nMod3 == 0 then 65536 else if nMod3 == 1 then 256 else 1)) % 256;
      nMod3 := nMod3 + 1;
      next := next + 1;
    }
    if nMod3 < 3 {
      FitPast(u + w[..nMod3], w[nMod3..], taBytes.Length);
      assert u + w[..nMod3] + w[nMod3..] == u + w;
    } else {
      assert w[..nMod3] == w;
    }
  }

  function Min(a: nat, b: nat): nat
  {
    if a < b then a else b
  }

  /** One digit of the decoder loop: digit i is digit j of the quad that starts at s = 4g. */
  lemma DecoderAdvance(t: string, g: nat, s: nat, j: nat, i: nat, acc: int) returns (acc1: Word24)
    requires s == 4 * g && i == s + j && i < |t| && j <= 3
    requires acc == if j == 0 then 0 else QuadValue(t[s..i])
    ensures var d := B64ToUint6(t[i]);
      var k := i % 4;
      acc1 == acc + (if k == 0 then d * 262144 else if k == 1 then d * 4096 else if k == 2 then d * 64 else d)
    ensures i % 4 == j
    ensures acc1 == QuadValue(t[s..i + 1])
  {
    QuadStep(t, g, s, j, i);
    acc1 := QuadValue(t[s..i + 1]);
  }

  /** Digit j of quad g is digit 4g + j; the accumulator takes it at its weight. */
  lemma QuadStep(t: string, g: nat, s: nat, j: nat, i: nat)
    requires s == 4 * g && i == s + j && i < |t| && j <= 3
    ensures i % 4 == j
    ensures var d := B64ToUint6(t[i]);
      QuadValue(t[s..i + 1]) ==
        if j == 0 then d * 262144
        else QuadValue(t[s..i]) + (if j == 1 then d * 4096 else if j == 2 then d * 64 else d)
  {
    var w := t[s..i + 1];
    assert j > 0 ==> t[s..i] == w[..j];
  }

  /** Flushing the quad that ends before digit e appends its three bytes to the decoded prefix. */
  lemma DecoderFlush(t: string, g: nat, s: nat, e: nat, v: Word24)
    requires s == 4 * g && s < e <= |t| && e - s <= 4
    requires v == QuadValue(t[s..e])
    ensures Unpack(Values(t[..e])) == Unpack(Values(t[..s])) + Split3(v)
  {
    assert t[..e] == t[..s] + t[s..e];
    ValuesAppend(t[..s], t[s..e], g);
    var vs := Values(t[..s]) + [v];
    assert vs[..|vs| - 1] == Values(t[..s]);
  }

  /** Writing one more byte at the end of what was written. */
  lemma FitSnoc(u: seq<Byte>, y: Byte, L: nat)
    requires |u| < L
    ensures Fit(u + [y], L) == Fit(u, L)[|u| := y]
  {
  }

  /** Bytes past the end of the array are never written. */
  lemma FitPast(u: seq<Byte>, w: seq<Byte>, L: nat)
    requires |u| >= L
    ensures Fit(u + w, L) == Fit(u, L)
  {
  }

  // ------------------------------------------------------------ round trip

  /** Decoding what the encoder wrote gives back the bytes it was given. */
  lemma Base64RoundTrip(bytes: seq<Byte>)
    ensures Decode(Encode(bytes), 0) == bytes
  {
    if bytes == [] {
      assert Encode(bytes) == "";
    } else {
      var k := (|bytes| - 1) / 3;
      var a, b := bytes[..3 * k], bytes[3 * k..];
      assert bytes == a + b;
      var n := KeptDigits(|b|);
      var t := Strip(Encode(a + b));
      StripEncoded(a, b, k);
      DecodeDigits(a, b, k);
      assert OutLen(|t|, 0) == |bytes| by {
        assert |t| * 3 + 1 == 4 * (3 * k) + 3 * n + 1;
        assert (3 * n + 1) / 4 == |b|;
      }
      FitPrefix(bytes + Zeros(3 - |b|), |bytes|);
      assert (bytes + Zeros(3 - |b|))[..|bytes|] == bytes;
    }
  }

  /** How many digits of a last group of m bytes survive the padding: 2, 3 or 4. */
  function KeptDigits(m: nat): nat
  {
    if m >= 3 then 4 else m + 1
  }

  /** The encoded text of k whole groups a and a last group b: the trim of their body. */
  lemma EncodedTail(a: seq<Byte>, b: seq<Byte>, k: nat)
    requires |a| == 3 * k && 1 <= |b| <= 3
    ensures Encode(a + b) == Trim(Broken(Body(Groups(a)), k) + EncodeGroup(Pack(b)), 4 - KeptDigits(|b|))
  {
    BodySplit(a, b, k);
    PadTail(k, |b|, |a + b|);
  }

  /** The body of k whole groups and a last group b. */
  lemma BodySplit(a: seq<Byte>, b: seq<Byte>, k: nat)
    requires |a| == 3 * k && 1 <= |b| <= 3
    ensures Body(Groups(a + b)) == Broken(Body(Groups(a)), k) + EncodeGroup(Pack(b))
  {
    GroupsAppend(a, b, k);
    BodySnoc(Groups(a), Pack(b));
  }

  /** Cutting 4 - n digits off a text that ends in four digits keeps n of them. */
  lemma TrimLast(head: string, last: string, n: nat)
    requires |last| == 4 && 2 <= n <= 4
    ensures Trim(head + last, 4 - n) == head + last[..n] + Padding(4 - n)
  {
    assert (head + last)[..|head + last| - (4 - n)] == head + last[..n];
  }

  lemma PadTail(k: nat, m: nat, len: nat)
    requires 1 <= m <= 3 && len == 3 * k + m
    ensures PadCount(len) == 4 - KeptDigits(m)
  {
    DivMod3(k, m % 3);
    assert len == 3 * (k + m / 3) + m % 3;
    DivMod3(k + m / 3, m % 3);
  }

  /** What the decoder keeps of the encoded text: the digits of the whole groups and the unpadded digits of the last. */
  lemma StripEncoded(a: seq<Byte>, b: seq<Byte>, k: nat)
    requires |a| == 3 * k && 1 <= |b| <= 3
    ensures Strip(Encode(a + b)) == Digits(Groups(a)) + EncodeGroup(Pack(b))[..KeptDigits(|b|)]
    ensures |Strip(Encode(a + b))| == 4 * k + KeptDigits(|b|)
  {
    var n := KeptDigits(|b|);
    var last := EncodeGroup(Pack(b));
    var head := Broken(Body(Groups(a)), k);
    var q := last[..n];
    var pad := Padding(4 - n);
    EncodedTail(a, b, k);
    TrimLast(head, last, n);
    assert Encode(a + b) == (head + q) + pad;
    StripAppend(head + q, pad);
    StripDrops(pad);
    StripAppend(head, q);
    StripBreak(Body(Groups(a)), k);
    StripBody(Groups(a));
    assert Strip(head) == Digits(Groups(a));
    GroupDigits(Pack(b));
    assert forall c :: c in q ==> c in last;
    StripKeeps(q);
    assert Strip(Encode(a + b)) == Digits(Groups(a)) + q;
    GroupsAppend(a, b, k);
  }

  /** The kept digits decode to the bytes, zero-filled to whole groups. */
  lemma DecodeDigits(a: seq<Byte>, b: seq<Byte>, k: nat)
    requires |a| == 3 * k && 1 <= |b| <= 3
    ensures Unpack(Values(Digits(Groups(a)) + EncodeGroup(Pack(b))[..KeptDigits(|b|)])) == a + b + Zeros(3 - |b|)
  {
    KeptValues(a, b, k);
    UnpackAppend(Groups(a), Pack(b));
    UnpackGroups(a, k);
    SplitPack(b);
  }

  /** The kept digits read back as the groups they were written from. */
  lemma KeptValues(a: seq<Byte>, b: seq<Byte>, k: nat)
    requires |a| == 3 * k && 1 <= |b| <= 3
    ensures Values(Digits(Groups(a)) + EncodeGroup(Pack(b))[..KeptDigits(|b|)]) == Groups(a) + [Pack(b)]
  {
    GroupsAppend(a, b, k);
    ValuesAppend(Digits(Groups(a)), EncodeGroup(Pack(b))[..KeptDigits(|b|)], k);
    ValuesDigits(Groups(a));
    LastQuad(b);
  }

  /** The digits of a run of groups, without line breaks. */
  ghost function Digits(vs: seq<Word24>): (r: string)
    ensures |r| == 4 * |vs|
  {
    if vs == [] then "" else Digits(vs[..|vs| - 1]) + EncodeGroup(vs[|vs| - 1])
  }

  lemma {:induction false} StripAppend(a: string, b: string)
    ensures Strip(a + b) == Strip(a) + Strip(b)
    decreases |b|
  {
    if b == [] {
      assert a + b == a;
    } else {
      var c := b[|b| - 1];
      assert (a + b)[..|a + b| - 1] == a + b[..|b| - 1];
      StripAppend(a, b[..|b| - 1]);
    }
  }

  lemma {:induction false} StripKeeps(s: string)
    requires forall c :: c in s ==> InAlphabet(c)
    ensures Strip(s) == s
  {
    if s != [] {
      var init := s[..|s| - 1];
      assert s[|s| - 1] in s;
      assert forall c :: c in init ==> c in s;
      StripKeeps(init);
      assert Strip(s) == init + [s[|s| - 1]];
      assert init + [s[|s| - 1]] == s;
    }
  }

  lemma {:induction false} StripDrops(s: string)
    requires forall c :: c in s ==> !InAlphabet(c)
    ensures Strip(s) == ""
  {
    if s != [] {
      assert s[|s| - 1] in s;
      StripDrops(s[..|s| - 1]);
    }
  }

  lemma StripBreak(text: string, g: nat)
    ensures Strip(Broken(text, g)) == Strip(text)
  {
    if NewLine(g) {
      StripAppend(text, "\r\n");
      StripDrops("\r\n");
    }
  }

  /** The four digits of a group are in the alphabet and read back as its sextets. */
  lemma GroupDigits(x: Word24)
    ensures forall c :: c in EncodeGroup(x) ==> InAlphabet(c)
    ensures forall k :: 0 <= k < 4 ==> B64ToUint6(EncodeGroup(x)[k]) == Sextet(x, k)
  {
    DigitRoundTrip(Sextet(x, 0));
    DigitRoundTrip(Sextet(x, 1));
    DigitRoundTrip(Sextet(x, 2));
    DigitRoundTrip(Sextet(x, 3));
  }

  /** Removing line breaks from the encoder's body leaves the digits of the groups. */
  lemma {:induction false} StripBody(vs: seq<Word24>)
    ensures Strip(Body(vs)) == Digits(vs)
  {
    if vs != [] {
      var init, v := vs[..|vs| - 1], vs[|vs| - 1];
      StripAppend(Broken(Body(init), |init|), EncodeGroup(v));
      StripBreak(Body(init), |init|);
      StripBody(init);
      GroupDigits(v);
      StripKeeps(EncodeGroup(v));
    }
  }

  /** The four sextets of a group put back together give the group. */
  lemma Recombine(x: Word24)
    ensures Sextet(x, 0) * 262144 + Sextet(x, 1) * 4096 + Sextet(x, 2) * 64 + Sextet(x, 3) == x
  {
    var a := x / 64;
    var b := a / 64;
    var c := b / 64;
    assert x == 64 * a + x % 64;
    assert a == 64 * b + a % 64;
    assert b == 64 * c + b % 64;
    assert x / 4096 == b;
    assert x / 262144 == c;
  }

  /** The quads of the digits of full groups are those groups. */
  lemma {:induction false} ValuesDigits(vs: seq<Word24>)
    ensures Values(Digits(vs)) == vs
  {
    if vs != [] {
      var init, v := vs[..|vs| - 1], vs[|vs| - 1];
      ValuesDigits(init);
      ValuesAppend(Digits(init), EncodeGroup(v), |init|);
      GroupValue(v);
      assert vs == init + [v];
    }
  }

  /** A group's four digits read back as the group. */
  lemma GroupValue(x: Word24)
    ensures QuadValue(EncodeGroup(x)) == x
  {
    GroupDigits(x);
    Recombine(x);
  }

  /** The last group's digits, less the ones the encoder turns into padding, still read back as that group. */
  lemma LastQuad(b: seq<Byte>)
    requires 1 <= |b| <= 3
    ensures QuadValue(EncodeGroup(Pack(b))[..KeptDigits(|b|)]) == Pack(b)
  {
    var x := Pack(b);
    QuadPrefix(x, KeptDigits(|b|));
    Recombine(x);
    if |b| == 1 {
      LowSextets(b[0] as int * 16, 0);
    } else if |b| == 2 {
      LowSextets(b[0] as int * 16 + b[1] as int / 16, 4 * (b[1] as int % 16));
    }
  }

  /** The value of the first n digits of a group, from its sextets. */
  lemma QuadPrefix(x: Word24, n: nat)
    requires 1 <= n <= 4
    ensures QuadValue(EncodeGroup(x)[..n]) ==
      Sextet(x, 0) * 262144 + (if n > 1 then Sextet(x, 1) * 4096 else 0)
        + (if n > 2 then Sextet(x, 2) * 64 else 0) + (if n > 3 then Sextet(x, 3) else 0)
  {
    GroupDigits(x);
  }

  /** A group whose low twelve bits are zero but for c * 64 has sextet 2 equal to c and sextet 3 zero. */
  lemma LowSextets(m: nat, c: nat)
    requires c < 64 && 4096 * m + 64 * c < 0x100_0000
    ensures var x: Word24 := 4096 * m + 64 * c; Sextet(x, 2) == c && Sextet(x, 3) == 0
  {
    var x: Word24 := 4096 * m + 64 * c;
    assert x == 64 * (64 * m + c);
    assert x / 64 == 64 * m + c;
  }

  lemma {:induction false} UnpackAppend(vs: seq<Word24>, v: Word24)
    ensures Unpack(vs + [v]) == Unpack(vs) + Split3(v)
  {
    assert (vs + [v])[..|vs|] == vs;
  }

  /** Whole groups unpack to the bytes they were packed from. */
  lemma {:induction false} UnpackGroups(a: seq<Byte>, k: nat)
    requires |a| == 3 * k
    ensures Unpack(Groups(a)) == a
  {
    if k > 0 {
      var a0, a1 := a[..3 * (k - 1)], a[3 * (k - 1)..];
      assert a == a0 + a1;
      GroupsAppend(a0, a1, k - 1);
      UnpackGroups(a0, k - 1);
      UnpackAppend(Groups(a0), Pack(a1));
      SplitPack(a1);
    } else {
      assert a == [];
    }
  }

  /** The bytes of a packed group are the packed bytes, zero-filled. */
  lemma SplitPack(b: seq<Byte>)
    requires 1 <= |b| <= 3
    ensures Split3(Pack(b)) == b + Zeros(3 - |b|)
  {
    var b0 := b[0] as int;
    var b1 := if |b| > 1 then b[1] as int else 0;
    var b2 := if |b| > 2 then b[2] as int else 0;
    var x := Pack(b);
    assert x == b0 * 65536 + b1 * 256 + b2;
    assert x / 256 == b0 * 256 + b1;
    assert x / 65536 == b0;
  }

  lemma FitPrefix(u: seq<Byte>, L: nat)
    requires L <= |u|
    ensures Fit(u, L) == u[..L]
  {
  }
}
