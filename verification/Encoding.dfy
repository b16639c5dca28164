/** Base64 (src/util/Encoding.cpp:11-48) against section 4 of RFC 4648.

The program shifts everything through one 32-bit accumulator that it never clears,
so on long inputs the accumulator has wrapped around; only its low bits are read. */
module Encoding {
  type Byte = i: int | 0 <= i < 256
  type Sextet = i: int | 0 <= i < 64
  /** A character of a C++ string. */
  type Octet = c: char | c as int < 256 witness 'A'

  const WORD := 0x1_0000_0000

  // ------------------------------------------------------------- specification

  /** Table 1 of RFC 4648. */
  function Char64(v: Sextet): Octet {
    if v < 26 then ('A' as int + v) as char
    else if v < 52 then ('a' as int + (v - 26)) as char
    else if v < 62 then ('0' as int + (v - 52)) as char
    else if v == 62 then '+' else '/'
  }

  /** The place of a character in the alphabet, -1 for every other character. */
  function Value(c: Octet): (v: int)
    ensures -1 <= v < 64
    ensures v >= 0 ==> Char64(v) == c
    ensures v < 0 ==> forall i: Sextet :: Char64(i) != c
  {
    if 'A' <= c <= 'Z' then c as int - 'A' as int
    else if 'a' <= c <= 'z' then c as int - 'a' as int + 26
    else if '0' <= c <= '9' then c as int - '0' as int + 52
    else if c == '+' then 62 else if c == '/' then 63 else -1
  }

  lemma ValueOfChar(v: Sextet)
    ensures Value(Char64(v)) == v
  {
  }

  // Three bytes x y z as four sextets, and four sextets a b c d as three bytes.
  function First6(x: Byte): Sextet { x / 4 }
  function Second6(x: Byte, y: Byte): Sextet { x % 4 * 16 + y / 16 }
  function Third6(y: Byte, z: Byte): Sextet { y % 16 * 4 + z / 64 }
  function Fourth6(z: Byte): Sextet { z % 64 }
  function First8(a: Sextet, b: Sextet): Byte { a * 4 + b / 16 }
  function Second8(b: Sextet, c: Sextet): Byte { b % 16 * 16 + c / 4 }
  function Third8(c: Sextet, d: Sextet): Byte { c % 4 * 64 + d }

  lemma Repack(x: Byte, y: Byte, z: Byte)
    ensures First8(First6(x), Second6(x, y)) == x
    ensures Second8(Second6(x, y), Third6(y, z)) == y
    ensures Third8(Third6(y, z), Fourth6(z)) == z
  {
  }

  lemma Resplit(a: Sextet, b: Sextet, c: Sextet, d: Sextet)
    ensures First6(First8(a, b)) == a
    ensures Second6(First8(a, b), Second8(b, c)) == b
    ensures Third6(Second8(b, c), Third8(c, d)) == c
    ensures Fourth6(Third8(c, d)) == d
  {
  }

  /** Three bytes are four sextets; one or two left over are two or three, with
      zero bits at the end. */
  function Split(bs: seq<Byte>): seq<Sextet> {
    if bs == [] then []
    else if |bs| == 1 then [First6(bs[0]), Second6(bs[0], 0)]
    else if |bs| == 2 then [First6(bs[0]), Second6(bs[0], bs[1]), Third6(bs[1], 0)]
    else [First6(bs[0]), Second6(bs[0], bs[1]), Third6(bs[1], bs[2]), Fourth6(bs[2])] + Split(bs[3..])
  }

  /** Four sextets are three bytes; bits that do not fill a byte are dropped. */
  function Packed(ss: seq<Sextet>): seq<Byte> {
    if |ss| < 2 then []
    else if |ss| == 2 then [First8(ss[0], ss[1])]
    else if |ss| == 3 then [First8(ss[0], ss[1]), Second8(ss[1], ss[2])]
    else [First8(ss[0], ss[1]), Second8(ss[1], ss[2]), Third8(ss[2], ss[3])] + Packed(ss[4..])
  }

  function Chars(ss: seq<Sextet>): seq<Octet> {
    seq(|ss|, i requires 0 <= i < |ss| => Char64(ss[i]))
  }

  /** The padding that completes a group of four characters. */
  function Padding(n: nat): seq<Octet> {
    if n % 4 == 2 then ['=', '='] else if n % 4 == 3 then ['='] else []
  }

  /** Section 4 of RFC 4648. */
  function Encoded(bs: seq<Byte>): seq<Octet> {
    Chars(Split(bs)) + Padding(|Split(bs)|)
  }

  /** The values up to the first character outside the alphabet. */
  function Sextets(s: seq<Octet>): (ss: seq<Sextet>)
    ensures |ss| <= |s|
  {
    if s == [] || Value(s[0]) < 0 then [] else [Value(s[0])] + Sextets(s[1..])
  }

  function Decoded(s: seq<Octet>): seq<Byte> {
    Packed(Sextets(s))
  }

  // -------------------------------------------------------- 32-bit arithmetic

  function Doubled(v: nat, n: nat): nat {
    if n == 0 then v else 2 * Doubled(v, n - 1)
  }

  /** 32-bit shifts. */
  function Shl(v: nat, n: nat): (r: nat)
    ensures r < WORD
  {
    Doubled(v, n) % WORD
  }

  function Shr(v: nat, n: nat): nat {
    if n == 0 then v else Shr(v / 2, n - 1)
  }

  function Add(v: nat, c: nat): (r: nat)
    ensures r < WORD
  {
    (v + c) % WORD
  }

  lemma LeftShifts(v: nat)
    ensures Shl(v, 6) == v * 64 % WORD && Shl(v, 8) == v * 256 % WORD
  {
    assert Doubled(v, 4) == 2 * Doubled(v, 3) == 4 * Doubled(v, 2) == 8 * Doubled(v, 1) == 16 * v;
    assert Doubled(v, 8) == 2 * Doubled(v, 7) == 4 * Doubled(v, 6) == 8 * Doubled(v, 5) == 16 * Doubled(v, 4);
  }

  lemma RightShifts(v: nat)
    ensures Shr(v, 0) == v && Shr(v, 2) == v / 4 && Shr(v, 4) == v / 16 && Shr(v, 6) == v / 64
  {
    TwoRight(v, 0);
    TwoRight(v, 2);
    TwoRight(v / 4, 2 - 2);
    TwoRight(v, 4);
    TwoRight(v / 4, 2);
    TwoRight(v / 16, 0);
  }

  lemma TwoRight(v: nat, n: nat)
    ensures Shr(v, n + 2) == Shr(v / 4, n)
  {
    assert Shr(v, n + 2) == Shr(v / 2, n + 1) == Shr(v / 2 / 2, n);
  }

  /** The bits read after eight more are shifted in do not depend on the wrap. */
  lemma ShiftByte(v: nat, c: Byte)
    ensures Add(Shl(v, 8), c) % 4096 == v % 16 * 256 + c
  {
    LeftShifts(v);
    Wrapped(v * 256, c);
    hide Shl, Add;
    assert v * 256 + c == 4096 * (v / 16) + (v % 16 * 256 + c);
    Digit4096(v / 16, v % 16 * 256 + c);
  }

  lemma ShiftSextet(v: nat, t: Sextet)
    ensures Add(Shl(v, 6), t) % 4096 == v % 64 * 64 + t
  {
    LeftShifts(v);
    Wrapped(v * 64, t);
    hide Shl, Add;
    assert v * 64 + t == 4096 * (v / 64) + (v % 64 * 64 + t);
    Digit4096(v / 64, v % 64 * 64 + t);
  }

  /** Wrapping before and after an addition keeps the low twelve bits. */
  lemma Wrapped(w: nat, c: nat)
    ensures Add(w % WORD, c) % 4096 == (w + c) % 4096
  {
    var q1, q2 := w / WORD, (w % WORD + c) / WORD;
    assert w + c == Add(w % WORD, c) + WORD * (q1 + q2);
    var r := Add(w % WORD, c);
    hide Add;
    assert w + c == 4096 * (r / 4096 + 1048576 * (q1 + q2)) + r % 4096;
    Digit4096(r / 4096 + 1048576 * (q1 + q2), r % 4096);
  }

  lemma Digit4096(k: int, b: nat)
    requires b < 4096
    ensures (4096 * k + b) % 4096 == b
  {
  }

  lemma Digit4(k: int, b: nat)
    requires b < 4
    ensures (4 * k + b) % 4 == b
  {
  }

  lemma Digit16(k: int, b: nat)
    requires b < 16
    ensures (16 * k + b) % 16 == b
  {
  }

  lemma Digit64(k: int, b: nat)
    requires b < 64
    ensures (64 * k + b) % 64 == b
  {
  }

  lemma Digit256(k: int, b: nat)
    requires b < 256
    ensures (256 * k + b) % 256 == b
  {
  }

  // Reading inside the low twelve bits.

  lemma LowBits(v: nat)
    ensures v % 4 == v % 4096 % 4 && v % 16 == v % 4096 % 16 && v % 64 == v % 4096 % 64
  {
    var q, r := v / 4096, v % 4096;
    Digit4(1024 * q + r / 4, r % 4);
    Digit16(256 * q + r / 16, r % 16);
    Digit64(64 * q + r / 64, r % 64);
  }

  lemma Shift2(v: nat)
    ensures v / 4 % 64 == v % 4096 / 4 % 64 && v / 4 % 256 == v % 4096 / 4 % 256
  {
    var q, s := v / 4096, v % 4096 / 4;
    assert v / 4 == 1024 * q + s;
    Digit64(16 * q + s / 64, s % 64);
    Digit256(4 * q + s / 256, s % 256);
  }

  lemma Shift4(v: nat)
    ensures v / 16 % 64 == v % 4096 / 16 % 64 && v / 16 % 256 == v % 4096 / 16
  {
    var q, s := v / 4096, v % 4096 / 16;
    assert v / 16 == 256 * q + s;
    Digit64(4 * q + s / 64, s % 64);
    Digit256(q, s);
  }

  lemma Shift6(v: nat)
    ensures v / 64 % 64 == v % 4096 / 64
  {
    var q, s := v / 4096, v % 4096 / 64;
    assert v / 64 == 64 * q + s;
    Digit64(q, s);
  }

  lemma Shift0(v: nat)
    ensures v % 64 == v % 4096 % 64 && v % 256 == v % 4096 % 256
  {
    var q, r := v / 4096, v % 4096;
    Digit256(16 * q + r / 256, r % 256);
    Digit64(64 * q + r / 64, r % 64);
  }

  // ------------------------------------------------------------------- encoder

  /** The character positions reached after each byte of a group. */
  lemma FirstByte(v: nat, x: Byte)
    ensures var w := Add(Shl(v, 8), x); Shr(w, 2) % 64 == First6(x) && w % 4 == x % 4
  {
    var w := Add(Shl(v, 8), x);
    RightShifts(w);
    ShiftByte(v, x);
    Shift2(w);
    LowBits(w);
    assert w % 4096 / 4 == 64 * (v % 16) + x / 4;
    Digit64(v % 16, x / 4);
    Digit4(v % 16 * 64 + x / 4, x % 4);
  }

  lemma SecondByte(v: nat, x: Byte, y: Byte)
    requires v % 4 == x % 4
    ensures var w := Add(Shl(v, 8), y); Shr(w, 4) % 64 == Second6(x, y) && w % 16 == y % 16
  {
    RightShifts(Add(Shl(v, 8), y));
    ShiftByte(v, y);
    var h, w := v % 16 / 4, Add(Shl(v, 8), y);
    Shift4(w);
    LowBits(w);
    Digit4(v / 16 * 4 + h, v % 16 % 4);
    assert w % 4096 / 16 == 64 * h + (x % 4 * 16 + y / 16);
    Digit64(h, x % 4 * 16 + y / 16);
    Digit16(v % 16 * 16 + y / 16, y % 16);
  }

  lemma ThirdByte(v: nat, y: Byte, z: Byte)
    requires v % 16 == y % 16
    ensures var w := Add(Shl(v, 8), z); Shr(w, 6) % 64 == Third6(y, z) && Shr(w, 0) % 64 == Fourth6(z)
  {
    RightShifts(Add(Shl(v, 8), z));
    ShiftByte(v, z);
    Shift6(Add(Shl(v, 8), z));
    Shift0(Add(Shl(v, 8), z));
  }

  /** The last characters are read after eight zero bits are shifted in. */
  lemma LastBits(v: nat, x: Byte)
    ensures v % 4 == x % 4 ==> Shr(Shl(v, 8), 4) % 64 == Second6(x, 0)
    ensures v % 16 == x % 16 ==> Shr(Shl(v, 8), 6) % 64 == Third6(x, 0)
  {
    assert Add(Shl(v, 8), 0) == Shl(v, 8);
    if v % 4 == x % 4 { SecondByte(v, x, 0); }
    if v % 16 == x % 16 { ThirdByte(v, x, 0); }
  }

  /** The sextets written after the complete groups and the bytes of the open one;
      two or four bits of the last byte may wait. */
  ghost predicate EncodeState(groups: seq<Byte>, open: seq<Byte>, six: seq<Sextet>, val: nat, bits: int) {
    && |groups| % 3 == 0 && |open| < 3 && val < WORD
    && (|open| == 0 ==> six == Split(groups) && bits == -6)
    && (|open| == 1 ==> six == Split(groups) + [First6(open[0])] && bits == -4 && val % 4 == open[0] % 4)
    && (|open| == 2 ==> six == Split(groups) + [First6(open[0]), Second6(open[0], open[1])]
                        && bits == -2 && val % 16 == open[1] % 16)
  }

  method Base64Encode(input: seq<Byte>) returns (out: seq<Octet>)
    ensures out == Encoded(input)
  {
    hide First6, Second6, Third6, Fourth6, First8, Second8, Third8;
    out := [];
    var val: nat, bits := 0, -6;
    ghost var groups: seq<Byte>, open: seq<Byte>, six: seq<Sextet> := [], [], [];
    for i := 0 to |input|
      invariant groups + open == input[..i] && EncodeState(groups, open, six, val, bits) && out == Chars(six)
    {
      ghost var six0, val0, bits0 := six, val, bits;
      val := Add(Shl(val, 8), input[i]);
      bits := bits + 8;
      while bits >= 0
        invariant out == Chars(six)
        invariant || (bits == bits0 + 8 && six == six0)
                  || (bits == bits0 + 2 && six == six0 + [Shr(val, bits0 + 8) % 64])
                  || (bits == -6 && bits0 == -2 && six == six0 + [Shr(val, 6) % 64, Shr(val, 0) % 64])
        decreases bits
      {
        out := out + [Char64(Shr(val, bits) % 64)];
        six := six + [Shr(val, bits) % 64];
        bits := bits - 6;
      }
      EncodeByte(groups, open, input[i], six0, val0, bits0, six, val, bits);
      assert input[..i + 1] == groups + open + [input[i]];
      if |open| == 2 {
        groups, open := groups + open + [input[i]], [];
      } else {
        open := open + [input[i]];
      }
    }
    assert input[..|input|] == input;
    LastByte(groups, open, six, val, bits);
    if bits > -6 {
      out := out + [Char64(Shr(Shl(val, 8), bits + 8) % 64)];
    }
    assert out == Chars(Split(input));
    out := Pad(out);
  }

  method Pad(s: seq<Octet>) returns (out: seq<Octet>)
    requires |s| % 4 != 1
    ensures out == s + Padding(|s|)
  {
    out := s;
    while |out| % 4 != 0
      invariant |s| <= |out| <= |s| + |Padding(|s|)| && out == s + Padding(|s|)[..|out| - |s|]
      decreases |s| + |Padding(|s|)| - |out|
    {
      out := out + ['='];
    }
  }

  lemma LastByte(groups: seq<Byte>, open: seq<Byte>, six: seq<Sextet>, val: nat, bits: int)
    requires EncodeState(groups, open, six, val, bits)
    ensures Split(groups + open) == six + (if bits > -6 then [Shr(Shl(val, 8), bits + 8) % 64] else [])
    ensures |Split(groups + open)| % 4 != 1
  {
    hide First6, Second6, Third6, Fourth6, First8, Second8, Third8;
    SplitAppend(groups, open);
    SplitLength(groups + open);
    if open != [] {
      LastBits(val, open[|open| - 1]);
    }
  }

  /** Complete groups are split independently of what follows. */
  lemma {:induction false} SplitAppend(groups: seq<Byte>, rest: seq<Byte>)
    requires |groups| % 3 == 0
    ensures Split(groups + rest) == Split(groups) + Split(rest)
  {
    hide First6, Second6, Third6, Fourth6, First8, Second8, Third8;
    if groups == [] {
      assert groups + rest == rest;
    } else {
      SplitAppend(groups[3..], rest);
      assert (groups + rest)[3..] == groups[3..] + rest;
    }
  }

  lemma {:induction false} SplitLength(bs: seq<Byte>)
    ensures |Split(bs)| % 4 == (if |bs| % 3 == 0 then 0 else |bs| % 3 + 1)
  {
    hide First6, Second6, Third6, Fourth6, First8, Second8, Third8;
    if |bs| < 3 {
    } else {
      SplitLength(bs[3..]);
    }
  }

  lemma EncodeByte(groups: seq<Byte>, open: seq<Byte>, c: Byte, six0: seq<Sextet>, val0: nat, bits0: int,
      six: seq<Sextet>, val: nat, bits: int)
    requires EncodeState(groups, open, six0, val0, bits0)
    requires val == Add(Shl(val0, 8), c)
    requires if bits0 == -2 then bits == -6 && six == six0 + [Shr(val, 6) % 64, Shr(val, 0) % 64]
             else bits == bits0 + 2 && six == six0 + [Shr(val, bits0 + 8) % 64]
    ensures if |open| == 2 then EncodeState(groups + open + [c], [], six, val, bits)
            else EncodeState(groups, open + [c], six, val, bits)
  {
    hide First6, Second6, Third6, Fourth6, First8, Second8, Third8;
    if |open| == 0 {
      FirstByte(val0, c);
    } else if |open| == 1 {
      SecondByte(val0, open[0], c);
    } else {
      ThirdByte(val0, open[1], c);
      GroupClosed(groups, open[0], open[1], c);
      assert open + [c] == [open[0], open[1], c];
      assert groups + open + [c] == groups + (open + [c]);
    }
  }

  lemma GroupClosed(groups: seq<Byte>, x: Byte, y: Byte, z: Byte)
    requires |groups| % 3 == 0
    ensures Split(groups + [x, y, z]) == Split(groups) + [First6(x), Second6(x, y), Third6(y, z), Fourth6(z)]
  {
    hide First6, Second6, Third6, Fourth6, First8, Second8, Third8;
    SplitAppend(groups, [x, y, z]);
    assert [x, y, z][3..] == [];
  }

  // ------------------------------------------------------------------- decoder

  /** The table the decoder fills before it starts. */
  method DecodeTable() returns (table: seq<int>)
    ensures |table| == 256 && forall c: Octet :: table[c as int] == Value(c)
  {
    table := seq(256, _ => -1);
    for i := 0 to 64
      invariant |table| == 256
      invariant forall c: Octet :: table[c as int] == if Value(c) < i then Value(c) else -1
    {
      ValueOfChar(i);
      table := table[Char64(i) as int := i];
    }
  }

  /** What is written after the complete groups and the sextets of the open one;
      six, four or two bits may wait. */
  ghost predicate DecodeState(groups: seq<Sextet>, open: seq<Sextet>, out: seq<Byte>, val: nat, bits: int) {
    && |groups| % 4 == 0 && |open| < 4 && val < WORD && out == Packed(groups) + Packed(open)
    && (|open| == 0 ==> bits == -8)
    && (|open| == 1 ==> bits == -2 && val % 64 == open[0])
    && (|open| == 2 ==> bits == -4 && val % 16 == open[1] % 16)
    && (|open| == 3 ==> bits == -6 && val % 4 == open[2] % 4)
  }

  method Base64Decode(input: seq<Octet>) returns (out: seq<Byte>)
    ensures out == Decoded(input)
  {
    hide First8, Second8, Third8, Value, Shl, Shr, Add, Advance;
    var table := DecodeTable();
    out := [];
    var val: nat, bits := 0, -8;
    ghost var groups: seq<Sextet>, open: seq<Sextet> := [], [];
    var i := 0;
    while i < |input|
      invariant 0 <= i <= |input|
      invariant Sextets(input) == groups + open + Sextets(input[i..])
      invariant DecodeState(groups, open, out, val, bits)
    {
      var t := table[input[i] as int];
      assert t == Value(input[i]);
      if t == -1 {
        break;
      }
      ghost var val0, bits0, out0 := val, bits, out;
      val := Add(Shl(val, 6), t);
      bits := bits + 6;
      if bits >= 0 {
        out := out + [Shr(val, bits) % 256];
        bits := bits - 8;
      }
      DecodeSextet(groups, open, t, out0, val0, bits0, out, val, bits);
      SextetsNext(groups + open, input, i);
      groups, open := Advance(groups, open, t).0, Advance(groups, open, t).1;
      i := i + 1;
    }
    Finished(groups, open, input, i);
  }

  /** One more sextet read; the fourth closes the group. */
  ghost function Advance(groups: seq<Sextet>, open: seq<Sextet>, t: Sextet): (r: (seq<Sextet>, seq<Sextet>))
    ensures r.0 + r.1 == groups + open + [t]
  {
    if |open| == 3 then (groups + open + [t], []) else (groups, open + [t])
  }

  lemma Finished(groups: seq<Sextet>, open: seq<Sextet>, input: seq<Octet>, i: nat)
    requires |groups| % 4 == 0 && i <= |input| && (i == |input| || Value(input[i]) < 0)
    requires Sextets(input) == groups + open + Sextets(input[i..])
    ensures Decoded(input) == Packed(groups) + Packed(open)
  {
    PackedAppend(groups, open);
    assert Sextets(input[i..]) == [];
    assert groups + open + [] == groups + open;
  }

  lemma SextetsNext(read: seq<Sextet>, input: seq<Octet>, i: nat)
    requires i < |input| && Value(input[i]) >= 0 && Sextets(input) == read + Sextets(input[i..])
    ensures Sextets(input) == read + [Value(input[i])] + Sextets(input[i + 1..])
  {
    assert input[i..][1..] == input[i + 1..];
  }

  lemma FirstSextet(v: nat, a: Sextet)
    ensures Add(Shl(v, 6), a) % 64 == a
  {
    ShiftSextet(v, a);
    LowBits(Add(Shl(v, 6), a));
  }

  lemma SecondSextet(v: nat, a: Sextet, b: Sextet)
    requires v % 64 == a
    ensures var w := Add(Shl(v, 6), b); Shr(w, 4) % 256 == First8(a, b) && w % 16 == b % 16
  {
    RightShifts(Add(Shl(v, 6), b));
    ShiftSextet(v, b);
    Shift4(Add(Shl(v, 6), b));
    LowBits(Add(Shl(v, 6), b));
  }

  lemma ThirdSextet(v: nat, b: Sextet, c: Sextet)
    requires v % 16 == b % 16
    ensures var w := Add(Shl(v, 6), c); Shr(w, 2) % 256 == Second8(b, c) && w % 4 == c % 4
  {
    RightShifts(Add(Shl(v, 6), c));
    ShiftSextet(v, c);
    Shift2(Add(Shl(v, 6), c));
    LowBits(Add(Shl(v, 6), c));
    var h := v % 64 / 16;
    Digit16(v / 64 * 4 + h, v % 64 % 16);
    assert v % 64 == 16 * h + b % 16;
    assert (v % 64 * 64 + c) / 4 == 256 * h + (b % 16 * 16 + c / 4);
    Digit256(h, b % 16 * 16 + c / 4);
    Digit4(v % 64 * 16 + c / 4, c % 4);
  }

  lemma FourthSextet(v: nat, c: Sextet, d: Sextet)
    requires v % 4 == c % 4
    ensures Shr(Add(Shl(v, 6), d), 0) % 256 == Third8(c, d)
  {
    RightShifts(Add(Shl(v, 6), d));
    ShiftSextet(v, d);
    Shift0(Add(Shl(v, 6), d));
    var h := v % 64 / 4;
    Digit4(v / 64 * 16 + h, v % 64 % 4);
    assert v % 64 == 4 * h + c % 4;
    assert v % 64 * 64 + d == 256 * h + (c % 4 * 64 + d);
    Digit256(h, c % 4 * 64 + d);
  }

  lemma {:induction false} PackedAppend(groups: seq<Sextet>, rest: seq<Sextet>)
    requires |groups| % 4 == 0
    ensures Packed(groups + rest) == Packed(groups) + Packed(rest)
  {
    hide First6, Second6, Third6, Fourth6, First8, Second8, Third8;
    if groups == [] {
      assert groups + rest == rest;
    } else {
      PackedAppend(groups[4..], rest);
      assert (groups + rest)[4..] == groups[4..] + rest;
    }
  }

  lemma DecodeSextet(groups: seq<Sextet>, open: seq<Sextet>, t: Sextet, out0: seq<Byte>, val0: nat, bits0: int,
      out: seq<Byte>, val: nat, bits: int)
    requires DecodeState(groups, open, out0, val0, bits0) && val == Add(Shl(val0, 6), t)
    requires if bits0 + 6 >= 0 then bits == bits0 - 2 && out == out0 + [Shr(val, bits0 + 6) % 256]
             else bits == bits0 + 6 && out == out0
    ensures DecodeState(Advance(groups, open, t).0, Advance(groups, open, t).1, out, val, bits)
  {
    hide First6, Second6, Third6, Fourth6, First8, Second8, Third8;
    if |open| == 0 {
      FirstSextet(val0, t);
    } else if |open| == 1 {
      SecondSextet(val0, open[0], t);
    } else if |open| == 2 {
      ThirdSextet(val0, open[1], t);
    } else {
      FourthSextet(val0, open[2], t);
      PackedAppend(groups, open + [t]);
      assert groups + open + [t] == groups + (open + [t]);
      assert Packed(open + [t]) == Packed(open) + [Third8(open[2], t)] by { assert (open + [t])[4..] == []; }
    }
  }

  // ------------------------------------------------------------------ inverses

  lemma {:induction false} SextetsOfChars(ss: seq<Sextet>, pad: seq<Octet>)
    requires pad != [] ==> pad[0] == '='
    ensures Sextets(Chars(ss) + pad) == ss
  {
    var s := Chars(ss) + pad;
    if ss == [] {
    } else {
      ValueOfChar(ss[0]);
      SextetsOfChars(ss[1..], pad);
      assert s[1..] == Chars(ss[1..]) + pad;
    }
  }

  lemma {:induction false} PackedSplit(bs: seq<Byte>)
    ensures Packed(Split(bs)) == bs
  {
    hide First6, Second6, Third6, Fourth6, First8, Second8, Third8;
    if |bs| >= 3 {
      PackedSplit(bs[3..]);
      PackedGroup(bs[0], bs[1], bs[2], Split(bs[3..]));
      assert bs == [bs[0], bs[1], bs[2]] + bs[3..];
    } else if |bs| == 2 {
      Repack(bs[0], bs[1], 0);
    } else if |bs| == 1 {
      Repack(bs[0], 0, 0);
    }
  }

  lemma PackedGroup(x: Byte, y: Byte, z: Byte, rest: seq<Sextet>)
    ensures Packed([First6(x), Second6(x, y), Third6(y, z), Fourth6(z)] + rest) == [x, y, z] + Packed(rest)
  {
    hide First6, Second6, Third6, Fourth6, First8, Second8, Third8;
    Repack(x, y, z);
    assert ([First6(x), Second6(x, y), Third6(y, z), Fourth6(z)] + rest)[4..] == rest;
  }

  /** Decoding inverts encoding on every byte string. */
  lemma DecodeInverts(bs: seq<Byte>)
    ensures Decoded(Encoded(bs)) == bs
  {
    SextetsOfChars(Split(bs), Padding(|Split(bs)|));
    PackedSplit(bs);
  }

  /** The last group is complete or its unused bits are zero. */
  predicate ZeroTail(ss: seq<Sextet>) {
    var n := |ss|;
    && n % 4 != 1
    && (n % 4 == 2 ==> ss[n - 1] % 16 == 0)
    && (n % 4 == 3 ==> ss[n - 1] % 4 == 0)
  }

  /** Alphabet characters, zero unused bits, the right padding and nothing more. */
  predicate Canonical(s: seq<Octet>) {
    var ss := Sextets(s);
    ZeroTail(ss) && s[|ss|..] == Padding(|ss|)
  }

  /** Encoding inverts decoding on exactly the canonical strings. */
  lemma EncodeInverts(s: seq<Octet>)
    ensures Encoded(Decoded(s)) == s <==> Canonical(s)
  {
    var ss := Sextets(s);
    SextetsPrefix(s);
    if Canonical(s) {
      SplitPacked(ss);
      assert s == Chars(ss) + Padding(|ss|);
    }
    var bs := Decoded(s);
    SextetsOfChars(Split(bs), Padding(|Split(bs)|));
    SplitZeroTail(bs);
    assert Encoded(bs)[|Split(bs)|..] == Padding(|Split(bs)|);
  }

  /** A text without its padding decodes but does not come back. */
  lemma UnpaddedNotRestored()
    ensures Decoded("QQ") == [65 as Byte] && Encoded([65 as Byte]) == "QQ==" && !Canonical("QQ")
  {
    assert "QQ"[1..] == ['Q'] && ['Q'][1..] == [];
    assert Sextets([]) == [];
    assert Sextets(['Q']) == [16];
    assert Sextets("QQ") == [16, 16];
    assert Split([65 as Byte]) == [16, 16];
    assert Chars([16, 16]) == "QQ";
    EncodeInverts("QQ");
  }

  lemma {:induction false} SextetsPrefix(s: seq<Octet>)
    ensures s[..|Sextets(s)|] == Chars(Sextets(s))
  {
    if s == [] || Value(s[0]) < 0 {
    } else {
      SextetsPrefix(s[1..]);
      assert s[..|Sextets(s)|] == [s[0]] + s[1..][..|Sextets(s[1..])|];
    }
  }

  lemma {:induction false} SplitZeroTail(bs: seq<Byte>)
    ensures ZeroTail(Split(bs))
  {
    hide First6, Second6, Third6, Fourth6, First8, Second8, Third8;
    if |bs| >= 3 {
      SplitZeroTail(bs[3..]);
    } else if |bs| == 2 {
      LastZeros(0, bs[1]);
    } else if |bs| == 1 {
      LastZeros(bs[0], 0);
    }
  }

  lemma LastZeros(x: Byte, y: Byte)
    ensures Second6(x, 0) % 16 == 0 && Third6(y, 0) % 4 == 0
  {
    Digit16(x % 4, 0);
    Digit4(y % 16, 0);
  }

  lemma {:induction false} SplitPacked(ss: seq<Sextet>)
    requires ZeroTail(ss)
    ensures Split(Packed(ss)) == ss
  {
    hide First6, Second6, Third6, Fourth6, First8, Second8, Third8;
    if |ss| >= 4 {
      assert Packed(ss) == [First8(ss[0], ss[1]), Second8(ss[1], ss[2]), Third8(ss[2], ss[3])] + Packed(ss[4..]);
      hide Packed, Split;
      SplitPacked(ss[4..]);
      SplitGroup(ss[0], ss[1], ss[2], ss[3], Packed(ss[4..]));
      assert ss == [ss[0], ss[1], ss[2], ss[3]] + ss[4..];
    } else if |ss| == 3 {
      SplitThree(ss[0], ss[1], ss[2]);
      assert ss == [ss[0], ss[1], ss[2]];
    } else if |ss| == 2 {
      SplitTwo(ss[0], ss[1]);
      assert ss == [ss[0], ss[1]];
    }
  }

  lemma SplitGroup(a: Sextet, b: Sextet, c: Sextet, d: Sextet, rest: seq<Byte>)
    ensures Split([First8(a, b), Second8(b, c), Third8(c, d)] + rest) == [a, b, c, d] + Split(rest)
  {
    hide First6, Second6, Third6, Fourth6, First8, Second8, Third8;
    Resplit(a, b, c, d);
    assert ([First8(a, b), Second8(b, c), Third8(c, d)] + rest)[3..] == rest;
  }

  lemma SplitThree(a: Sextet, b: Sextet, c: Sextet)
    requires c % 4 == 0
    ensures Split([First8(a, b), Second8(b, c)]) == [a, b, c]
  {
    hide First6, Second6, Third6, Fourth6, First8, Second8, Third8;
    Resplit(a, b, c, 0);
    ThirdZero(c);
  }

  lemma SplitTwo(a: Sextet, b: Sextet)
    requires b % 16 == 0
    ensures Split([First8(a, b)]) == [a, b]
  {
    hide First6, Second6, Third6, Fourth6, First8, Second8, Third8;
    Resplit(a, b, 0, 0);
    SecondZero(b);
  }

  lemma ThirdZero(c: Sextet)
    requires c % 4 == 0
    ensures Third8(c, 0) == 0
  {
  }

  lemma SecondZero(b: Sextet)
    requires b % 16 == 0
    ensures Second8(b, 0) == 0
  {
  }

  // ------------------------------------------------------- what the tables amount to

  /** The alphabet by the codes of its characters: A-Z, a-z, 0-9, plus and slash. */
  lemma Alphabet(v: Sextet)
    ensures Char64(v) as int ==
              if v < 26 then 65 + v
              else if v < 52 then 97 + (v - 26)
              else if v < 62 then 48 + (v - 52)
              else if v == 62 then 43 else 47
  {
  }

  /** Three bytes and their four sextets are the same 24-bit number. */
  lemma GroupNumber(x: Byte, y: Byte, z: Byte)
    ensures Split([x, y, z]) == [First6(x), Second6(x, y), Third6(y, z), Fourth6(z)]
    ensures Packed(Split([x, y, z])) == [x, y, z]
    ensures var a: int, b: int, c: int, d: int := First6(x), Second6(x, y), Third6(y, z), Fourth6(z);
            262144 * a + 4096 * b + 64 * c + d == 65536 * (x as int) + 256 * (y as int) + (z as int)
  {
    assert [x, y, z][3..] == [];
    PackedSplit([x, y, z]);
    hide Packed;
  }

  /** A group of three is encoded by itself, ahead of the rest. */
  lemma EncodedGroup(x: Byte, y: Byte, z: Byte, rest: seq<Byte>)
    ensures Encoded([x, y, z] + rest) == Encoded([x, y, z]) + Encoded(rest)
  {
    var s := Split([x, y, z]);
    GroupNumber(x, y, z);
    SplitAppend([x, y, z], rest);
    CharsConcat(s, Split(rest));
    hide Split, Chars, Packed;
    PaddingOf(|Split(rest)|);
    assert Encoded([x, y, z]) == Chars(s) + Padding(4);
    assert Padding(4) == [];
    var pad := Padding(|Split(rest)|);
    assert Chars(s) + Chars(Split(rest)) + pad == Chars(s) + (Chars(Split(rest)) + pad);
  }

  lemma PaddingOf(n: nat)
    ensures Padding(4 + n) == Padding(n)
  {
  }

  lemma CharsConcat(a: seq<Sextet>, b: seq<Sextet>)
    ensures Chars(a + b) == Chars(a) + Chars(b)
  {
  }

  /** One and two bytes: zero bits fill the last sextet, equals signs the last group. */
  lemma EncodedTail(x: Byte, y: Byte)
    ensures Encoded([]) == []
    ensures Encoded([x]) == [Char64(x / 4), Char64(x % 4 * 16), '=', '=']
    ensures Encoded([x, y]) == [Char64(x / 4), Char64(x % 4 * 16 + y / 16), Char64(y % 16 * 4), '=']
  {
  }

  /** Decoding stops at the first character outside the alphabet. */
  lemma {:induction false} DecodingStops(s: seq<Octet>, c: Octet, rest: seq<Octet>)
    requires Value(c) < 0
    ensures Sextets(s + [c] + rest) == Sextets(s)
  {
    if s == [] {
      assert (s + [c] + rest)[0] == c;
    } else {
      assert (s + [c] + rest)[1..] == s[1..] + [c] + rest;
      DecodingStops(s[1..], c, rest);
    }
  }

  lemma DecodedUpTo(s: seq<Octet>, c: Octet, rest: seq<Octet>)
    requires forall v: Sextet :: Char64(v) != c
    ensures Decoded(s + [c] + rest) == Decoded(s)
  {
    assert Value(c) < 0;
    DecodingStops(s, c, rest);
  }

  lemma SextetsTail(a: Sextet, b: Sextet, c: Sextet)
    ensures Sextets([Char64(a)]) == [a]
    ensures Sextets([Char64(a), Char64(b)]) == [a, b]
    ensures Sextets([Char64(a), Char64(b), Char64(c)]) == [a, b, c]
  {
    SextetsOfChars([a], []);
    SextetsOfChars([a, b], []);
    SextetsOfChars([a, b, c], []);
    assert Chars([a]) + [] == [Char64(a)];
    assert Chars([a, b]) + [] == [Char64(a), Char64(b)];
    assert Chars([a, b, c]) + [] == [Char64(a), Char64(b), Char64(c)];
    hide Chars, Sextets, Char64;
  }

  /** A lone character at the end gives nothing; two give the byte of their first eight
      bits, three the two bytes of their first sixteen. */
  lemma DecodedTail(a: Sextet, b: Sextet, c: Sextet)
    ensures Decoded([Char64(a)]) == []
    ensures Decoded([Char64(a), Char64(b)]) == [First8(a, b)]
    ensures Decoded([Char64(a), Char64(b), Char64(c)]) == [First8(a, b), Second8(b, c)]
    ensures 16 * (First8(a, b) as int) + b % 16 == 64 * a + b
    ensures 4 * (256 * (First8(a, b) as int) + Second8(b, c)) + c % 4 == 4096 * a + 64 * b + c
  {
    SextetsTail(a, b, c);
    hide Sextets, Char64;
  }
}
