/** What the conversion means: the search splits a well-formed stream at its PPS exactly when the
    PPS starts with 0x68, and the record decodes to the parameter sets exactly when both are
    shorter than 256 bytes. */
module CodecDataLaws {
  import opened Common
  import opened CodecData

  // ---- byte streams and their spelling ----

  const START: seq<Byte> := [0, 0, 0, 1]

  const LOWER: string := "0123456789abcdef"
  const UPPER: string := "0123456789ABCDEF"

  /** The character is the hexadecimal digit with this value, in either case. */
  predicate IsDigitOf(c: char, v: int) {
    0 <= v < 16 && (c == LOWER[v] || c == UPPER[v])
  }

  lemma {:induction false} DigitsAt(v: nat)
    requires v < 16
    ensures LOWER[v] as int == if v < 10 then 48 + v else 87 + v
    ensures UPPER[v] as int == if v < 10 then 48 + v else 55 + v
  {
    assert v == 0 || v == 1 || v == 2 || v == 3 || v == 4 || v == 5 || v == 6 || v == 7
        || v == 8 || v == 9 || v == 10 || v == 11 || v == 12 || v == 13 || v == 14 || v == 15;
  }

  /** Exactly the digits have a value, and it is their place in the alphabet. */
  lemma {:induction false} HexDigitIff(c: char, v: int)
    ensures HexDigit(c) == Some(v) <==> IsDigitOf(c, v)
  {
    if 0 <= v < 16 {
      DigitsAt(v);
    }
  }

  /** The text spells the bytes, two hexadecimal digits each, each in either case. */
  ghost predicate Spells(t: string, bytes: seq<Byte>) {
    && |t| == 2 * |bytes|
    && forall i :: 0 <= i < |bytes| ==> IsDigitOf(t[2 * i], bytes[i] / 16) && IsDigitOf(t[2 * i + 1], bytes[i] % 16)
  }

  /** A text in which the case of each digit is given. */
  function Hex(bytes: seq<Byte>, upper: int -> bool): (t: string)
    ensures Spells(t, bytes)
    decreases |bytes|
  {
    if bytes == [] then ""
    else
      var n := |bytes| - 1;
      var b := bytes[n];
      Hex(bytes[..n], upper)
      + [if upper(2 * n) then UPPER[b / 16] else LOWER[b / 16],
         if upper(2 * n + 1) then UPPER[b % 16] else LOWER[b % 16]]
  }

  /** The conversion's own reading of the digits. */
  ghost predicate Reads(t: string, bytes: seq<Byte>) {
    && |t| == 2 * |bytes|
    && forall i :: 0 <= i < |bytes| ==>
         HexDigit(t[2 * i]) == Some(bytes[i] / 16) && HexDigit(t[2 * i + 1]) == Some(bytes[i] % 16)
  }

  lemma {:induction false} SpellsIff(t: string, bytes: seq<Byte>)
    ensures Spells(t, bytes) <==> Reads(t, bytes)
  {
    if |t| == 2 * |bytes| {
      forall i | 0 <= i < |bytes|
        ensures HexDigit(t[2 * i]) == Some(bytes[i] / 16) <==> IsDigitOf(t[2 * i], bytes[i] / 16)
        ensures HexDigit(t[2 * i + 1]) == Some(bytes[i] % 16) <==> IsDigitOf(t[2 * i + 1], bytes[i] % 16)
      {
        HexDigitIff(t[2 * i], bytes[i] / 16);
        HexDigitIff(t[2 * i + 1], bytes[i] % 16);
      }
    }
  }

  /** What ITU-T H.264 (section 7.4.1) demands of the bytes of a NAL unit, as far as it matters
      here: no three zero bytes in a row, and the last byte is not zero. */
  ghost predicate NalUnit(b: seq<Byte>) {
    && b != [] && b[|b| - 1] != 0
    && forall i :: 0 <= i < |b| - 2 ==> !(b[i] == 0 && b[i + 1] == 0 && b[i + 2] == 0)
  }

  /** The byte behind the start code that the search looks for: nal_ref_idc 3 and nal_unit_type 8
      (section 7.3.1 of ITU-T H.264). An SPS, which has nal_unit_type 7, does not begin with it. */
  predicate StartsPps(b: seq<Byte>)
    requires b != []
  {
    b[0] == 0x68
  }

  function Stream(sps: seq<Byte>, pps: seq<Byte>): seq<Byte> {
    START + sps + START + pps
  }

  // ---- the split ----

  /** The byte at place i of the text's k-th digit. */
  function Nibble(bytes: seq<Byte>, k: nat): int
    requires k < 2 * |bytes|
  {
    if k % 2 == 0 then bytes[k / 2] / 16 else bytes[k / 2] % 16
  }

  /** The ten digits from place k on. */
  function Nibbles(b: seq<Byte>, k: nat): seq<int>
    requires k + 10 <= 2 * |b|
  {
    [Nibble(b, k), Nibble(b, k + 1), Nibble(b, k + 2), Nibble(b, k + 3), Nibble(b, k + 4),
     Nibble(b, k + 5), Nibble(b, k + 6), Nibble(b, k + 7), Nibble(b, k + 8), Nibble(b, k + 9)]
  }

  lemma {:induction false} SpelledDigit(t: string, bytes: seq<Byte>, k: nat)
    requires Reads(t, bytes) && k < |t|
    ensures HexDigit(t[k]) == Some(Nibble(bytes, k))
  {
    assert k == 2 * (k / 2) || k == 2 * (k / 2) + 1;
  }

  /** The searched text stands at digit k: in whole bytes if k is even, across bytes if k is odd. */
  ghost predicate PatternAt(b: seq<Byte>, k: nat) {
    var i := k / 2;
    if k % 2 == 0 then
      i + 5 <= |b| && b[i] == 0 && b[i + 1] == 0 && b[i + 2] == 0 && b[i + 3] == 1 && b[i + 4] == 0x68
    else
      && i + 6 <= |b| && b[i] % 16 == 0 && b[i + 1] == 0 && b[i + 2] == 0 && b[i + 3] == 0
      && b[i + 4] == 0x16 && b[i + 5] / 16 == 8
  }

  const PATTERN: seq<int> := [0, 0, 0, 0, 0, 0, 0, 1, 6, 8]

  ghost predicate SameDigits(u: string, ns: seq<int>) {
    |u| == |ns| && forall j :: 0 <= j < |ns| ==> HexDigit(u[j]) == Some(ns[j])
  }

  lemma {:induction false} DigitsArePattern(u: string, ns: seq<int>)
    requires |ns| == 10 && SameDigits(u, ns)
    ensures u == PPS_START <==> ns == PATTERN
  {
    var w := PPS_START;
    assert |w| == 10 && forall j :: 0 <= j < 10 ==> HexDigit(w[j]) == Some(PATTERN[j]);
    if ns == PATTERN {
      forall j | 0 <= j < 10 ensures u[j] == w[j] {
        assert HexDigit(u[j]) == HexDigit(w[j]) && PATTERN[j] < 10;
      }
    }
  }

  lemma {:induction false} EvenNibbles(b: seq<Byte>, i: nat)
    requires i + 5 <= |b|
    ensures Nibbles(b, 2 * i) == PATTERN <==>
            b[i] == 0 && b[i + 1] == 0 && b[i + 2] == 0 && b[i + 3] == 1 && b[i + 4] == 0x68
  {
    assert Nibbles(b, 2 * i) == [b[i] / 16, b[i] % 16, b[i + 1] / 16, b[i + 1] % 16, b[i + 2] / 16, b[i + 2] % 16,
                                 b[i + 3] / 16, b[i + 3] % 16, b[i + 4] / 16, b[i + 4] % 16];
  }

  lemma {:induction false} OddNibbles(b: seq<Byte>, i: nat)
    requires i + 6 <= |b|
    ensures Nibbles(b, 2 * i + 1) == PATTERN <==>
            b[i] % 16 == 0 && b[i + 1] == 0 && b[i + 2] == 0 && b[i + 3] == 0 && b[i + 4] == 0x16 && b[i + 5] / 16 == 8
  {
    assert Nibbles(b, 2 * i + 1) == [b[i] % 16, b[i + 1] / 16, b[i + 1] % 16, b[i + 2] / 16, b[i + 2] % 16,
                                     b[i + 3] / 16, b[i + 3] % 16, b[i + 4] / 16, b[i + 4] % 16, b[i + 5] / 16];
  }

  lemma {:induction false} FoundIsNibbles(t: string, b: seq<Byte>, k: nat)
    requires Reads(t, b) && k + 10 <= |t|
    ensures At(t, k, PPS_START) <==> Nibbles(b, k) == PATTERN
  {
    SpelledDigits(t, b, k);
    DigitsArePattern(t[k..k + 10], Nibbles(b, k));
  }

  lemma NibbleOf(b: seq<Byte>, k: nat, j: nat)
    requires k + 10 <= 2 * |b| && j < 10
    ensures Nibbles(b, k)[j] == Nibble(b, k + j)
  {
  }

  lemma {:induction false} NibbleIsSpelled(t: string, b: seq<Byte>, k: nat, j: nat)
    requires Reads(t, b) && k + 10 <= |t| && j < 10
    ensures HexDigit(t[k..k + 10][j]) == Some(Nibbles(b, k)[j])
  {
    SpelledDigit(t, b, k + j);
    NibbleOf(b, k, j);
  }

  lemma {:induction false} SpelledDigits(t: string, b: seq<Byte>, k: nat)
    requires Reads(t, b) && k + 10 <= |t|
    ensures SameDigits(t[k..k + 10], Nibbles(b, k))
  {
    var u, ns := t[k..k + 10], Nibbles(b, k);
    forall j | 0 <= j < |ns| ensures HexDigit(u[j]) == Some(ns[j]) {
      NibbleIsSpelled(t, b, k, j);
    }
  }

  lemma {:induction false} NibblesArePattern(b: seq<Byte>, k: nat)
    requires k + 10 <= 2 * |b|
    ensures Nibbles(b, k) == PATTERN <==> PatternAt(b, k)
  {
    var i := k / 2;
    if k % 2 == 0 {
      assert k == 2 * i;
      EvenNibbles(b, i);
    } else {
      assert k == 2 * i + 1;
      OddNibbles(b, i);
    }
  }

  lemma {:induction false} FoundIsPattern(t: string, b: seq<Byte>, k: nat)
    requires Spells(t, b) && k <= |t|
    ensures At(t, k, PPS_START) <==> PatternAt(b, k)
  {
    SpellsIff(t, b);
    if k + 10 <= |t| {
      FoundIsNibbles(t, b, k);
      NibblesArePattern(b, k);
    }
  }

  /** In a stream of two units the pattern starts nowhere but at their start codes, and there only
      in front of a byte 0x68. */
  lemma {:induction false} PatternOnlyAtPps(sps: seq<Byte>, pps: seq<Byte>, k: nat)
    requires NalUnit(sps) && NalUnit(pps)
    ensures PatternAt(Stream(sps, pps), k) <==>
            (k == 0 && StartsPps(sps)) || (k == 8 + 2 * |sps| && StartsPps(pps))
  {
    var b, s, i := Stream(sps, pps), |sps|, k / 2;
    StreamBytes(sps, pps);
    if PatternAt(b, k) {
      ThreeZeros(sps, pps, if k % 2 == 0 then i else i + 1);
    }
  }

  lemma {:induction false} StreamBytes(sps: seq<Byte>, pps: seq<Byte>)
    requires NalUnit(sps) && NalUnit(pps)
    ensures var b, s := Stream(sps, pps), |sps|;
            && |b| == 8 + s + |pps| && b[0] == 0 && b[1] == 0 && b[2] == 0 && b[3] == 1
            && b[4] == sps[0] && b[3 + s] == sps[s - 1]
            && b[4 + s] == 0 && b[5 + s] == 0 && b[6 + s] == 0 && b[7 + s] == 1 && b[8 + s] == pps[0]
  {
  }

  /** Where three zero bytes in a row start. */
  lemma {:induction false} ThreeZeros(sps: seq<Byte>, pps: seq<Byte>, z: nat)
    requires NalUnit(sps) && NalUnit(pps)
    requires z + 3 <= |Stream(sps, pps)|
    ensures var b := Stream(sps, pps); b[z] == 0 && b[z + 1] == 0 && b[z + 2] == 0 ==> z == 0 || z == 4 + |sps|
  {
    var b, s := Stream(sps, pps), |sps|;
    StreamBytes(sps, pps);
    if 4 <= z && z + 3 <= 4 + s {
      NotInUnit(b, sps, 4, z);
    } else if 8 + s <= z {
      NotInUnit(b, pps, 8 + s, z);
    }
  }

  lemma {:induction false} NotInUnit(b: seq<Byte>, u: seq<Byte>, at: nat, z: nat)
    requires NalUnit(u) && at <= z && z + 3 <= at + |u| <= |b| && b[at..at + |u|] == u
    ensures !(b[z] == 0 && b[z + 1] == 0 && b[z + 2] == 0)
  {
    var i := z - at;
    assert u[i] == b[at..at + |u|][i] && u[i + 1] == b[at..at + |u|][i + 1] && u[i + 2] == b[at..at + |u|][i + 2];
  }

  /** The search finds the first start code in front of a byte 0x68, in whole bytes or across them:
      that of the PPS exactly if the PPS begins with 0x68 and the SPS does not. */
  lemma {:induction false} SearchFindsPps(t: string, sps: seq<Byte>, pps: seq<Byte>)
    requires NalUnit(sps) && NalUnit(pps) && Spells(t, Stream(sps, pps))
    ensures StrStr(t, PPS_START) ==
            if StartsPps(sps) then Some(0) else if StartsPps(pps) then Some(8 + 2 * |sps|) else None
  {
    forall k: nat | k <= |t|
      ensures At(t, k, PPS_START) <==> (k == 0 && StartsPps(sps)) || (k == 8 + 2 * |sps| && StartsPps(pps))
    {
      FoundIsPattern(t, Stream(sps, pps), k);
      PatternOnlyAtPps(sps, pps, k);
    }
    assert |Stream(sps, pps)| == 8 + |sps| + |pps|;
    assert At(t, 0, PPS_START) <==> StartsPps(sps);
    assert StartsPps(pps) ==> At(t, 8 + 2 * |sps|, PPS_START);
  }

  // ---- the record ----

  /** AVCDecoderConfigurationRecord of ISO/IEC 14496-15:2004, section 5.2.4.1 */
  datatype Avcc = Avcc(profile: Byte, compatibility: Byte, level: Byte, lengthSizeMinusOne: nat,
                       sps: seq<seq<Byte>>, pps: seq<seq<Byte>>)

  datatype Units = Units(units: seq<seq<Byte>>, rest: seq<Byte>)

  /** count times a 16-bit length and as many bytes */
  function ReadUnits(d: seq<Byte>, count: nat): Option<Units> {
    if count == 0 then Some(Units([], d))
    else if |d| < 2 then None
    else
      var n: nat := 256 * (d[0] as int) + d[1];
      if |d| < 2 + n then None
      else
        match ReadUnits(d[2 + n..], count - 1)
        case None => None
        case Some(u) => Some(Units([d[2..2 + n]] + u.units, u.rest))
  }

  /** The PPS count and the PPS units, with nothing behind them. */
  function ReadTail(d: seq<Byte>): Option<seq<seq<Byte>>> {
    if d == [] then None
    else
      match ReadUnits(d[1..], d[0])
      case None => None
      case Some(u) => if u.rest == [] then Some(u.units) else None
  }

  /** A reader for the record: version 1, the reserved bits set, nothing behind the last unit. */
  function Decode(d: seq<Byte>): Option<Avcc> {
    if |d| < 7 || d[0] != 1 || d[4] / 4 != 63 || d[5] / 32 != 7 then None
    else
      match ReadUnits(d[6..], d[5] % 32)
      case None => None
      case Some(s) =>
        match ReadTail(s.rest)
        case None => None
        case Some(q) => Some(Avcc(d[1], d[2], d[3], d[4] % 4, s.units, q))
  }

  lemma {:induction false} ReadOneUnit(hi: Byte, lo: Byte, d: seq<Byte>)
    ensures var n: nat := 256 * hi + lo;
            ReadUnits([hi, lo] + d, 1) == if |d| < n then None else Some(Units([d[..n]], d[n..]))
  {
    var e := [hi, lo] + d;
    var n: nat := 256 * hi + lo;
    if |d| >= n {
      assert e[2..2 + n] == d[..n] && e[2 + n..] == d[n..];
      assert [d[..n]] + [] == [d[..n]];
      assert ReadUnits(e[2 + n..], 0) == Some(Units([], d[n..]));
    }
  }

  /** The two length bytes that are written read as n again exactly below 256. */
  lemma {:induction false} LengthFieldIff(n: nat)
    ensures 256 * HighByte(n) as nat + Low(n) == n <==> n < 256
  {
  }

  /** So a unit is read back exactly below 256 bytes. */
  lemma {:induction false} UnitIff(u: seq<Byte>, rest: seq<Byte>)
    ensures ReadUnits([HighByte(|u|), Low(|u|)] + (u + rest), 1) == Some(Units([u], rest)) <==> |u| < 256
    ensures |u| >= 256 ==>
              var r := ReadUnits([HighByte(|u|), Low(|u|)] + (u + rest), 1); r.Some? ==> r.value.units != [u]
  {
    LengthFieldIff(|u|);
    ReadOneUnit(HighByte(|u|), Low(|u|), u + rest);
    if |u| < 256 {
      assert (u + rest)[..|u|] == u && (u + rest)[|u|..] == rest;
    }
  }

  function Tail(q: seq<Byte>): seq<Byte> {
    [1, HighByte(|q|), Low(|q|)] + q
  }

  lemma {:induction false} TailIff(q: seq<Byte>)
    ensures ReadTail(Tail(q)) == Some([q]) <==> |q| < 256
  {
    assert Tail(q)[1..] == [HighByte(|q|), Low(|q|)] + (q + []);
    UnitIff(q, []);
  }

  /** The first eight bytes, the SPS, and the PPS behind its count and length. */
  function Record(a: Byte, b: Byte, c: Byte, s: seq<Byte>, q: seq<Byte>): seq<Byte> {
    [1, a, b, c, 0xff, 0xe1] + ([HighByte(|s|), Low(|s|)] + (s + Tail(q)))
  }

  /** The record decodes to the two parameter sets exactly when both are shorter than 256 bytes. */
  lemma {:induction false} RecordDecodesIff(a: Byte, b: Byte, c: Byte, s: seq<Byte>, q: seq<Byte>)
    ensures Decode(Record(a, b, c, s, q)) == Some(Avcc(a, b, c, 3, [s], [q])) <==> |s| < 256 && |q| < 256
  {
    var d, body := Record(a, b, c, s, q), [HighByte(|s|), Low(|s|)] + (s + Tail(q));
    assert d[6..] == body;
    assert d[0] == 1 && d[1] == a && d[2] == b && d[3] == c && d[4] == 0xff && d[5] == 0xe1;
    UnitIff(s, Tail(q));
    TailIff(q);
  }

  // ---- the conversion of a whole stream ----

  lemma {:induction false} CopySpelled(t: string, b: seq<Byte>, room: nat, done: seq<Byte>)
    requires Reads(t, b) && |done| + |b| <= room
    ensures CopyHex(t, room, done) == Copied(done + b)
    decreases |b|
  {
    if b == [] {
      assert done + b == done;
    } else {
      PairSpelled(t, b, 0);
      SpellsPart(t, b, 1, |b|);
      assert t[2 * 1..2 * |b|] == t[2..] && b[1..|b|] == b[1..];
      CopySpelled(t[2..], b[1..], room, done + [b[0]]);
      assert done + [b[0]] + b[1..] == done + b;
    }
  }

  lemma {:induction false} PairSpelled(t: string, b: seq<Byte>, i: nat)
    requires Reads(t, b) && i < |b|
    ensures HexNumber(Pair(t, 2 * i)).Some? && Low(HexNumber(Pair(t, 2 * i)).value) == b[i]
  {
    assert HexDigit(t[2 * i]) == Some(b[i] / 16) && HexDigit(t[2 * i + 1]) == Some(b[i] % 16);
    assert Pair(t, 2 * i)[0] == t[2 * i] && Pair(t, 2 * i)[1] == t[2 * i + 1];
  }

  lemma {:induction false} SpellsPart(t: string, b: seq<Byte>, i: nat, j: nat)
    requires Reads(t, b) && i <= j <= |b|
    ensures Reads(t[2 * i..2 * j], b[i..j])
  {
    var u, c := t[2 * i..2 * j], b[i..j];
    forall k | 0 <= k < |c| ensures HexDigit(u[2 * k]) == Some(c[k] / 16) && HexDigit(u[2 * k + 1]) == Some(c[k] % 16) {
      assert u[2 * k] == t[2 * (i + k)] && u[2 * k + 1] == t[2 * (i + k) + 1] && c[k] == b[i + k];
    }
  }

  /** The conversion of every stream of two units: a stream whose PPS is found converts to the record
      of its parameter sets if the SPS has at least four bytes, and fails otherwise; one whose PPS
      is not found, or whose SPS is taken for it, makes the code leave its buffers. */
  lemma {:induction false} StreamConverts(t: string, sps: seq<Byte>, pps: seq<Byte>)
    requires NalUnit(sps) && NalUnit(pps) && Spells(t, Stream(sps, pps))
    ensures Packetize(t) ==
            if StartsPps(sps) || !StartsPps(pps) then Undefined
            else if |sps| < 4 then BadHex
            else Converted(Record(sps[1], sps[2], sps[3], sps, pps))
  {
    SearchFindsPps(t, sps, pps);
    SpellsIff(t, Stream(sps, pps));
    if !StartsPps(sps) && StartsPps(pps) {
      SplitConverts(t, sps, pps);
    }
  }

  lemma {:induction false} SplitConverts(t: string, sps: seq<Byte>, pps: seq<Byte>)
    requires sps != [] && pps != [] && Reads(t, Stream(sps, pps))
    ensures var n := 8 + 2 * |sps|;
            && n + 8 <= |t|
            && PacketizeParts(t[..n], t[n..]) ==
               if |sps| < 4 then BadHex else Converted(Record(sps[1], sps[2], sps[3], sps, pps))
  {
    var b, s := Stream(sps, pps), |sps|;
    assert |b| == 8 + s + |pps|;
    var x, y := t[..8 + 2 * s], t[8 + 2 * s..];
    SpellsPart(t, b, 0, 4 + s);
    SpellsPart(t, b, 4 + s, |b|);
    assert b[0..4 + s] == START + sps && b[4 + s..] == START + pps;
    assert t[2 * 0..2 * (4 + s)] == x && t[2 * (4 + s)..2 * |b|] == y;
    PartsConvert(x, y, sps, pps);
  }

  lemma {:induction false} BehindStart(t: string, b: seq<Byte>)
    requires Reads(t, START + b)
    ensures Reads(t[8..], b)
  {
    SpellsPart(t, START + b, 4, 4 + |b|);
    assert (START + b)[4..4 + |b|] == b;
    assert t[8..2 * (4 + |b|)] == t[8..];
  }

  lemma {:induction false} PartsConvert(x: string, y: string, sps: seq<Byte>, pps: seq<Byte>)
    requires Reads(x, START + sps) && Reads(y, START + pps) && sps != []
    ensures PacketizeParts(x, y) == if |sps| < 4 then BadHex else Converted(Record(sps[1], sps[2], sps[3], sps, pps))
  {
    if |sps| >= 2 {
      PairSpelled(x, START + sps, 5);
    }
    if |sps| >= 3 {
      PairSpelled(x, START + sps, 6);
    }
    if |sps| >= 4 {
      PairSpelled(x, START + sps, 7);
      BehindStart(x, sps);
      BehindStart(y, pps);
      NalsConvert(sps[1], sps[2], sps[3], x[8..], y[8..], sps, pps);
    }
  }

  lemma {:induction false} RecordParts(a: Byte, b: Byte, c: Byte, s: seq<Byte>, q: seq<Byte>)
    ensures [1, a, b, c, 0xff, 0xe1, HighByte(|s|), Low(|s|)] + s + [1, HighByte(|q|), Low(|q|)] + q
         == Record(a, b, c, s, q)
  {
    var x, y := [1, a, b, c, 0xff, 0xe1], [HighByte(|s|), Low(|s|)];
    var z := [1, HighByte(|q|), Low(|q|)];
    assert [1, a, b, c, 0xff, 0xe1, HighByte(|s|), Low(|s|)] == x + y;
    assert x + y + s + z + q == x + (y + (s + (z + q)));
  }

  lemma {:induction false} NalsConvert(a: Byte, b: Byte, c: Byte, x: string, y: string, sps: seq<Byte>, pps: seq<Byte>)
    requires Reads(x, sps) && Reads(y, pps)
    ensures PackNals([1, a, b, c, 0xff, 0xe1, HighByte(|sps|), Low(|sps|)], x, y)
         == Converted(Record(a, b, c, sps, pps))
  {
    CopiedWhole(x, sps);
    CopiedWhole(y, pps);
    RecordParts(a, b, c, sps, pps);
  }

  lemma {:induction false} CopiedWhole(t: string, b: seq<Byte>)
    requires Reads(t, b)
    ensures CopyHex(t, |t| / 2, []) == Copied(b)
  {
    CopySpelled(t, b, |b|, []);
    assert [] + b == b;
  }

  /** The whole conversion: the record is |SPS| + |PPS| + 11 bytes long, and it decodes to the
      stream's profile, level and parameter sets exactly when both sets are shorter than 256 bytes. */
  lemma {:induction false} ConvertedDecodesIff(t: string, sps: seq<Byte>, pps: seq<Byte>)
    requires NalUnit(sps) && NalUnit(pps) && Spells(t, Stream(sps, pps))
    requires !StartsPps(sps) && StartsPps(pps) && |sps| >= 4
    ensures Packetize(t).Converted? && |Packetize(t).data| == 8 + |sps| + 3 + |pps|
    ensures Decode(Packetize(t).data) == Some(Avcc(sps[1], sps[2], sps[3], 3, [sps], [pps]))
       <==> |sps| < 256 && |pps| < 256
  {
    StreamConverts(t, sps, pps);
    RecordDecodesIff(sps[1], sps[2], sps[3], sps, pps);
  }

  /** In particular for the text that any writer of hexadecimal digits gives for a stream. */
  lemma {:induction false} WrittenConverts(sps: seq<Byte>, pps: seq<Byte>, upper: int -> bool)
    requires NalUnit(sps) && NalUnit(pps) && !StartsPps(sps) && StartsPps(pps) && |sps| >= 4
    ensures Packetize(Hex(Stream(sps, pps), upper)) == Converted(Record(sps[1], sps[2], sps[3], sps, pps))
  {
    StreamConverts(Hex(Stream(sps, pps), upper), sps, pps);
  }

  // ---- texts that are no hexadecimal numbers ----

  function SkipSpace(s: string): string {
    if s != "" && IsSpace(s[0]) then SkipSpace(s[1..]) else s
  }

  /** The digits at the start of a text, and what they count up to behind v. */
  function DigitRun(s: string, v: int): int
  {
    if s != "" && HexDigit(s[0]).Some? then DigitRun(s[1..], 16 * v + HexDigit(s[0]).value) else v
  }

  function StartsHex(s: string): bool {
    s != "" && HexDigit(s[0]).Some?
  }

  /** `strtol` in base 16 as the C standard describes it (section 7.20.1.4 of ISO/IEC 9899:1999): blanks,
      a sign, an optional "0x" in front of a digit, and all digits that follow. */
  function Strtol(s: string): Option<int> {
    var t := SkipSpace(s);
    var signed := t != "" && (t[0] == '+' || t[0] == '-');
    var u := if signed then t[1..] else t;
    var prefixed := |u| >= 2 && u[0] == '0' && (u[1] == 'x' || u[1] == 'X') && StartsHex(u[2..]);
    var d := if prefixed then u[2..] else u;
    if !StartsHex(d) then None
    else if signed && t[0] == '-' then Some(-DigitRun(d, 0))
    else Some(DigitRun(d, 0))
  }

  lemma {:induction false} RunOfTwo(s: string, v: int)
    requires |s| <= 2
    ensures DigitRun(s, v) ==
            if !StartsHex(s) then v
            else if !StartsHex(s[1..]) then 16 * v + HexDigit(s[0]).value
            else 16 * (16 * v + HexDigit(s[0]).value) + HexDigit(s[1]).value
  {
    if StartsHex(s) && StartsHex(s[1..]) {
      assert s[1..][1..] == "";
      assert DigitRun(s[1..][1..], 16 * (16 * v + HexDigit(s[0]).value) + HexDigit(s[1]).value)
          == 16 * (16 * v + HexDigit(s[0]).value) + HexDigit(s[1]).value;
    }
  }

  /** The two characters that the conversion reads at a time are read as `strtol` reads them. */
  lemma {:induction false} HexNumberIsStrtol(s: string)
    requires |s| <= 2
    ensures HexNumber(s) == Strtol(s)
  {
    RunOfTwo(s, 0);
    if |s| == 1 {
      assert s[1..] == "";
      assert SkipSpace(s) == if IsSpace(s[0]) then "" else s;
    } else if |s| == 2 {
      var u := s[1..];
      assert u[1..] == "" && s[2..] == "";
      RunOfTwo(u, 0);
      assert SkipSpace(u) == if IsSpace(u[0]) then "" else u;
      assert SkipSpace(s) == if IsSpace(s[0]) then SkipSpace(u) else s;
    }
  }

  /** What a pair of characters is stored as. */
  function Stored(pair: string): Byte
    requires |pair| == 2
  {
    match HexNumber(pair)
    case None => 0
    case Some(v) => Low(v)
  }

  function StoredBytes(t: string): (b: seq<Byte>)
    ensures |b| == |t| / 2
  {
    seq(|t| / 2, i requires 0 <= i < |t| / 2 => Stored(t[2 * i..2 * i + 2]))
  }

  ghost predicate PairRead(t: string, i: nat)
    requires i < |t| / 2
  {
    HexNumber(t[2 * i..2 * i + 2]).Some?
  }

  /** Every pair of characters is a number. */
  ghost predicate PairsRead(t: string) {
    forall i :: 0 <= i < |t| / 2 ==> PairRead(t, i)
  }

  lemma {:induction false} PairBehind(t: string, i: nat)
    requires 0 < i < |t| / 2
    ensures t[2..][2 * (i - 1)..2 * (i - 1) + 2] == t[2 * i..2 * i + 2]
  {
  }

  lemma {:induction false} FirstPairRead(t: string)
    requires |t| >= 2
    ensures PairsRead(t) <==> HexNumber(Pair(t, 0)).Some? && PairsRead(t[2..])
  {
    if PairsRead(t) {
      assert PairRead(t, 0);
      forall i: nat | i < |t[2..]| / 2 ensures PairRead(t[2..], i) {
        PairBehind(t, i + 1);
        assert PairRead(t, i + 1);
      }
    } else {
      var k: nat :| k < |t| / 2 && !PairRead(t, k);
      if k > 0 {
        PairBehind(t, k);
        assert !PairRead(t[2..], k - 1);
      }
    }
  }

  lemma {:induction false} FirstPairStored(t: string)
    requires |t| >= 2
    ensures StoredBytes(t) == [Stored(Pair(t, 0))] + StoredBytes(t[2..])
  {
    var r := [Stored(Pair(t, 0))] + StoredBytes(t[2..]);
    forall i | 0 <= i < |t| / 2 ensures StoredBytes(t)[i] == r[i] {
      if i > 0 {
        PairBehind(t, i);
      }
    }
  }

  /** What a copy loop does on any text: it copies all pairs of an even text whose pairs are numbers; it
      leaves its buffer if an odd text ends with a digit and all pairs in front are numbers; otherwise
      it stops at a pair that is none. */
  lemma {:induction false} CopyIff(t: string, done: seq<Byte>, room: nat)
    requires room == |done| + |t| / 2
    ensures CopyHex(t, room, done) ==
            if !PairsRead(t) then Stopped
            else if |t| % 2 == 0 then Copied(done + StoredBytes(t))
            else if HexNumber(t[|t| - 1..]).Some? then Overrun
            else Stopped
    decreases |t|
  {
    if |t| >= 2 {
      FirstPairRead(t);
      FirstPairStored(t);
      if HexNumber(Pair(t, 0)).Some? {
        var b := Stored(Pair(t, 0));
        CopyIff(t[2..], done + [b], room);
        assert done + [b] + StoredBytes(t[2..]) == done + ([b] + StoredBytes(t[2..]));
        LastOfRest(t);
      }
    } else if |t| == 1 {
      assert t[0..] == t;
    } else {
      assert done + [] == done;
    }
  }

  lemma {:induction false} LastOfRest(t: string)
    requires |t| >= 2
    ensures |t| > 2 ==> t[2..][|t| - 3..] == t[|t| - 1..]
  {
  }
}
