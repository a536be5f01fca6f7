/** The conversion of H.264 codec data: the hex text of an Annex B byte stream with one SPS and
    one PPS is rewritten into an AVCDecoderConfigurationRecord. */
module CodecData {
  import opened Common

  /** `Undefined` is where the C code leaves its buffers or subtracts from a null pointer. */
  datatype Conversion = Converted(data: seq<Byte>) | BadHex | Undefined

  // ---- library calls ----

  /** `strstr`: the first place of w in t. */
  function StrStr(t: string, w: string): (r: Option<nat>)
    ensures r.Some? ==> At(t, r.value, w) && forall j :: 0 <= j < r.value ==> !At(t, j, w)
    ensures r.None? ==> forall j :: 0 <= j <= |t| ==> !At(t, j, w)
  {
    StrStrFrom(t, w, 0)
  }

  function StrStrFrom(t: string, w: string, i: nat): (r: Option<nat>)
    requires i <= |t|
    ensures r.Some? ==> i <= r.value && At(t, r.value, w) && forall j :: i <= j < r.value ==> !At(t, j, w)
    ensures r.None? ==> forall j :: i <= j <= |t| ==> !At(t, j, w)
    decreases |t| - i
  {
    if At(t, i, w) then Some(i)
    else if i == |t| then None
    else StrStrFrom(t, w, i + 1)
  }

  function HexDigit(c: char): (r: Option<int>)
    ensures r.Some? ==> 0 <= r.value < 16
  {
    if '0' <= c <= '9' then Some((c as int) - ('0' as int))
    else if 'a' <= c <= 'f' then Some((c as int) - ('a' as int) + 10)
    else if 'A' <= c <= 'F' then Some((c as int) - ('A' as int) + 10)
    else None
  }

  /** `strtol` in base 16 of at most two characters, which may also be a blank or a sign and a
      digit, or a digit and something else. A "0x" prefix has no room for a digit behind it and
      counts as the digit 0. None if there is no digit. */
  function HexNumber(s: string): (r: Option<int>)
    requires |s| <= 2
    ensures r.Some? ==> -16 < r.value < 256
  {
    if s == "" then None
    else if HexDigit(s[0]).Some? then
      if |s| == 2 && HexDigit(s[1]).Some? then Some(16 * HexDigit(s[0]).value + HexDigit(s[1]).value)
      else HexDigit(s[0])
    else if |s| == 2 && HexDigit(s[1]).Some? && (IsSpace(s[0]) || s[0] == '+') then HexDigit(s[1])
    else if |s| == 2 && HexDigit(s[1]).Some? && s[0] == '-' then Some(-HexDigit(s[1]).value)
    else None
  }

  /** The two characters from place i on, cut off by the end of the text. */
  function Pair(t: string, i: nat): (s: string)
    requires i <= |t|
    ensures |s| <= 2
  {
    if i + 2 <= |t| then t[i..i + 2] else t[i..]
  }

  /** Storing an int in an unsigned char. */
  function Low(v: int): Byte {
    v % 256
  }

  // ---- the conversion as a function ----

  const PPS_START := "0000000168"

  /** What one of the two copy loops does: all bytes, a pair that is no number, or a write behind
      the end of the buffer. */
  datatype Copy = Copied(bytes: seq<Byte>) | Stopped | Overrun

  /** The loop from the moment when `done` is written and t is left, in a buffer with room for
      `room` bytes. A single character left makes the unsigned length wrap around. */
  function CopyHex(t: string, room: nat, done: seq<Byte>): Copy
    decreases |t|
  {
    if t == "" then Copied(done)
    else
      match HexNumber(Pair(t, 0))
      case None => Stopped
      case Some(v) =>
        if |done| >= room || |t| == 1 then Overrun
        else CopyHex(t[2..], room, done + [Low(v)])
  }

  /** The high byte of a length field, as the code computes it. */
  function HighByte(n: nat): Byte {
    Low(n / 0x10000)
  }

  function Packetize(nalu: string): Conversion {
    match StrStr(nalu, PPS_START)
    case None => Undefined
    case Some(p) => PacketizeParts(nalu[..p], nalu[p..])
  }

  function PacketizeParts(sps: string, pps: string): Conversion
    requires |pps| >= 8
  {
    if |sps| < 10 then Undefined
    else
      var profile := HexNumber(Pair(sps, 10));
      if profile.None? then BadHex
      else if |sps| < 12 then Undefined
      else
        var compatibility := HexNumber(Pair(sps, 12));
        if compatibility.None? then BadHex
        else if |sps| < 14 then Undefined
        else
          var level := HexNumber(Pair(sps, 14));
          if level.None? then BadHex
          else
            var n := (|sps| - 8) / 2;
            var head := [1, Low(profile.value), Low(compatibility.value), Low(level.value), 0xff, 0xe1,
                         HighByte(n), Low(n)];
            PackNals(head, sps[8..], pps[8..])
  }

  /** Both parameter sets without their start codes behind the first eight bytes. */
  function PackNals(head: seq<Byte>, sps: string, pps: string): Conversion {
    match CopyHex(sps, |sps| / 2, [])
    case Stopped => BadHex
    case Overrun => Undefined
    case Copied(s) => PackPps(head + s, pps)
  }

  function PackPps(first: seq<Byte>, pps: string): Conversion {
    var m := |pps| / 2;
    match CopyHex(pps, m, [])
    case Stopped => BadHex
    case Overrun => Undefined
    case Copied(q) => Converted(first + [1, HighByte(m), Low(m)] + q)
  }

  // ---- the conversion as it runs ----

  method Realloc(a: array<Byte>, n: nat) returns (b: array<Byte>)
    requires a.Length <= n
    ensures fresh(b) && b.Length == n && b[..a.Length] == a[..]
  {
    b := new Byte[n];
    for i := 0 to a.Length
      invariant b[..i] == a[..i]
    {
      b[i] := a[i];
    }
  }

  /** One of the copy loops: writes from `start` on and leaves everything in front of it. */
  method CopyLoop(t: string, buf: array<Byte>, start: nat) returns (r: Copy)
    requires start <= buf.Length
    modifies buf
    ensures r == CopyHex(t, buf.Length - start, [])
    ensures buf[..start] == old(buf[..start])
    ensures r.Copied? ==> start + |r.bytes| <= buf.Length && buf[start..start + |r.bytes|] == r.bytes
  {
    var idx, rest := start, t;
    ghost var done: seq<Byte> := [];
    while rest != ""
      invariant start <= idx <= buf.Length && |done| == idx - start
      invariant buf[..start] == old(buf[..start]) && buf[start..idx] == done
      invariant CopyHex(rest, buf.Length - start, done) == CopyHex(t, buf.Length - start, [])
      decreases |rest|
    {
      var v := HexNumber(Pair(rest, 0));
      if v.None? {
        return Stopped;
      }
      if idx >= buf.Length || |rest| == 1 {
        return Overrun;
      }
      buf[idx] := Low(v.value);
      idx := idx + 1;
      rest := rest[2..];
      done := done + [Low(v.value)];
    }
    r := Copied(buf[start..idx]);
  }

  method Convert(nalu: string) returns (r: Conversion)
    ensures r == Packetize(nalu)
  {
    var ppsStart := StrStr(nalu, PPS_START);
    if ppsStart.None? {
      return Undefined;
    }
    var sps, pps := nalu[..ppsStart.value], nalu[ppsStart.value..];
    r := ConvertParts(sps, pps);
  }

  method ConvertParts(sps: string, pps: string) returns (r: Conversion)
    requires |pps| >= 8
    ensures r == PacketizeParts(sps, pps)
  {
    // six bytes of metadata and the length of the SPS
    var dci := new Byte[8];
    dci[0] := 1;
    if |sps| < 10 {
      return Undefined;
    }
    var val := HexNumber(Pair(sps, 10));
    if val.None? {
      return BadHex;
    }
    dci[1] := Low(val.value);
    if |sps| < 12 {
      return Undefined;
    }
    val := HexNumber(Pair(sps, 12));
    if val.None? {
      return BadHex;
    }
    dci[2] := Low(val.value);
    if |sps| < 14 {
      return Undefined;
    }
    val := HexNumber(Pair(sps, 14));
    if val.None? {
      return BadHex;
    }
    dci[3] := Low(val.value);
    dci[4], dci[5] := 0xff, 0xe1;
    var n := (|sps| - 8) / 2;
    dci[6], dci[7] := HighByte(n), Low(n);
    assert dci[..] == [1, dci[1], dci[2], dci[3], 0xff, 0xe1, HighByte(n), Low(n)];
    r := AppendNals(dci, sps[8..], pps[8..]);
  }

  method AppendNals(first: array<Byte>, sps: string, pps: string) returns (r: Conversion)
    ensures r == PackNals(first[..], sps, pps)
  {
    var dci := Realloc(first, first.Length + |sps| / 2);
    var s := CopyLoop(sps, dci, first.Length);
    if s.Stopped? {
      return BadHex;
    }
    if s.Overrun? {
      return Undefined;
    }
    CopiedLength(sps, |sps| / 2, []);
    assert dci[..] == dci[..first.Length] + dci[first.Length..first.Length + |s.bytes|];
    r := AppendPps(dci, pps);
  }

  method AppendPps(first: array<Byte>, pps: string) returns (r: Conversion)
    ensures r == PackPps(first[..], pps)
  {
    var idx, m := first.Length, |pps| / 2;
    var dci := Realloc(first, idx + 3 + m);
    dci[idx], dci[idx + 1], dci[idx + 2] := 1, HighByte(m), Low(m);
    idx := idx + 3;
    assert dci[..idx] == first[..] + [1, HighByte(m), Low(m)];
    var q := CopyLoop(pps, dci, idx);
    if q.Stopped? {
      return BadHex;
    }
    if q.Overrun? {
      return Undefined;
    }
    CopiedLength(pps, m, []);
    Assembled(dci[..], first[..], [1, HighByte(m), Low(m)], q.bytes);
    r := Converted(dci[..]);
  }

  /** A buffer that is filled up by what stands in front of index i and from there on. */
  lemma {:induction false} Assembled(d: seq<Byte>, first: seq<Byte>, x: seq<Byte>, rest: seq<Byte>)
    requires |d| == |first| + |x| + |rest|
    requires d[..|first| + |x|] == first + x && d[|first| + |x|..|first| + |x| + |rest|] == rest
    ensures d == first + x + rest
  {
    var i := |first| + |x|;
    assert d == d[..i] + d[i..i + |rest|];
  }

  /** A loop that ends has read the whole text and filled the buffer exactly. */
  lemma {:induction false} CopiedLength(t: string, room: nat, done: seq<Byte>)
    requires CopyHex(t, room, done).Copied?
    ensures var b := CopyHex(t, room, done).bytes; done <= b && 2 * (|b| - |done|) == |t| && (|b| <= room || t == "")
    decreases |t|
  {
    if t != "" {
      CopiedLength(t[2..], room, done + [Low(HexNumber(Pair(t, 0)).value)]);
    }
  }
}
