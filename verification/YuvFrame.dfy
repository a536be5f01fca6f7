/** The first stage of the frame sink: a planar YUV 4:2:0 frame becomes rows of four-byte pixels. */
module YuvFrame {
  import opened Common
  import opened FramePipeline

  // ---- colours ----

  function Clip(a: int): Byte {
    if a < 0 then 0 else if a > 255 then 255 else a
  }

  /** Shifting an int to the right rounds down, and so does dividing. */
  function Red(y: Byte, v: Byte): Byte {
    Clip((9535 * (y - 16) + 13074 * (v - 128)) / 8192)
  }

  function Green(y: Byte, u: Byte, v: Byte): Byte {
    Clip((9535 * (y - 16) - 6660 * (v - 128) - 3203 * (u - 128)) / 8192)
  }

  function Blue(y: Byte, u: Byte): Byte {
    Clip((9535 * (y - 16) + 16531 * (u - 128)) / 8192)
  }

  /** Red, green, blue and alpha. */
  function Rgba(y: Byte, u: Byte, v: Byte): (p: seq<Byte>)
    ensures |p| == 4 && p[3] == 255
  {
    [Red(y, v), Green(y, u, v), Blue(y, u), 255]
  }

  /** Without colour differences a pixel is grey; and more luma never makes a channel darker. */
  lemma {:induction false} GreyAndBright(y: Byte, z: Byte, u: Byte, v: Byte)
    requires y <= z
    ensures Rgba(y, 128, 128)[0] == Rgba(y, 128, 128)[1] == Rgba(y, 128, 128)[2]
    ensures forall c :: 0 <= c < 4 ==> Rgba(y, u, v)[c] <= Rgba(z, u, v)[c]
  {
    ChannelsBrighter(y, z, u, v);
  }

  lemma {:induction false} ChannelsBrighter(y: Byte, z: Byte, u: Byte, v: Byte)
    requires y <= z
    ensures Red(y, v) <= Red(z, v) && Green(y, u, v) <= Green(z, u, v) && Blue(y, u) <= Blue(z, u)
  {
    Brighter(y, z, 13074 * (v - 128));
    Brighter(y, z, -6660 * (v - 128) - 3203 * (u - 128));
    Brighter(y, z, 16531 * (u - 128));
  }

  /** The channel is the value in thousandths, rounded down to within a thirtieth and clipped. */
  ghost predicate Near(e: int, p: Byte) {
    (p == 0 || 1000 * p <= e + 30) && (p == 255 || e < 1000 * p + 1030)
  }

  /** The channels are those of ITU-R BT.601: 1.164 (Y - 16) and 1.596 (V - 128) for red, -0.813 (V - 128) and
      -0.391 (U - 128) for green, and 2.018 (U - 128) for blue. */
  lemma {:induction false} ColoursAreNear(y: Byte, u: Byte, v: Byte)
    ensures Near(1164 * (y - 16) + 1596 * (v - 128), Rgba(y, u, v)[0])
    ensures Near(1164 * (y - 16) - 813 * (v - 128) - 391 * (u - 128), Rgba(y, u, v)[1])
    ensures Near(1164 * (y - 16) + 2018 * (u - 128), Rgba(y, u, v)[2])
  {
  }

  lemma {:induction false} Brighter(y: Byte, z: Byte, difference: int)
    requires y <= z
    ensures Clip((9535 * (y - 16) + difference) / 8192) <= Clip((9535 * (z - 16) + difference) / 8192)
  {
  }

  // ---- planes ----

  /** The place of a pixel's colour difference in its plane. */
  function ChromaAt(x: nat, y: nat, w: nat): nat {
    Index(x / 2, y / 2, w / 2)
  }

  /** Where the second and the third plane start. */
  function UPlane(w: nat, h: nat): nat {
    w * h
  }

  function VPlane(w: nat, h: nat): nat {
    w * h + w * h / 4
  }

  /** All bytes the conversion reads are among the first n. */
  ghost predicate Readable(w: nat, h: nat, n: nat) {
    forall x: nat, y: nat :: x < w && y < h ==> VPlane(w, h) + ChromaAt(x, y, w) < n
  }

  ghost predicate SameBlock(x: nat, y: nat, x': nat, y': nat) {
    x / 2 == x' / 2 && y / 2 == y' / 2
  }

  /** Two pixels share their colour difference exactly if they are in the same block of two by two. */
  ghost predicate BlockwiseChroma(w: nat, h: nat) {
    forall x: nat, y: nat, x': nat, y': nat :: x < w && y < h && x' < w && y' < h ==>
      (ChromaAt(x, y, w) == ChromaAt(x', y', w) <==> SameBlock(x, y, x', y'))
  }

  /** That is so for an even width. For an odd one the last block of a row takes its colour
      difference from the first block of the row behind it, if there is one. */
  lemma {:induction false} BlockwiseChromaIff(w: nat, h: nat)
    requires w > 0
    ensures BlockwiseChroma(w, h) <==> w % 2 == 0 || h <= 2
  {
    if w % 2 == 0 {
      forall x: nat, y: nat, x': nat, y': nat | x < w && y < h && x' < w && y' < h
        ensures ChromaAt(x, y, w) == ChromaAt(x', y', w) <==> SameBlock(x, y, x', y')
      {
        IndexSplits(x / 2, y / 2, w / 2);
        IndexSplits(x' / 2, y' / 2, w / 2);
      }
    } else if h > 2 {
      assert ChromaAt(w - 1, 0, w) == w / 2 == ChromaAt(0, 2, w);
      assert !SameBlock(w - 1, 0, 0, 2);
    }
  }

  /** No pixel takes its first colour difference from the plane of the second. */
  ghost predicate PlanesApart(w: nat, h: nat) {
    forall x: nat, y: nat :: x < w && y < h ==> UPlane(w, h) + ChromaAt(x, y, w) < VPlane(w, h)
  }

  /** The size of a plane by the parities of the sides. */
  lemma {:induction false} PlaneSize(c: nat, k: nat)
    ensures (2 * c) * (2 * k) == 4 * (c * k) && (2 * c) * (2 * k + 1) == 4 * (c * k) + 2 * c
    ensures (2 * c + 1) * (2 * k) == 4 * (c * k) + 2 * k
    ensures (2 * c + 1) * (2 * k + 1) == 4 * (c * k) + 2 * c + 2 * k + 1
  {
  }

  /** The highest place read in a chroma plane is that of the last pixel. */
  lemma {:induction false} LastIsHighest(x: nat, y: nat, w: nat, h: nat)
    requires x < w && y < h
    ensures ChromaAt(x, y, w) <= ChromaAt(w - 1, h - 1, w)
  {
    MulKeepsOrder(w / 2, y / 2, (h - 1) / 2);
  }

  lemma {:induction false} PlanesApartIfLastIs(w: nat, h: nat)
    requires w > 0 && h > 0
    ensures PlanesApart(w, h) <==> ChromaAt(w - 1, h - 1, w) < w * h / 4
  {
    forall x: nat, y: nat | x < w && y < h ensures ChromaAt(x, y, w) <= ChromaAt(w - 1, h - 1, w) {
      LastIsHighest(x, y, w, h);
    }
  }

  lemma {:induction false} LastPlace(w: nat, h: nat, q: nat)
    requires w > 0 && h > 0 && q == (w / 2) * (h / 2)
    ensures ChromaAt(w - 1, h - 1, w) ==
            (if w % 2 == 0 then w / 2 - 1 else w / 2) + (if h % 2 == 0 then q - w / 2 else q)
  {
    var c, k := w / 2, h / 2;
    if h % 2 == 0 {
      assert (h - 1) / 2 == k - 1;
      assert (k - 1) * c == c * k - c;
    } else {
      assert (h - 1) / 2 == k;
    }
  }

  lemma {:induction false} QuarterOf(w: nat, h: nat, q: nat)
    requires q == (w / 2) * (h / 2)
    ensures w * h / 4 == q + (if w % 2 == 0 then (if h % 2 == 0 then 0 else w / 2 / 2)
                              else if h % 2 == 0 then h / 2 / 2
                              else (2 * (w / 2) + 2 * (h / 2) + 1) / 4)
  {
    PlaneSize(w / 2, h / 2);
    assert w == 2 * (w / 2) + w % 2 && h == 2 * (h / 2) + h % 2;
  }

  /** For an even width exactly if the height is even as well; for an odd width and an even height
      if there are at least four rows; and if both are odd, for frames that are at least four rows
      higher than wide. */
  lemma {:induction false} PlanesApartIff(w: nat, h: nat)
    requires w > 0 && h > 0
    ensures PlanesApart(w, h) <==>
            if w % 2 == 0 then h % 2 == 0
            else if h % 2 == 0 then h >= 4
            else h >= w + 4
  {
    var q := (w / 2) * (h / 2);
    PlanesApartIfLastIs(w, h);
    LastPlace(w, h, q);
    QuarterOf(w, h, q);
    LinearPart(w, h, q, ChromaAt(w - 1, h - 1, w), w * h / 4);
  }

  lemma {:induction false} LinearPart(w: nat, h: nat, q: nat, last: nat, quarter: nat)
    requires w > 0 && h > 0
    requires last == (if w % 2 == 0 then w / 2 - 1 else w / 2) + (if h % 2 == 0 then q - w / 2 else q)
    requires quarter == q + (if w % 2 == 0 then (if h % 2 == 0 then 0 else w / 2 / 2)
                             else if h % 2 == 0 then h / 2 / 2
                             else (2 * (w / 2) + 2 * (h / 2) + 1) / 4)
    ensures last < quarter <==> if w % 2 == 0 then h % 2 == 0 else if h % 2 == 0 then h >= 4 else h >= w + 4
  {
  }

  /** A frame with even sides has a quarter of its pixels in each of the two planes, and the
      conversion reads nothing behind them. */
  lemma {:induction false} EvenFrameIsReadable(w: nat, h: nat)
    requires w % 2 == 0 && h % 2 == 0
    ensures Readable(w, h, w * h + w * h / 4 + w * h / 4)
  {
    PlaneSize(w / 2, h / 2);
    forall x: nat, y: nat | x < w && y < h ensures ChromaAt(x, y, w) < w * h / 4 {
      IndexBound(x / 2, y / 2, w / 2, h / 2);
    }
  }

  // ---- the conversion ----

  /** The pixel at (x, y). */
  function PixelOf(src: seq<Byte>, w: nat, h: nat, x: nat, y: nat): (p: seq<Byte>)
    requires x < w && y < h && Readable(w, h, |src|)
    ensures |p| == 4
  {
    IndexBound(x, y, w, h);
    var c := ChromaAt(x, y, w);
    assert VPlane(w, h) + c < |src|;
    Rgba(src[Index(x, y, w)], src[UPlane(w, h) + c], src[VPlane(w, h) + c])
  }

  /** Red does not depend on the first chroma plane, and blue not on the second one. */
  lemma {:induction false} PlanesOfColours(s: seq<Byte>, t: seq<Byte>, w: nat, h: nat, x: nat, y: nat)
    requires x < w && y < h && Readable(w, h, |s|) && |s| == |t| && VPlane(w, h) <= |s|
    requires UPlane(w, h) <= VPlane(w, h) && s[..UPlane(w, h)] == t[..UPlane(w, h)]
    ensures s[VPlane(w, h)..] == t[VPlane(w, h)..] ==> PixelOf(s, w, h, x, y)[0] == PixelOf(t, w, h, x, y)[0]
    ensures PlanesApart(w, h) && s[..VPlane(w, h)] == t[..VPlane(w, h)] ==>
              PixelOf(s, w, h, x, y)[2] == PixelOf(t, w, h, x, y)[2]
  {
    var i, c, u, k := Index(x, y, w), ChromaAt(x, y, w), UPlane(w, h), VPlane(w, h);
    IndexBound(x, y, w, h);
    assert k + c < |s|;
    SameAt(s, t, i, u);
    if s[k..] == t[k..] {
      assert s[k + c] == s[k..][c] == t[k..][c] == t[k + c];
    }
    if PlanesApart(w, h) && s[..k] == t[..k] {
      assert u + c < k;
      SameAt(s, t, u + c, k);
    }
  }

  lemma {:induction false} SameAt(s: seq<Byte>, t: seq<Byte>, i: nat, n: nat)
    requires i < n <= |s| == |t| && s[..n] == t[..n]
    ensures s[i] == t[i]
  {
    assert s[i] == s[..n][i] == t[..n][i] == t[i];
  }

  /** The pixel at place i of the frame. */
  function PixelAt(src: seq<Byte>, w: nat, h: nat, i: nat): (p: seq<Byte>)
    requires i < w * h && Readable(w, h, |src|)
    ensures |p| == 4
  {
    SplitBound(i, w, h);
    PixelOf(src, w, h, i % w, i / w)
  }

  /** The four bytes at place i. */
  function Slot(s: seq<Byte>, i: nat): seq<Byte>
    requires 4 * i + 4 <= |s|
  {
    s[4 * i..4 * i + 4]
  }

  function WithPixel(s: seq<Byte>, i: nat, p: seq<Byte>): seq<Byte>
    requires 4 * i + 4 <= |s| && |p| == 4
  {
    s[4 * i := p[0]][4 * i + 1 := p[1]][4 * i + 2 := p[2]][4 * i + 3 := p[3]]
  }

  /** The first n pixels have been written, and nothing behind them has changed. */
  ghost predicate Converted(src: seq<Byte>, dst: seq<Byte>, was: seq<Byte>, w: nat, h: nat, n: nat)
    requires Readable(w, h, |src|)
  {
    && n <= w * h && |dst| == |was| && 4 * (w * h) <= |dst|
    && (forall i :: 0 <= i < n ==> Slot(dst, i) == PixelAt(src, w, h, i))
    && dst[4 * n..] == was[4 * n..]
  }

  lemma {:induction false} SlotsOf(s: seq<Byte>, i: nat, p: seq<Byte>, n: nat)
    requires 4 * i + 4 <= |s| && |p| == 4 && 4 * n + 4 <= |s|
    ensures Slot(WithPixel(s, i, p), n) == if n == i then p else Slot(s, n)
    ensures WithPixel(s, i, p)[4 * i + 4..] == s[4 * i + 4..]
  {
  }

  lemma {:induction false} WriteNextPixel(src: seq<Byte>, dst: seq<Byte>, was: seq<Byte>, w: nat, h: nat, n: nat)
    requires Readable(w, h, |src|) && n < w * h && Converted(src, dst, was, w, h, n)
    ensures Converted(src, WithPixel(dst, n, PixelAt(src, w, h, n)), was, w, h, n + 1)
  {
    var p := PixelAt(src, w, h, n);
    forall i | 0 <= i < n + 1 ensures Slot(WithPixel(dst, n, p), i) == PixelAt(src, w, h, i) {
      SlotsOf(dst, n, p, i);
    }
    SlotsOf(dst, n, p, n);
    assert dst[4 * n + 4..] == dst[4 * n..][4..] && was[4 * n + 4..] == was[4 * n..][4..];
  }

  /** Every pixel of the target is the one of its place; nothing behind them is touched. */
  method Yuv420ToArgb(src: array<Byte>, dst: array<Byte>, w: nat, h: nat)
    requires src != dst && Readable(w, h, src.Length) && 4 * (w * h) <= dst.Length
    modifies dst
    ensures forall i :: 0 <= i < w * h ==> Slot(dst[..], i) == PixelAt(src[..], w, h, i)
    ensures dst[4 * (w * h)..] == old(dst[4 * (w * h)..])
  {
    ghost var frame, was := src[..], dst[..];
    for y := 0 to h
      invariant src[..] == frame && Converted(frame, dst[..], was, w, h, Index(0, y, w))
    {
      ConvertRow(src, dst, w, h, y, was);
      assert Index(w, y, w) == Index(0, y + 1, w);
    }
    assert Index(0, h, w) == w * h;
    assert dst[..][4 * (w * h)..] == dst[4 * (w * h)..] && was[4 * (w * h)..] == old(dst[4 * (w * h)..]);
  }

  method ConvertRow(src: array<Byte>, dst: array<Byte>, w: nat, h: nat, y: nat, ghost was: seq<Byte>)
    requires src != dst && Readable(w, h, src.Length) && y < h
    requires Converted(src[..], dst[..], was, w, h, Index(0, y, w))
    modifies dst
    ensures Converted(src[..], dst[..], was, w, h, Index(w, y, w))
  {
    ghost var frame := src[..];
    for x := 0 to w
      invariant src[..] == frame && Converted(frame, dst[..], was, w, h, Index(x, y, w))
    {
      var p := ReadPixel(src, w, h, x, y);
      WriteNextAt(frame, dst[..], was, w, h, x, y);
      WritePixel(dst, x + y * w, p);
    }
  }

  lemma {:induction false} PixelAtIndex(src: seq<Byte>, w: nat, h: nat, x: nat, y: nat)
    requires x < w && y < h && Readable(w, h, |src|)
    ensures Index(x, y, w) < w * h && PixelAt(src, w, h, Index(x, y, w)) == PixelOf(src, w, h, x, y)
  {
    IndexBound(x, y, w, h);
    IndexSplits(x, y, w);
  }

  lemma {:induction false} WriteNextAt(src: seq<Byte>, dst: seq<Byte>, was: seq<Byte>, w: nat, h: nat, x: nat, y: nat)
    requires x < w && y < h && Readable(w, h, |src|) && Converted(src, dst, was, w, h, Index(x, y, w))
    ensures 4 * Index(x, y, w) + 4 <= |dst|
    ensures Converted(src, WithPixel(dst, Index(x, y, w), PixelOf(src, w, h, x, y)), was, w, h, Index(x + 1, y, w))
  {
    PixelAtIndex(src, w, h, x, y);
    WriteNextPixel(src, dst, was, w, h, Index(x, y, w));
  }

  /** The three reads. */
  method ReadPixel(src: array<Byte>, w: nat, h: nat, x: nat, y: nat) returns (p: seq<Byte>)
    requires x < w && y < h && Readable(w, h, src.Length)
    ensures p == PixelOf(src[..], w, h, x, y)
  {
    IndexBound(x, y, w, h);
    assert VPlane(w, h) + ChromaAt(x, y, w) < src.Length;
    var c := x / 2 + y / 2 * (w / 2);
    p := Rgba(src[x + y * w], src[w * h + c], src[w * h + w * h / 4 + c]);
  }

  /** The four assignments. */
  method WritePixel(dst: array<Byte>, i: nat, p: seq<Byte>)
    requires |p| == 4 && 4 * i + 4 <= dst.Length
    modifies dst
    ensures dst[..] == WithPixel(old(dst[..]), i, p)
  {
    var index := i * 4;
    dst[index] := p[0];
    dst[index + 1] := p[1];
    dst[index + 2] := p[2];
    dst[index + 3] := p[3];
  }
}
