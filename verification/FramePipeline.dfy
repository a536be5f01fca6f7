/** Rotating and scaling a frame. A frame is a flat array of pixels, row by row; a pixel stands for
    its bytes, which are copied together. */
module FramePipeline {
  import opened Common

  // ---- places in a frame ----

  /** Column x of row y in rows of w pixels. */
  function Index(x: nat, y: nat, w: nat): nat {
    x + y * w
  }

  lemma {:induction false} Steps(w: nat, a: nat, b: nat)
    requires a < b
    ensures a * w + w <= b * w
  {
    if a + 1 < b {
      Steps(w, a, b - 1);
    }
    assert (b - 1) * w + w == b * w;
  }

  lemma {:induction false} IndexBound(x: nat, y: nat, w: nat, h: nat)
    requires x < w && y < h
    ensures Index(x, y, w) < w * h
  {
    Steps(w, y, h);
  }

  lemma {:induction false} IndexSplits(x: nat, y: nat, w: nat)
    requires x < w
    ensures Index(x, y, w) % w == x && Index(x, y, w) / w == y
  {
    var i := Index(x, y, w);
    var q, r := i / w, i % w;
    assert i == q * w + r;
    if q < y {
      Steps(w, q, y);
      assert false;
    }
    if y < q {
      Steps(w, y, q);
      assert false;
    }
  }

  lemma {:induction false} SplitBound(i: nat, w: nat, h: nat)
    requires i < w * h
    ensures w > 0 && i % w < w && i / w < h && Index(i % w, i / w, w) == i
  {
    assert w > 0;
    var q := i / w;
    assert i == q * w + i % w;
    if h < q {
      Steps(w, h, q);
      assert false;
    }
  }

  // ---- rotation ----

  datatype Angle = A0 | A90 | A180 | A270

  /** The width and height of the rotated frame. */
  function Width(a: Angle, w: nat, h: nat): nat {
    if a.A90? || a.A270? then h else w
  }

  function Height(a: Angle, w: nat, h: nat): nat {
    if a.A90? || a.A270? then w else h
  }

  function Inverse(a: Angle): Angle {
    match a case A0 => A0 case A90 => A270 case A180 => A180 case A270 => A90
  }

  /** Where pixel s of a frame belongs in the rotated frame: a quarter turn to the right takes the
      top row to the right column. */
  function Turned(a: Angle, w: nat, h: nat, s: nat): nat
    requires s < w * h
  {
    SplitBound(s, w, h);
    var x, y := s % w, s / w;
    match a
    case A0 => s
    case A90 => Index(h - 1 - y, x, h)
    case A180 => Index(w - 1 - x, h - 1 - y, w)
    case A270 => Index(y, w - 1 - x, h)
  }

  /** The place the code writes pixel (x, y) to. */
  function CodeIndex(a: Angle, w: nat, h: nat, x: nat, y: nat): nat
    requires x < w && y < h
  {
    match a
    case A0 => Index(x, y, w)
    case A90 => (h - y) + x * h
    case A180 => (w - x) + (h - y) * w
    case A270 => y + (w - x) * h
  }

  /** How far behind its place. */
  function Offset(a: Angle, w: nat, h: nat): nat {
    match a case A0 => 0 case A90 => 1 case A180 => w + 1 case A270 => h
  }

  lemma {:induction false} TurnedBound(a: Angle, w: nat, h: nat, s: nat)
    requires s < w * h
    ensures Turned(a, w, h, s) < w * h && Width(a, w, h) * Height(a, w, h) == w * h
  {
    SplitBound(s, w, h);
    TurnedBoundAt(a, w, h, s % w, s / w);
    assert h * w == w * h;
  }

  lemma {:induction false} TurnedBoundAt(a: Angle, w: nat, h: nat, x: nat, y: nat)
    requires x < w && y < h
    ensures a == A90 ==> Index(h - 1 - y, x, h) < h * w
    ensures a == A180 ==> Index(w - 1 - x, h - 1 - y, w) < w * h
    ensures a == A270 ==> Index(y, w - 1 - x, h) < h * w
  {
    match a {
      case A0 =>
      case A90 => IndexBound(h - 1 - y, x, h, w);
      case A180 => IndexBound(w - 1 - x, h - 1 - y, w, h);
      case A270 => IndexBound(y, w - 1 - x, h, w);
    }
  }

  /** The coordinates of a turned pixel. */
  lemma {:induction false} TurnedSplits(a: Angle, w: nat, h: nat, s: nat)
    requires s < w * h
    ensures s % w < w && s / w < h
    ensures var t, x, y := Turned(a, w, h, s), s % w, s / w;
            match a
            case A0 => t % w == x && t / w == y
            case A90 => t % h == h - 1 - y && t / h == x
            case A180 => t % w == w - 1 - x && t / w == h - 1 - y
            case A270 => t % h == y && t / h == w - 1 - x
  {
    SplitBound(s, w, h);
    TurnedSplitsAt(a, w, h, s % w, s / w);
  }

  lemma {:induction false} TurnedSplitsAt(a: Angle, w: nat, h: nat, x: nat, y: nat)
    requires x < w && y < h
    ensures match a
            case A0 => true
            case A90 => var t := Index(h - 1 - y, x, h); t % h == h - 1 - y && t / h == x
            case A180 => var t := Index(w - 1 - x, h - 1 - y, w); t % w == w - 1 - x && t / w == h - 1 - y
            case A270 => var t := Index(y, w - 1 - x, h); t % h == y && t / h == w - 1 - x
  {
    match a {
      case A0 =>
      case A90 => IndexSplits(h - 1 - y, x, h);
      case A180 => IndexSplits(w - 1 - x, h - 1 - y, w);
      case A270 => IndexSplits(y, w - 1 - x, h);
    }
  }

  /** Turning back. */
  lemma {:induction false} TurnBack(a: Angle, w: nat, h: nat, s: nat)
    requires s < w * h
    ensures var t := Turned(a, w, h, s);
            t < Width(a, w, h) * Height(a, w, h) && Turned(Inverse(a), Width(a, w, h), Height(a, w, h), t) == s
  {
    TurnedBound(a, w, h, s);
    TurnedSplits(a, w, h, s);
    SplitBound(s, w, h);
  }

  /** Two quarter turns are a half turn, and a half and a quarter turn are three quarters. */
  lemma {:induction false} TurnsAdd(w: nat, h: nat, s: nat)
    requires s < w * h
    ensures Turned(A90, w, h, s) < h * w && Turned(A90, h, w, Turned(A90, w, h, s)) == Turned(A180, w, h, s)
    ensures Turned(A180, w, h, s) < w * h && Turned(A90, w, h, Turned(A180, w, h, s)) == Turned(A270, w, h, s)
  {
    TurnedBound(A90, w, h, s);
    TurnedBound(A180, w, h, s);
    SplitBound(s, w, h);
    IndexSplits(h - 1 - s / w, s % w, h);
    IndexSplits(w - 1 - s % w, h - 1 - s / w, w);
  }

  /** The code writes every pixel the same distance behind its place. */
  lemma {:induction false} CodeIndexIsOffset(a: Angle, w: nat, h: nat, x: nat, y: nat)
    requires x < w && y < h
    ensures Index(x, y, w) < w * h
    ensures CodeIndex(a, w, h, x, y) == Turned(a, w, h, Index(x, y, w)) + Offset(a, w, h)
  {
    IndexBound(x, y, w, h);
    IndexSplits(x, y, w);
    assert (h - 1 - y) * w + w == (h - y) * w;
    assert (w - 1 - x) * h + h == (w - x) * h;
  }

  /** The target has room for the frame behind the offset. */
  predicate Room(a: Angle, w: nat, h: nat, length: nat) {
    length >= w * h + Offset(a, w, h)
  }

  lemma {:induction false} WrittenInRoom(a: Angle, w: nat, h: nat, x: nat, y: nat)
    requires x < w && y < h
    ensures CodeIndex(a, w, h, x, y) < w * h + Offset(a, w, h) && Index(x, y, w) < w * h
  {
    CodeIndexIsOffset(a, w, h, x, y);
    TurnedBound(a, w, h, Index(x, y, w));
  }

  /** It has to have that much more room than the frame itself. */
  lemma {:induction false} RoomIff(a: Angle, w: nat, h: nat, length: nat)
    requires w > 0 && h > 0
    ensures (forall x: nat, y: nat :: x < w && y < h ==> CodeIndex(a, w, h, x, y) < length) <==> Room(a, w, h, length)
  {
    var top := w * h + Offset(a, w, h);
    forall x: nat, y: nat | x < w && y < h ensures CodeIndex(a, w, h, x, y) < top {
      WrittenInRoom(a, w, h, x, y);
    }
    var x, y := LastWritten(a, w, h);
    assert CodeIndex(a, w, h, x, y) == top - 1;
  }

  lemma {:induction false} LastWritten(a: Angle, w: nat, h: nat) returns (x: nat, y: nat)
    requires w > 0 && h > 0
    ensures x < w && y < h && CodeIndex(a, w, h, x, y) == w * h + Offset(a, w, h) - 1
  {
    Steps(w, 0, h);
    x, y := WrittenAt(a, w, h, w * h - 1);
  }

  lemma {:induction false} WrittenAt(a: Angle, w: nat, h: nat, t: nat) returns (x: nat, y: nat)
    requires t < w * h
    ensures x < w && y < h && CodeIndex(a, w, h, x, y) == t + Offset(a, w, h)
  {
    var s := SourceOf(a, w, h, t);
    WrittenTo(a, w, h, s);
    x, y := s % w, s / w;
  }

  /** The sink's own target is as large as the frame: every turn writes behind it. */
  lemma {:induction false} TurnLeavesFrame(a: Angle, w: nat, h: nat)
    requires w > 0 && h > 0 && !a.A0?
    ensures exists x: nat, y: nat :: x < w && y < h && CodeIndex(a, w, h, x, y) >= w * h
  {
    RoomIff(a, w, h, w * h);
  }

  lemma {:induction false} SourceOf(a: Angle, w: nat, h: nat, t: nat) returns (s: nat)
    requires t < w * h
    ensures s < w * h && Turned(a, w, h, s) == t
  {
    SourceTurned(a, w, h, t);
    s := Source(a, w, h, t);
  }

  lemma {:induction false} WrittenTo(a: Angle, w: nat, h: nat, s: nat)
    requires s < w * h
    ensures w > 0 && s % w < w && s / w < h
    ensures CodeIndex(a, w, h, s % w, s / w) == Turned(a, w, h, s) + Offset(a, w, h)
  {
    SplitBound(s, w, h);
    CodeIndexIsOffset(a, w, h, s % w, s / w);
  }

  /** The rotated frame. */
  function Rotated<T>(a: Angle, w: nat, h: nat, img: seq<T>): (r: seq<T>)
    requires |img| == w * h
    ensures |r| == w * h
  {
    seq(w * h, t requires 0 <= t < w * h => img[Source(a, w, h, t)])
  }

  /** Where pixel t of the rotated frame comes from. */
  function Source(a: Angle, w: nat, h: nat, t: nat): (s: nat)
    requires t < w * h
    ensures s < w * h
  {
    TurnedBound(a, w, h, t);
    TurnedBound(Inverse(a), Width(a, w, h), Height(a, w, h), t);
    Turned(Inverse(a), Width(a, w, h), Height(a, w, h), t)
  }

  /** Source and Turned undo each other, so every pixel comes to exactly one place. */
  lemma {:induction false} SourceTurned(a: Angle, w: nat, h: nat, i: nat)
    requires i < w * h
    ensures Turned(a, w, h, i) < w * h && Source(a, w, h, Turned(a, w, h, i)) == i
    ensures Source(a, w, h, i) < w * h && Turned(a, w, h, Source(a, w, h, i)) == i
  {
    TurnedBound(a, w, h, i);
    TurnBack(a, w, h, i);
    TurnBack(Inverse(a), Width(a, w, h), Height(a, w, h), i);
  }

  /** Rotating the rotated frame back restores the frame. */
  lemma {:induction false} RotateBack<T>(a: Angle, w: nat, h: nat, img: seq<T>)
    requires |img| == w * h
    ensures Width(a, w, h) * Height(a, w, h) == w * h
    ensures Rotated(Inverse(a), Width(a, w, h), Height(a, w, h), Rotated(a, w, h, img)) == img
  {
    var w', h' := Width(a, w, h), Height(a, w, h);
    assert w' * h' == w * h;
    var r := Rotated(a, w, h, img);
    var back := Rotated(Inverse(a), w', h', r);
    forall i | 0 <= i < w * h ensures back[i] == img[i] {
      SourceTurned(a, w, h, i);
      assert Source(Inverse(a), w', h', i) == Turned(a, w, h, i);
    }
  }

  /** The first n pixels have been written, everything else is as it was. */
  ghost predicate Written<T(!new)>(a: Angle, w: nat, h: nat, img: seq<T>, dst: seq<T>, was: seq<T>, n: nat)
    requires |img| == w * h && |dst| == |was| && Room(a, w, h, |dst|)
  {
    WrittenFrom(Sources(a, w, h), Offset(a, w, h), img, dst, was, n)
  }

  function Sources(a: Angle, w: nat, h: nat): (sources: seq<nat>)
    ensures |sources| == w * h && forall t :: 0 <= t < w * h ==> sources[t] == Source(a, w, h, t) < w * h
  {
    seq(w * h, t requires 0 <= t < w * h => Source(a, w, h, t))
  }

  ghost predicate WrittenFrom<T(!new)>(sources: seq<nat>, o: nat, img: seq<T>, dst: seq<T>, was: seq<T>, n: nat)
    requires |img| == |sources| && (forall t :: 0 <= t < |sources| ==> sources[t] < |img|) && |dst| == |was|
  {
    forall k :: 0 <= k < |dst| ==>
      dst[k] == if o <= k < o + |img| && sources[k - o] < n then img[sources[k - o]] else was[k]
  }

  lemma {:induction false} WriteOneFrom<T(!new)>(sources: seq<nat>, o: nat, img: seq<T>, dst: seq<T>, was: seq<T>,
                                                 n: nat, d: nat)
    requires |img| == |sources| && (forall t :: 0 <= t < |sources| ==> sources[t] < |img|) && |dst| == |was|
    requires d < |img| && o + |img| <= |dst| && n < |img|
    requires forall t :: 0 <= t < |sources| ==> (sources[t] == n <==> t == d)
    requires WrittenFrom(sources, o, img, dst, was, n)
    ensures WrittenFrom(sources, o, img, dst[d + o := img[n]], was, n + 1)
  {
  }

  lemma {:induction false} WriteOne<T(!new)>(a: Angle, w: nat, h: nat, img: seq<T>, dst: seq<T>, was: seq<T>, n: nat)
    requires |img| == w * h && |dst| == |was| && Room(a, w, h, |dst|) && n < w * h
    requires Written(a, w, h, img, dst, was, n)
    ensures Turned(a, w, h, n) < w * h
    ensures Written(a, w, h, img, dst[Turned(a, w, h, n) + Offset(a, w, h) := img[n]], was, n + 1)
  {
    SourceTurned(a, w, h, n);
    var sources, d := Sources(a, w, h), Turned(a, w, h, n);
    forall t | 0 <= t < |sources| ensures sources[t] == n <==> t == d {
      SourceTurned(a, w, h, t);
    }
    WriteOneFrom(sources, Offset(a, w, h), img, dst, was, n, d);
  }

  /** What one round of the inner loop does. */
  lemma {:induction false} WriteNext<T(!new)>(a: Angle, w: nat, h: nat, img: seq<T>, dst: seq<T>, was: seq<T>,
                                              x: nat, y: nat)
    requires |img| == w * h && |dst| == |was| && Room(a, w, h, |dst|) && x < w && y < h
    requires Written(a, w, h, img, dst, was, Index(x, y, w))
    ensures CodeIndex(a, w, h, x, y) < |dst| && Index(x, y, w) < w * h
    ensures Written(a, w, h, img, dst[CodeIndex(a, w, h, x, y) := img[Index(x, y, w)]], was, Index(x + 1, y, w))
  {
    CodeIndexIsOffset(a, w, h, x, y);
    WriteOne(a, w, h, img, dst, was, Index(x, y, w));
  }

  /** The rotated frame stands behind the offset, everything else is as it was. */
  ghost predicate Placed<T(!new)>(a: Angle, w: nat, h: nat, img: seq<T>, dst: seq<T>, was: seq<T>)
    requires |img| == w * h && |dst| == |was| && Room(a, w, h, |dst|)
  {
    var o := Offset(a, w, h);
    && dst[o..][..w * h] == Rotated(a, w, h, img)
    && dst[..o] == was[..o]
    && dst[o + w * h..] == was[o + w * h..]
  }

  lemma {:induction false} AllWritten<T(!new)>(a: Angle, w: nat, h: nat, img: seq<T>, dst: seq<T>, was: seq<T>)
    requires |img| == w * h && |dst| == |was| && Room(a, w, h, |dst|)
    requires Written(a, w, h, img, dst, was, w * h)
    ensures Placed(a, w, h, img, dst, was)
  {
    var o := Offset(a, w, h);
    var window := dst[o..][..w * h];
    forall t | 0 <= t < w * h ensures window[t] == Rotated(a, w, h, img)[t] {
      assert window[t] == dst[o + t] && o + t - o == t;
    }
  }

  lemma {:induction false} NoTurn<T>(w: nat, h: nat, img: seq<T>)
    requires |img| == w * h
    ensures Rotated(A0, w, h, img) == img
  {
  }

  /** The three cases of the loop body. */
  method Place(a: Angle, w: nat, h: nat, x: nat, y: nat) returns (dstIdx: nat)
    requires x < w && y < h && !a.A0?
    ensures dstIdx == CodeIndex(a, w, h, x, y)
  {
    var newX, newY, dstWidth;
    if a.A90? {
      newX, newY, dstWidth := h - y, x, h;
    } else if a.A180? {
      newX, newY, dstWidth := w - x, h - y, w;
    } else {
      newX, newY, dstWidth := y, w - x, h;
    }
    dstIdx := newX + newY * dstWidth;
  }

  /** The inner loop: one row of the source. False where the code writes behind the target. */
  method RotateRow<T(!new)>(src: array<T>, dst: array<T>, w: nat, h: nat, a: Angle, y: nat, ghost was: seq<T>)
    returns (inside: bool)
    requires src != dst && src.Length >= w * h && dst.Length == |was| && y < h && !a.A0?
    requires Room(a, w, h, dst.Length) ==> Written(a, w, h, src[..w * h], dst[..], was, Index(0, y, w))
    modifies dst
    ensures inside <==> forall x: nat :: x < w ==> CodeIndex(a, w, h, x, y) < dst.Length
    ensures Room(a, w, h, dst.Length) ==> inside && Written(a, w, h, src[..w * h], dst[..], was, Index(w, y, w))
    ensures w == 0 ==> dst[..] == old(dst[..])
  {
    ghost var img := src[..w * h];
    for x := 0 to w
      invariant src[..w * h] == img
      invariant Room(a, w, h, dst.Length) ==> Written(a, w, h, img, dst[..], was, Index(x, y, w))
      invariant forall i: nat :: i < x ==> CodeIndex(a, w, h, i, y) < dst.Length
      invariant w == 0 ==> dst[..] == old(dst[..])
    {
      var srcIdx := x + y * w;
      var dstIdx := Place(a, w, h, x, y);
      WrittenInRoom(a, w, h, x, y);
      if dstIdx >= dst.Length {
        return false;
      }
      if Room(a, w, h, dst.Length) {
        WriteNext(a, w, h, img, dst[..], was, x, y);
      }
      assert src[srcIdx] == img[srcIdx];
      ghost var next := dst[..][dstIdx := img[srcIdx]];
      dst[dstIdx] := src[srcIdx];
      assert dst[..] == next;
    }
    inside := true;
  }

  /** `memcpy` */
  method CopyFrame<T>(src: array<T>, dst: array<T>, n: nat)
    requires src != dst && n <= src.Length && n <= dst.Length
    modifies dst
    ensures dst[..n] == src[..n] && dst[n..] == old(dst[n..])
  {
    for i := 0 to n
      invariant dst[..i] == src[..i] && dst[n..] == old(dst[n..])
    {
      dst[i] := src[i];
    }
  }

  /** Every write is inside the target if and only if it has room for the frame and the offset. Then
      the rotated frame stands behind the offset, and the rest of the target is left as it was. */
  method RotatePure<T(!new)>(src: array<T>, dst: array<T>, w: nat, h: nat, a: Angle) returns (inside: bool)
    requires src != dst && src.Length >= w * h
    modifies dst
    ensures inside <==> w * h == 0 || Room(a, w, h, dst.Length)
    ensures w * h == 0 ==> dst[..] == old(dst[..])
    ensures Room(a, w, h, dst.Length) ==> Placed(a, w, h, src[..w * h], dst[..], old(dst[..]))
  {
    if a.A0? {
      inside := dst.Length >= w * h;
      if inside {
        ghost var was := dst[..];
        CopyFrame(src, dst, w * h);
        NoTurn(w, h, src[..w * h]);
        assert dst[..][0..][..w * h] == dst[..w * h];
        assert dst[..][w * h..] == dst[w * h..] && was[w * h..] == old(dst[w * h..]);
      }
    } else {
      inside := TurnRows(src, dst, w, h, a);
    }
  }

  /** The loops over rows and columns. */
  method TurnRows<T(!new)>(src: array<T>, dst: array<T>, w: nat, h: nat, a: Angle) returns (inside: bool)
    requires src != dst && src.Length >= w * h && !a.A0?
    modifies dst
    ensures inside <==> w * h == 0 || Room(a, w, h, dst.Length)
    ensures w * h == 0 ==> dst[..] == old(dst[..])
    ensures Room(a, w, h, dst.Length) ==> Placed(a, w, h, src[..w * h], dst[..], old(dst[..]))
  {
    var n := w * h;
    ghost var img, was := src[..n], dst[..];
    for y := 0 to h
      invariant src[..n] == img && (n == 0 ==> dst[..] == was)
      invariant Room(a, w, h, dst.Length) ==> Written(a, w, h, img, dst[..], was, Index(0, y, w))
      invariant forall i: nat, j: nat :: i < w && j < y ==> CodeIndex(a, w, h, i, j) < dst.Length
    {
      inside := RotateRow(src, dst, w, h, a, y, was);
      if !inside {
        ghost var x: nat :| x < w && CodeIndex(a, w, h, x, y) >= dst.Length;
        IndexBound(x, y, w, h);
        return;
      }
      assert w > 0 ==> n > 0 by {
        Steps(w, 0, h);
      }
      assert Index(0, y + 1, w) == Index(w, y, w);
    }
    inside := true;
    assert Index(0, h, w) == n;
    if w > 0 && h > 0 {
      RoomIff(a, w, h, dst.Length);
    }
    if Room(a, w, h, dst.Length) {
      AllWritten(a, w, h, img, dst[..], was);
    }
  }

  /** The angle as it is given, in degrees. */
  function AngleOf(degrees: int): Option<Angle> {
    if degrees == 0 then Some(A0)
    else if degrees == 90 then Some(A90)
    else if degrees == 180 then Some(A180)
    else if degrees == 270 then Some(A270)
    else None
  }

  /** What the degrees mean: 90 takes the top row to the right column, from top to bottom; 180 turns the
      frame upside down; 270 takes the top row to the left column, from bottom to top. */
  lemma {:induction false} DegreesPlace<T>(degrees: int, w: nat, h: nat, img: seq<T>, x: nat, y: nat)
    requires AngleOf(degrees).Some? && |img| == w * h && x < w && y < h
    ensures degrees == 0 || degrees == 90 || degrees == 180 || degrees == 270
    ensures var to := if degrees == 0 then x + y * w
                      else if degrees == 90 then (h - 1 - y) + x * h
                      else if degrees == 180 then (w - 1 - x) + (h - 1 - y) * w
                      else y + (w - 1 - x) * h;
            && 0 <= to < w * h && 0 <= x + y * w < w * h
            && Rotated(AngleOf(degrees).value, w, h, img)[to] == img[x + y * w]
  {
    var a := AngleOf(degrees).value;
    IndexBound(x, y, w, h);
    IndexSplits(x, y, w);
    SourceTurned(a, w, h, Index(x, y, w));
  }

  /** Other angles leave the target as it is. */
  method RotateByDegrees<T(!new)>(src: array<T>, dst: array<T>, w: nat, h: nat, degrees: int) returns (inside: bool)
    requires src != dst && src.Length >= w * h
    modifies dst
    ensures match AngleOf(degrees)
            case None => inside && dst[..] == old(dst[..])
            case Some(a) =>
              && (inside <==> w * h == 0 || Room(a, w, h, dst.Length))
              && (w * h == 0 ==> dst[..] == old(dst[..]))
              && (Room(a, w, h, dst.Length) ==> Placed(a, w, h, src[..w * h], dst[..], old(dst[..])))
  {
    var a := AngleOf(degrees);
    inside := true;
    if a.Some? {
      inside := RotatePure(src, dst, w, h, a.value);
    }
  }

  // ---- scaling ----

  /** A place in 16.16 fixed point. From 32768 on the shift leaves the range of an int. */
  function Shifted(x: nat): (r: nat)
    requires x < 32768
    ensures r < U32 / 2
  {
    x * 65536
  }

  /** The 16.16 factor between two sizes. */
  function Factor(dst: nat, src: nat): nat
    requires src > 0 && dst < 32768
  {
    Shifted(dst) / src
  }

  /** The place in the source that place x of the target is taken from. */
  function Scaled(x: nat, dst: nat, src: nat): nat
    requires src > 0 && x < 32768 && dst < 32768 && Factor(dst, src) > 0
  {
    Shifted(x) / Factor(dst, src)
  }

  lemma {:induction false} FactorBounds(dst: nat, src: nat)
    requires src > 0 && dst < 32768
    ensures Factor(dst, src) * src <= dst * 65536 < Factor(dst, src) * src + src
    ensures src <= 65536 && dst > 0 ==> Factor(dst, src) > 0
  {
    var f := Factor(dst, src);
    assert dst * 65536 == f * src + dst * 65536 % src;
  }

  lemma {:induction false} Quotient(a: nat, d: nat, q: nat)
    requires d > 0
    ensures a / d < q <==> a < q * d
  {
    var p := a / d;
    assert p * d <= a < p * d + d;
    if p < q {
      Steps(d, p, q);
    } else if q < p {
      Steps(d, q, p);
    }
  }

  lemma {:induction false} QuotientBounds(a: nat, d: nat)
    requires d > 0
    ensures a / d * d <= a < a / d * d + d
  {
  }

  /** For sources of at most 65536 places the place is inside the source. */
  lemma {:induction false} ScaledInRange(x: nat, dst: nat, src: nat)
    requires 0 < src <= 65536 && x < dst < 32768
    ensures Factor(dst, src) > 0 && Scaled(x, dst, src) < src
  {
    var f := Factor(dst, src);
    FactorBounds(dst, src);
    QuotientBelow(Shifted(x), f, src, f * src);
  }

  lemma {:induction false} QuotientBelow(a: nat, d: nat, q: nat, product: nat)
    requires d > 0 && product == d * q && a < product
    ensures a / d < q
  {
    Quotient(a, d, q);
  }

  /** The place is the 16.16 quotient of the place and the factor, both rounded down. */
  lemma {:induction false} ScaledIsFloor(x: nat, dst: nat, src: nat)
    requires 0 < src <= 65536 && x < 32768 && 0 < dst < 32768
    ensures exists f: nat :: f > 0 && f * src <= dst * 65536 < (f + 1) * src
                             && Scaled(x, dst, src) * f <= x * 65536 < (Scaled(x, dst, src) + 1) * f
  {
    var f := Factor(dst, src);
    FactorBounds(dst, src);
    QuotientBounds(x * 65536, f);
    assert f * src + src == (f + 1) * src && Scaled(x, dst, src) * f + f == (Scaled(x, dst, src) + 1) * f;
  }

  /** Places keep their order, and equal sizes change nothing. */
  lemma {:induction false} ScaledKeepsOrder(x: nat, y: nat, dst: nat, src: nat)
    requires 0 < src <= 65536 && x <= y < 32768 && 0 < dst < 32768
    ensures Factor(dst, src) > 0 && Scaled(x, dst, src) <= Scaled(y, dst, src)
    ensures dst == src ==> Scaled(x, dst, src) == x
  {
    FactorBounds(dst, src);
    DivKeepsOrder(x * 65536, y * 65536, Factor(dst, src));
    if dst == src {
      Quotient(dst * 65536, dst, 65536);
      Quotient(dst * 65536, dst, 65537);
      assert Factor(dst, src) == 65536;
    }
  }

  /** While the factor is at least the source size, the place is the exact one or the next. */
  lemma {:induction false} ScaledIsClose(x: nat, dst: nat, src: nat)
    requires src > 0 && x < dst < 32768 && Factor(dst, src) >= src
    ensures x * src / dst <= Scaled(x, dst, src) <= x * src / dst + 1
  {
    var f, e := Factor(dst, src), x * src / dst;
    FactorBounds(dst, src);
    QuotientBounds(x * src, dst);
    LowerEnd(x, dst, src, f, e);
    Quotient(x * 65536, f, e);
    UpperEnd(x, dst, src, f, e);
    Quotient(x * 65536, f, e + 2);
  }

  lemma {:induction false} LowerEnd(x: nat, dst: nat, src: nat, f: nat, e: nat)
    requires src > 0 && dst > 0 && e * dst <= x * src && f * src <= dst * 65536
    ensures e * f <= x * 65536
  {
    var m := dst * src;
    calc {
      (e * f) * m;
      (e * dst) * (f * src);
    <= { MulKeepsOrder(f * src, e * dst, x * src); }
      (x * src) * (f * src);
    <= { MulKeepsOrder(x * src, f * src, dst * 65536); }
      (x * src) * (dst * 65536);
      (x * 65536) * m;
    }
    if e * f > x * 65536 {
      Steps(m, x * 65536, e * f);
      assert false;
    }
  }

  lemma {:induction false} UpperEnd(x: nat, dst: nat, src: nat, f: nat, e: nat)
    requires src > 0 && x < dst && f >= src && x * src < e * dst + dst && dst * 65536 < f * src + src
    ensures x * 65536 < (e + 2) * f
  {
    var a, b := x * 65536, (e + 2) * f;
    assert x * (dst * 65536) <= x * (f * src + src) by {
      MulKeepsOrder(x, dst * 65536, f * src + src);
    }
    assert a * dst == x * (dst * 65536);
    assert f * (x * src + 1) <= f * (e * dst + dst) by {
      MulKeepsOrder(f, x * src + 1, e * dst + dst);
    }
    assert src * x <= f * dst by {
      MulKeepsOrder(src, x, dst);
      MulKeepsOrder(dst, src, f);
    }
    UpperSides(x, dst, src, f, e);
    if b < a {
      Steps(dst, b, a);
      assert false;
    }
  }

  lemma {:induction false} UpperSides(x: nat, dst: nat, src: nat, f: nat, e: nat)
    ensures ((e + 2) * f) * dst == f * (e * dst + dst) + f * dst
    ensures x * (f * src + src) + f == f * (x * src + 1) + src * x
  {
    assert ((e + 2) * f) * dst == f * ((e + 2) * dst);
    assert (e + 2) * dst == e * dst + dst + dst;
    assert x * (f * src) == f * (x * src);
  }

  /** The sizes for which the arithmetic of the scaler is defined. */
  predicate Sizes(sw: nat, sh: nat, dw: nat, dh: nat) {
    0 < sw <= 65536 && 0 < sh <= 65536 && dw < 32768 && dh < 32768
  }

  /** The scaled frame. */
  function Resized<T>(img: seq<T>, sw: nat, sh: nat, dw: nat, dh: nat): (r: seq<T>)
    requires |img| == sw * sh && Sizes(sw, sh, dw, dh)
    ensures |r| == dw * dh
  {
    seq(dw * dh, t requires 0 <= t < dw * dh => img[Taken(t, sw, sh, dw, dh)])
  }

  /** Where pixel t of the scaled frame is taken from. */
  function Taken(t: nat, sw: nat, sh: nat, dw: nat, dh: nat): (s: nat)
    requires t < dw * dh && Sizes(sw, sh, dw, dh)
    ensures s < sw * sh
  {
    SplitBound(t, dw, dh);
    ScaledInRange(t % dw, dw, sw);
    ScaledInRange(t / dw, dh, sh);
    IndexBound(Scaled(t % dw, dw, sw), Scaled(t / dw, dh, sh), sw, sh);
    Index(Scaled(t % dw, dw, sw), Scaled(t / dw, dh, sh), sw)
  }

  lemma {:induction false} TakenAt(x: nat, y: nat, sw: nat, sh: nat, dw: nat, dh: nat)
    requires x < dw && y < dh && Sizes(sw, sh, dw, dh)
    ensures Index(x, y, dw) < dw * dh && Factor(dw, sw) > 0 && Factor(dh, sh) > 0
    ensures Taken(Index(x, y, dw), sw, sh, dw, dh) == Index(Scaled(x, dw, sw), Scaled(y, dh, sh), sw)
  {
    IndexBound(x, y, dw, dh);
    IndexSplits(x, y, dw);
    ScaledInRange(x, dw, sw);
    ScaledInRange(y, dh, sh);
  }

  /** Scaling to the same size changes nothing. */
  lemma {:induction false} ResizeToSame<T>(img: seq<T>, w: nat, h: nat)
    requires |img| == w * h && 0 < w < 32768 && 0 < h < 32768
    ensures Resized(img, w, h, w, h) == img
  {
    forall t | 0 <= t < w * h ensures Taken(t, w, h, w, h) == t {
      TakenFromSame(t, w, h);
    }
  }

  lemma {:induction false} TakenFromSame(t: nat, w: nat, h: nat)
    requires t < w * h && 0 < w < 32768 && 0 < h < 32768
    ensures Taken(t, w, h, w, h) == t
  {
    SplitBound(t, w, h);
    ScaledKeepsOrder(t % w, t % w, w, w);
    ScaledKeepsOrder(t / w, t / w, h, h);
  }

  method ResizeRow<T>(src: array<T>, dst: array<T>, sw: nat, sh: nat, dw: nat, dh: nat, y: nat)
    requires src != dst && src.Length >= sw * sh && dst.Length >= dw * dh && y < dh
    requires Sizes(sw, sh, dw, dh)
    requires Index(0, y, dw) <= dw * dh
    requires dst[..Index(0, y, dw)] == Resized(src[..sw * sh], sw, sh, dw, dh)[..Index(0, y, dw)]
    modifies dst
    ensures Index(dw, y, dw) <= dw * dh
    ensures dst[..Index(dw, y, dw)] == Resized(src[..sw * sh], sw, sh, dw, dh)[..Index(dw, y, dw)]
    ensures dst[dw * dh..] == old(dst[dw * dh..])
  {
    ghost var img := src[..sw * sh];
    ghost var want := Resized(img, sw, sh, dw, dh);
    Steps(dw, y, dh);
    for x := 0 to dw
      invariant src[..sw * sh] == img
      invariant dst[..Index(x, y, dw)] == want[..Index(x, y, dw)]
      invariant dst[dw * dh..] == old(dst[dw * dh..])
    {
      TakenAt(x, y, sw, sh, dw, dh);
      var orgX, orgY := Shifted(x) / Factor(dw, sw), Shifted(y) / Factor(dh, sh);
      var srcIndex, dstIndex := orgX + orgY * sw, x + y * dw;
      assert srcIndex == Taken(dstIndex, sw, sh, dw, dh);
      assert want[dstIndex] == img[srcIndex] == src[srcIndex];
      dst[dstIndex] := src[srcIndex];
      assert dst[..dstIndex + 1] == dst[..dstIndex] + [dst[dstIndex]];
    }
  }

  method ResizePure<T>(src: array<T>, dst: array<T>, sw: nat, sh: nat, dw: nat, dh: nat)
    requires src != dst && src.Length >= sw * sh && dst.Length >= dw * dh
    requires Sizes(sw, sh, dw, dh)
    modifies dst
    ensures dst[..dw * dh] == Resized(src[..sw * sh], sw, sh, dw, dh)
    ensures dst[dw * dh..] == old(dst[dw * dh..])
  {
    ghost var img := src[..sw * sh];
    for y := 0 to dh
      invariant src[..sw * sh] == img && Index(0, y, dw) <= dw * dh
      invariant dst[..Index(0, y, dw)] == Resized(img, sw, sh, dw, dh)[..Index(0, y, dw)]
      invariant dst[dw * dh..] == old(dst[dw * dh..])
    {
      ResizeRow(src, dst, sw, sh, dw, dh, y);
      assert Index(0, y + 1, dw) == Index(dw, y, dw);
    }
    assert Index(0, dh, dw) == dw * dh;
  }
}
