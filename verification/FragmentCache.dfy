/** The cache in front of a stream's pad: downloaded buffers are queued until enough fragments are
    there, then the queue and everything behind it is pushed. */
module FragmentCache {
  import opened Common

  datatype Buf = Buf(id: nat, ts: Word, dur: Word)

  /** What the pad has been given. */
  datatype Item = Segment(start: nat, duration: nat) | Data(buf: Buf)

  datatype Cache = Cache(queue: seq<Buf>, fragCnt: nat, sentNs: bool, switchTs: Word, pad: seq<Item>)

  /** What the rest of the demuxer is while a buffer arrives: the number of fragments to cache, the
      segment to announce, whether this is the video stream in audio-only mode, whether the segment
      event is accepted, and which pushes of the call are. */
  datatype Context = Context(limit: nat, start: nat, duration: nat, dummy: bool, eventOk: bool, flow: nat -> bool)

  function Initial(): Cache {
    Cache([], 0, false, NONE, [])
  }

  /** 1/25 of a second, the duration given to dummy video frames. */
  const DUMMY_DURATION: Word := 40_000_000

  /** The drain loop, from push number k of the call on. It stops at the first push that fails; that
      buffer is gone and the rest stays queued. */
  function Drain(c: Cache, flow: nat -> bool, k: nat): (Cache, bool)
    decreases |c.queue|
  {
    if c.queue == [] then (c, true)
    else
      var b, rest := c.queue[0], c.(queue := c.queue[1..]);
      if !flow(k) then (rest, false) else Drain(rest.(pad := c.pad + [Data(b)]), flow, k + 1)
  }

  /** A frame of the dummy sender takes the place of the video that is not downloaded. */
  function Stamped(c: Cache, b: Buf, dummy: bool): Buf {
    if dummy then b.(ts := c.switchTs, dur := DUMMY_DURATION) else b
  }

  function NextSwitch(c: Cache, dummy: bool): Word {
    if dummy then (c.switchTs + DUMMY_DURATION) % U64 else c.switchTs
  }

  /** A new buffer. False if something was not accepted; the buffer is gone then. */
  function OnNewBuffer(c: Cache, b: Buf, x: Context): (Cache, bool) {
    if c.fragCnt < x.limit then (c.(queue := c.queue + [b]), true)
    else if !c.sentNs && !x.eventOk then (c, false)
    else
      var n := if c.sentNs then c else c.(sentNs := true, pad := c.pad + [Segment(x.start, x.duration)]);
      var (d, ok) := Drain(n, x.flow, 0);
      if !ok then (d, false)
      else
        var e := d.(switchTs := NextSwitch(d, x.dummy));
        if x.flow(|c.queue|) then (e.(pad := e.pad + [Data(Stamped(d, b, x.dummy))]), true) else (e, false)
  }

  /** The download of a fragment is complete. */
  function OnEos(c: Cache): Cache {
    c.(fragCnt := c.fragCnt + 1)
  }

  /** A flushing seek starts caching again; what is queued stays queued. */
  function OnFlushingSeek(c: Cache): Cache {
    c.(sentNs := false, fragCnt := 0)
  }

  /** The video download has been shut down in audio-only mode: dummy frames start at this time. */
  function OnSwitch(c: Cache, start: Word): Cache {
    c.(switchTs := start)
  }

  class DemuxStream {
    var queue: seq<Buf>
    var fragCnt: nat
    var sentNs: bool
    var switchTs: Word
    var pad: seq<Item>

    function Value(): Cache
      reads this
    {
      Cache(queue, fragCnt, sentNs, switchTs, pad)
    }

    constructor ()
      ensures Value() == Initial()
    {
      queue, fragCnt, sentNs, switchTs, pad := [], 0, false, NONE, [];
    }

    method NewBuffer(b: Buf, x: Context) returns (ok: bool)
      modifies this
      ensures (Value(), ok) == OnNewBuffer(old(Value()), b, x)
    {
      if fragCnt < x.limit {
        queue := queue + [b];
        return true;
      }
      if !sentNs {
        if !x.eventOk {
          return false;
        }
        pad := pad + [Segment(x.start, x.duration)];
        sentNs := true;
      }
      var k := 0;
      ghost var begun := Value();
      while queue != []
        invariant Drain(Value(), x.flow, k) == Drain(begun, x.flow, 0) && k + |queue| == |begun.queue|
        decreases |queue|
      {
        var cached := queue[0];
        queue := queue[1..];
        if !x.flow(k) {
          return false;
        }
        pad := pad + [Data(cached)];
        k := k + 1;
      }
      var inbuf := b;
      if x.dummy {
        inbuf := inbuf.(ts := switchTs, dur := DUMMY_DURATION);
        switchTs := (inbuf.ts + inbuf.dur) % U64;
      }
      ok := x.flow(k);
      if ok {
        pad := pad + [Data(inbuf)];
      }
    }

    method EndOfDownload()
      modifies this`fragCnt
      ensures Value() == OnEos(old(Value()))
    {
      fragCnt := fragCnt + 1;
    }

    method SwitchToDummies(start: Word)
      modifies this`switchTs
      ensures Value() == OnSwitch(old(Value()), start)
    {
      switchTs := start;
    }

    method FlushingSeek()
      modifies this`sentNs, this`fragCnt
      ensures Value() == OnFlushingSeek(old(Value()))
    {
      sentNs, fragCnt := false, 0;
    }
  }
}
