/** The audio trickplay element during reverse playback: buffers are queued until the next
    discontinuity, and then the queue is emptied from one of its ends. */
module ReverseQueue {
  import opened Common

  /** What is kept of a buffer: its time stamp, duration and size, and its DISCONT flag. */
  datatype Buf = Buf(ts: Word, dur: Word, size: nat, discont: bool)

  /** The fields of the element, and everything it has pushed downstream. */
  datatype State = State(queue: seq<Buf>, isReversed: bool, headPrev: Word, tailPrev: Word, out: seq<Buf>)

  /** Which of the pushes of one call the next element accepts. */
  type Flow = nat -> bool

  function Initial(): State {
    State([], false, NONE, NONE, [])
  }

  // ---- emptying the queue ----

  /** The buffer that leaves the queue next: the oldest if the decoder has reversed the order
      already, otherwise the newest. */
  function Popped(s: State): Buf
    requires s.queue != []
  {
    if s.isReversed then s.queue[0] else s.queue[|s.queue| - 1]
  }

  function Pop(s: State): State
    requires s.queue != []
  {
    s.(queue := if s.isReversed then s.queue[1..] else s.queue[..|s.queue| - 1])
  }

  /** The cut-off: buffers of the segment that was played before are dropped. */
  predicate Passes(s: State, b: Buf) {
    b.ts < (if s.isReversed then s.tailPrev else s.headPrev)
  }

  /** Emptying the queue at a discontinuity, from push number k of the call on. It stops at the
      first push that fails; that buffer is lost and the rest stays queued. */
  function Drain(s: State, flow: Flow, k: nat): (r: (State, bool))
    decreases |s.queue|
  {
    if s.queue == [] then (s, true)
    else
      var b := Popped(s);
      if !Passes(s, b) then Drain(Pop(s), flow, k)
      else if !flow(k) then (Pop(s), false)
      else Drain(Pop(s).(out := s.out + [b]), flow, k + 1)
  }

  /** Emptying the queue at a segment event or at the end of the stream: no cut-off, and a push that
      fails is only reported. */
  function DrainAll(s: State, flow: Flow, k: nat): State
    decreases |s.queue|
  {
    if s.queue == [] then s
    else DrainAll(Pop(s).(out := if flow(k) then s.out + [Popped(s)] else s.out), flow, k + 1)
  }

  // ---- the calls ----

  /** A buffer at a negative rate. False if a push failed; the buffer is dropped then. */
  function Chain(s: State, b: Buf, flow: Flow): (State, bool) {
    if !b.discont then (s.(queue := s.queue + [b]), true)
    else
      var n := |s.queue|;
      var (head, tail) := if n == 0 then (NONE, NONE) else (s.queue[0].ts, s.queue[n - 1].ts);
      var (d, ok) := Drain(if n == 0 then s else s.(isReversed := head > tail), flow, 0);
      if ok then (d.(headPrev := head, tailPrev := tail, queue := d.queue + [b]), true) else (d, false)
  }

  class AudioTp {
    var queue: seq<Buf>
    var isReversed: bool
    var headPrev: Word
    var tailPrev: Word
    var out: seq<Buf>

    function Value(): State
      reads this
    {
      State(queue, isReversed, headPrev, tailPrev, out)
    }

    constructor ()
      ensures Value() == Initial()
    {
      queue, isReversed, headPrev, tailPrev, out := [], false, NONE, NONE, [];
    }

    /** `gst_audiotp_chain`; at a rate of zero or more the buffer is passed on as it is. */
    method ChainBuffer(forward: bool, b: Buf, flow: Flow) returns (ok: bool)
      modifies this
      ensures if forward
              then ok == flow(0) && Value() == old(Value()).(out := if ok then old(out) + [b] else old(out))
              else (Value(), ok) == Chain(old(Value()), b, flow)
    {
      if forward {
        ok := flow(0);
        if ok {
          out := out + [b];
        }
        return;
      }
      if b.discont {
        var head, tail := NONE, NONE;
        if queue != [] {
          head, tail := queue[0].ts, queue[|queue| - 1].ts;
          isReversed := head > tail;
        }
        var k := 0;
        ghost var start := Value();
        while queue != []
          invariant Drain(Value(), flow, k) == Drain(start, flow, 0)
          decreases |queue|
        {
          var m := Popped(Value());
          queue := if isReversed then queue[1..] else queue[..|queue| - 1];
          if (m.ts < headPrev && !isReversed) || (m.ts < tailPrev && isReversed) {
            if !flow(k) {
              return false;
            }
            out := out + [m];
            k := k + 1;
          }
        }
        headPrev, tailPrev := head, tail;
      }
      queue := queue + [b];
      ok := true;
    }

    /** NEWSEGMENT and EOS */
    method DrainOnEvent(flow: Flow)
      modifies this
      ensures Value() == DrainAll(old(Value()), flow, 0)
    {
      var k := 0;
      while queue != []
        invariant DrainAll(Value(), flow, k) == DrainAll(old(Value()), flow, 0)
        decreases |queue|
      {
        var m := Popped(Value());
        queue := if isReversed then queue[1..] else queue[..|queue| - 1];
        if flow(k) {
          out := out + [m];
        }
        k := k + 1;
      }
    }

    /** FLUSH_STOP */
    method Flush()
      modifies this
      ensures Value() == old(Value()).(queue := [])
    {
      while queue != []
        invariant Value() == old(Value()).(queue := queue)
        decreases |queue|
      {
        queue := queue[1..];
      }
    }
  }
}
