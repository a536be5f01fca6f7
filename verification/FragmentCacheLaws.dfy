/** What the pad has seen over whole runs of buffers, completed downloads and seeks. */
module FragmentCacheLaws {
  import opened Common
  import opened FragmentCache

  datatype Event = Arrive(b: Buf, x: Context) | Eos | FlushingSeek | Switch(start: Word)

  /** The event stamps a dummy frame: one arrives when the cache is full, and the segment and the
      queue are accepted in front of it. */
  ghost predicate StampsFrame(c: Cache, e: Event) {
    && e.Arrive? && e.x.dummy && c.fragCnt >= e.x.limit && (c.sentNs || e.x.eventOk)
    && forall k :: 0 <= k < |c.queue| ==> e.x.flow(k)
  }

  /** The event announces a segment: the first buffer behind a full cache, and the event is accepted. */
  ghost predicate Announces(c: Cache, e: Event) {
    e.Arrive? && c.fragCnt >= e.x.limit && !c.sentNs && e.x.eventOk
  }

  /** The cache; the buffers that have arrived, a dummy frame with the times it is stamped with and every
      other one as it came; the segments to announce; whether a push or an event was refused; and where
      in the pad's history the last flushing seek was. */
  datatype Run = Run(c: Cache, received: seq<Buf>, segments: seq<Item>, refused: bool, mark: nat)

  ghost function Step(r: Run, e: Event): Run {
    match e
    case Arrive(b, x) =>
      var (c, ok) := OnNewBuffer(r.c, b, x);
      Run(c, r.received + [if StampsFrame(r.c, e) then Buf(b.id, r.c.switchTs, DUMMY_DURATION) else b],
          r.segments + (if Announces(r.c, e) then [Segment(x.start, x.duration)] else []), r.refused || !ok, r.mark)
    case Eos => r.(c := OnEos(r.c))
    case FlushingSeek => r.(c := OnFlushingSeek(r.c), mark := |r.c.pad|)
    case Switch(start) => r.(c := OnSwitch(r.c, start))
  }

  ghost function Play(es: seq<Event>): Run {
    if es == [] then Run(Initial(), [], [], false, 0) else Step(Play(es[..|es| - 1]), es[|es| - 1])
  }

  // ---- one arrival ----

  function Datas(q: seq<Buf>): (items: seq<Item>)
    ensures |items| == |q| && forall i :: 0 <= i < |q| ==> items[i] == Data(q[i])
  {
    seq(|q|, i requires 0 <= i < |q| => Data(q[i]))
  }

  /** The first n buffers of the queue have been pushed, and the one behind them is lost. */
  function DrainedBy(c: Cache, n: nat): Cache
    requires n <= |c.queue|
  {
    c.(queue := if n < |c.queue| then c.queue[n + 1..] else [], pad := c.pad + Datas(c.queue[..n]))
  }

  /** Draining pushes the queue up to the first refused push; that buffer is lost and the rest stays. */
  lemma {:induction false} DrainIs(c: Cache, flow: nat -> bool, k: nat) returns (n: nat)
    ensures k + n == FirstRefused(flow, k, k + |c.queue|) && n <= |c.queue|
    ensures Drain(c, flow, k) == (DrainedBy(c, n), n == |c.queue|)
    decreases |c.queue|
  {
    if c.queue == [] || !flow(k) {
      NothingDrained(c, flow, k);
      n := 0;
    } else {
      var d := c.(queue := c.queue[1..], pad := c.pad + [Data(c.queue[0])]);
      n := DrainIs(d, flow, k + 1);
      DrainedOneMore(c, n + 1);
      DrainsOne(c, flow, k);
      n := n + 1;
    }
  }

  lemma {:induction false} DrainsOne(c: Cache, flow: nat -> bool, k: nat)
    requires c.queue != [] && flow(k)
    ensures var d := c.(queue := c.queue[1..], pad := c.pad + [Data(c.queue[0])]);
            && Drain(c, flow, k) == Drain(d, flow, k + 1)
            && FirstRefused(flow, k, k + |c.queue|) == FirstRefused(flow, k + 1, k + 1 + |d.queue|)
  {
  }

  lemma {:induction false} NothingDrained(c: Cache, flow: nat -> bool, k: nat)
    requires c.queue == [] || !flow(k)
    ensures FirstRefused(flow, k, k + |c.queue|) == k && Drain(c, flow, k) == (DrainedBy(c, 0), c.queue == [])
  {
    assert c.pad + Datas(c.queue[..0]) == c.pad;
  }

  lemma {:induction false} DrainedOneMore(c: Cache, n: nat)
    requires 0 < n <= |c.queue|
    ensures DrainedBy(c.(queue := c.queue[1..], pad := c.pad + [Data(c.queue[0])]), n - 1) == DrainedBy(c, n)
  {
    FirstData(c.pad, c.queue, n);
    assert n < |c.queue| ==> c.queue[1..][n..] == c.queue[n + 1..];
  }

  lemma {:induction false} FirstData(pad: seq<Item>, q: seq<Buf>, n: nat)
    requires 0 < n <= |q|
    ensures pad + [Data(q[0])] + Datas(q[1..][..n - 1]) == pad + Datas(q[..n])
  {
    assert q[1..][..n - 1] == q[1..n];
    assert Datas(q[..n]) == [Data(q[0])] + Datas(q[1..n]);
  }

  /** What one arrival does, exactly. While the cache fills up it is queued. Otherwise the segment comes
      first, if it is still due, and nothing happens if that is refused; then the queue and the buffer
      itself are pushed up to the first refused push, which loses its buffer, and the buffer that
      arrived is lost with it. */
  lemma {:induction false} ArrivalIs(c: Cache, b: Buf, x: Context)
    ensures var n := FirstRefused(x.flow, 0, |c.queue| + 1);
            var seg := if c.sentNs then [] else [Segment(x.start, x.duration)];
            var (d, ok) := OnNewBuffer(c, b, x);
            if c.fragCnt < x.limit then d == c.(queue := c.queue + [b]) && ok
            else if !c.sentNs && !x.eventOk then d == c && !ok
            else
              && (ok <==> n == |c.queue| + 1)
              && d == c.(sentNs := true, queue := if n < |c.queue| then c.queue[n + 1..] else [],
                         switchTs := if x.dummy && n >= |c.queue| then (c.switchTs + DUMMY_DURATION) % U64
                                     else c.switchTs,
                         pad := c.pad + seg + Datas(c.queue[..if n < |c.queue| then n else |c.queue|])
                                + if !ok then []
                                  else [Data(if x.dummy then Buf(b.id, c.switchTs, DUMMY_DURATION) else b)])
  {
    if c.fragCnt >= x.limit && (c.sentNs || x.eventOk) {
      var a := Announced(c, x);
      OnAnnounced(c, b, x);
      PushingIs(a, b, x);
      assert a.pad == c.pad + if c.sentNs then [] else [Segment(x.start, x.duration)];
    }
  }

  /** The same behind an announced segment. */
  lemma {:induction false} PushingIs(c: Cache, b: Buf, x: Context)
    requires c.sentNs && c.fragCnt >= x.limit
    ensures var n := FirstRefused(x.flow, 0, |c.queue| + 1);
            var m := if n < |c.queue| then n else |c.queue|;
            var (d, ok) := OnNewBuffer(c, b, x);
            && (ok <==> n == |c.queue| + 1)
            && d.fragCnt == c.fragCnt && d.sentNs
            && d.queue == (if n < |c.queue| then c.queue[n + 1..] else [])
            && d.switchTs == (if x.dummy && n >= |c.queue| then (c.switchTs + DUMMY_DURATION) % U64 else c.switchTs)
            && d.pad == c.pad + Datas(c.queue[..m])
                        + if !ok then [] else [Data(if x.dummy then Buf(b.id, c.switchTs, DUMMY_DURATION) else b)]
  {
    var drained := DrainIs(c, x.flow, 0);
    SameRefused(x.flow, |c.queue|);
    var n := FirstRefused(x.flow, 0, |c.queue| + 1);
    var p := c.pad + Datas(c.queue[..if n < |c.queue| then n else |c.queue|]);
    assert p + [] == p;
  }

  lemma {:induction false} OnAnnounced(c: Cache, b: Buf, x: Context)
    requires c.fragCnt >= x.limit && (c.sentNs || x.eventOk)
    ensures OnNewBuffer(c, b, x) == OnNewBuffer(Announced(c, x), b, x)
  {
  }

  lemma {:induction false} SameRefused(flow: nat -> bool, n: nat)
    ensures var r, q := FirstRefused(flow, 0, n + 1), FirstRefused(flow, 0, n);
            if r < n then q == r else q == n && (r == n + 1 <==> flow(n))
  {
  }

  /** Announcing the segment if that has not been done. */
  function Announced(c: Cache, x: Context): Cache {
    if c.sentNs then c else c.(sentNs := true, pad := c.pad + [Segment(x.start, x.duration)])
  }

  // ---- what the pad has seen ----

  /** The buffers and the segments among the pad's items. */
  function Pushed(pad: seq<Item>): seq<Buf> {
    if pad == [] then []
    else Pushed(pad[..|pad| - 1]) + (if pad[|pad| - 1].Data? then [pad[|pad| - 1].buf] else [])
  }

  function Segments(pad: seq<Item>): seq<Item> {
    if pad == [] then []
    else Segments(pad[..|pad| - 1]) + (if pad[|pad| - 1].Segment? then [pad[|pad| - 1]] else [])
  }

  lemma {:induction false} PushedAppend(a: seq<Item>, b: seq<Item>)
    ensures Pushed(a + b) == Pushed(a) + Pushed(b) && Segments(a + b) == Segments(a) + Segments(b)
  {
    if b == [] {
      assert a + b == a;
    } else {
      assert (a + b)[..|a + b| - 1] == a + b[..|b| - 1];
      PushedAppend(a, b[..|b| - 1]);
    }
  }

  lemma {:induction false} PushedDatas(q: seq<Buf>)
    ensures Pushed(Datas(q)) == q && Segments(Datas(q)) == []
  {
    if q != [] {
      var n := |q| - 1;
      PushedDatas(q[..n]);
      assert Datas(q)[..n] == Datas(q[..n]);
      assert q == q[..n] + [q[n]];
    }
  }

  lemma {:induction false} PushedOne(i: Item)
    ensures Pushed([i]) == (if i.Data? then [i.buf] else []) && Segments([i]) == (if i.Segment? then [i] else [])
  {
    assert [i][..0] == [];
  }

  /** The pad behind an arrival: what is added to it. */
  lemma {:induction false} PushedBehind(pad: seq<Item>, seg: seq<Item>, q: seq<Buf>, last: seq<Item>)
    requires |seg| <= 1 && (forall i :: 0 <= i < |seg| ==> seg[i].Segment?)
    requires |last| <= 1 && (forall i :: 0 <= i < |last| ==> last[i].Data?)
    ensures Pushed(pad + seg + Datas(q) + last) == Pushed(pad) + q + Pushed(last)
    ensures Segments(pad + seg + Datas(q) + last) == Segments(pad) + seg
    ensures |Pushed(last)| == |last|
  {
    PushedAppend(pad + seg + Datas(q), last);
    PushedAppend(pad + seg, Datas(q));
    PushedAppend(pad, seg);
    PushedDatas(q);
    OneSegmentOnly(seg);
    OneDataOnly(last);
    NothingBetween(Pushed(pad), q, Pushed(last));
    NothingBehind(Segments(pad), seg);
  }

  lemma {:induction false} OneSegmentOnly(seg: seq<Item>)
    requires |seg| <= 1 && forall i :: 0 <= i < |seg| ==> seg[i].Segment?
    ensures Pushed(seg) == [] && Segments(seg) == seg
  {
    if seg != [] {
      PushedOne(seg[0]);
      assert seg == [seg[0]];
    }
  }

  lemma {:induction false} OneDataOnly(last: seq<Item>)
    requires |last| <= 1 && forall i :: 0 <= i < |last| ==> last[i].Data?
    ensures |Pushed(last)| == |last| && Segments(last) == []
  {
    if last != [] {
      PushedOne(last[0]);
      assert last == [last[0]];
    }
  }

  lemma NothingBetween(a: seq<Buf>, b: seq<Buf>, c: seq<Buf>)
    ensures a + [] + b + c == a + b + c
  {
  }

  lemma NothingBehind(a: seq<Item>, b: seq<Item>)
    ensures a + b + [] + [] == a + b
  {
  }

  /** Every buffer that arrived, as it is to look downstream, has been pushed or is still queued, in
      the order of arrival. */
  ghost predicate NothingLost(r: Run) {
    r.received == Pushed(r.c.pad) + r.c.queue
  }

  /** Since the last flushing seek: nothing at all, or exactly one segment in front of the data. */
  ghost predicate OneSegment(r: Run) {
    && r.mark <= |r.c.pad|
    && (if r.c.sentNs then
          && r.mark < |r.c.pad| && r.c.pad[r.mark].Segment?
          && forall i :: r.mark < i < |r.c.pad| ==> r.c.pad[i].Data?
        else r.mark == |r.c.pad|)
  }

  ghost predicate Counted(r: Run) {
    if r.refused then |Pushed(r.c.pad)| + |r.c.queue| < |r.received| else NothingLost(r)
  }

  ghost predicate Conserved(r: Run) {
    Counted(r) && OneSegment(r) && Segments(r.c.pad) == r.segments
  }

  /** What an arrival adds to the pad: a segment if it announces one, buffers of the queue, and itself. */
  ghost predicate Adds(c: Cache, e: Event, d: Cache, seg: seq<Item>, n: nat, last: seq<Item>)
    requires e.Arrive? && n <= |c.queue|
  {
    && d.pad == c.pad + seg + Datas(c.queue[..n]) + last
    && seg == (if Announces(c, e) then [Segment(e.x.start, e.x.duration)] else [])
    && (last == [] || last == [Data(if StampsFrame(c, e) then Buf(e.b.id, c.switchTs, DUMMY_DURATION) else e.b)])
    && (d.sentNs <==> c.sentNs || Announces(c, e)) && (seg + Datas(c.queue[..n]) + last != [] ==> d.sentNs)
  }

  lemma {:induction false} ArrivalAdds(c: Cache, b: Buf, x: Context) returns (n: nat, seg: seq<Item>, last: seq<Item>)
    ensures n <= |c.queue| && Adds(c, Arrive(b, x), OnNewBuffer(c, b, x).0, seg, n, last)
    ensures var (d, ok) := OnNewBuffer(c, b, x);
            if ok then c.queue[..n] + Pushed(last) + d.queue
                       == c.queue + [if StampsFrame(c, Arrive(b, x)) then Buf(b.id, c.switchTs, DUMMY_DURATION) else b]
            else n + |last| + |d.queue| <= |c.queue|
  {
    var e, d, ok := Arrive(b, x), OnNewBuffer(c, b, x).0, OnNewBuffer(c, b, x).1;
    ArrivalIs(c, b, x);
    seg := if Announces(c, e) then [Segment(x.start, x.duration)] else [];
    n, last := 0, [];
    if c.fragCnt < x.limit || (!c.sentNs && !x.eventOk) {
      assert Datas(c.queue[..0]) == [];
      assert c.pad + [] + [] + [] == c.pad;
      assert [] + [] + (c.queue + [b]) == c.queue + [b];
    } else {
      var r := FirstRefused(x.flow, 0, |c.queue| + 1);
      n := if r < |c.queue| then r else |c.queue|;
      assert c.queue[..|c.queue|] == c.queue;
      if ok {
        last := [Data(if x.dummy then Buf(b.id, c.switchTs, DUMMY_DURATION) else b)];
        PushedOne(last[0]);
        assert StampsFrame(c, e) <==> x.dummy;
      }
    }
  }

  lemma {:induction false} ArriveConserves(r: Run, b: Buf, x: Context)
    requires Conserved(r)
    ensures Conserved(Step(r, Arrive(b, x)))
  {
    var c, s, e := r.c, Step(r, Arrive(b, x)), Arrive(b, x);
    var n, seg, last := ArrivalAdds(c, b, x);
    PushedBehind(c.pad, seg, c.queue[..n], last);
    assert c.pad + seg + Datas(c.queue[..n]) + last == s.c.pad;
    if !s.refused {
      var due := if StampsFrame(c, e) then Buf(b.id, c.switchTs, DUMMY_DURATION) else b;
      Moved(Pushed(c.pad), c.queue, c.queue[..n], Pushed(last), s.c.queue, due);
    }
    OneSegmentStays(r, s, seg, Datas(c.queue[..n]) + last);
  }

  lemma {:induction false} Moved(pushed: seq<Buf>, q: seq<Buf>, a: seq<Buf>, l: seq<Buf>, rest: seq<Buf>, due: Buf)
    requires a + l + rest == q + [due]
    ensures pushed + q + [due] == pushed + a + l + rest
  {
    assert pushed + a + l + rest == pushed + (a + l + rest);
  }

  lemma {:induction false} OneSegmentStays(r: Run, s: Run, seg: seq<Item>, data: seq<Item>)
    requires OneSegment(r) && s.mark == r.mark && s.c.pad == r.c.pad + seg + data
    requires forall i :: 0 <= i < |data| ==> data[i].Data?
    requires seg == [] || (|seg| == 1 && seg[0].Segment? && !r.c.sentNs)
    requires (s.c.sentNs <==> r.c.sentNs || seg != []) && (seg + data != [] ==> s.c.sentNs)
    ensures OneSegment(s)
  {
    if data != [] {
      assert seg + data != [];
    }
    if seg != [] {
      assert s.c.pad[|r.c.pad|] == seg[0];
    }
  }

  lemma {:induction false} PlayConserves(es: seq<Event>)
    ensures Conserved(Play(es))
  {
    if es != [] {
      var r, e := Play(es[..|es| - 1]), es[|es| - 1];
      PlayConserves(es[..|es| - 1]);
      if e.Arrive? {
        ArriveConserves(r, e.b, e.x);
      }
    } else {
      assert Pushed([]) + [] == [];
    }
  }

  /** The number of fragments since the last flushing seek. */
  function Downloads(es: seq<Event>): nat {
    if es == [] || es[|es| - 1].FlushingSeek? then 0
    else Downloads(es[..|es| - 1]) + if es[|es| - 1].Eos? then 1 else 0
  }

  /** So a buffer is cached exactly while fewer downloads than the limit have been completed since. */
  lemma {:induction false} CountIsDownloads(es: seq<Event>)
    ensures Play(es).c.fragCnt == Downloads(es)
  {
    if es != [] {
      CountIsDownloads(es[..|es| - 1]);
      var r, e := Play(es[..|es| - 1]), es[|es| - 1];
      if e.Arrive? {
        ArrivalIs(r.c, e.b, e.x);
      }
    }
  }

  // ---- what is refused ----

  /** Everything that is to be pushed is accepted: nothing while the cache fills up; otherwise the
      segment if it is still to be announced, and one push for every queued buffer and the new one. */
  ghost predicate Accepts(c: Cache, x: Context) {
    c.fragCnt < x.limit || ((c.sentNs || x.eventOk) && forall k :: 0 <= k <= |c.queue| ==> x.flow(k))
  }

  lemma {:induction false} AcceptedIff(c: Cache, b: Buf, x: Context)
    ensures OnNewBuffer(c, b, x).1 <==> Accepts(c, x)
  {
    ArrivalIs(c, b, x);
  }

  /** All buffers of the run were accepted when they arrived. */
  ghost predicate AllAccepted(es: seq<Event>) {
    forall i :: 0 <= i < |es| ==> AcceptedAt(es, i)
  }

  ghost predicate AcceptedAt(es: seq<Event>, i: nat)
    requires i < |es|
  {
    es[i].Arrive? ==> Accepts(Play(es[..i]).c, es[i].x)
  }

  lemma {:induction false} RefusedIff(es: seq<Event>)
    ensures Play(es).refused <==> !AllAccepted(es)
  {
    if es != [] {
      var n := |es| - 1;
      RefusedIff(es[..n]);
      forall i | 0 <= i < n ensures AcceptedAt(es[..n], i) <==> AcceptedAt(es, i) {
        assert es[..n][..i] == es[..i];
      }
      if es[n].Arrive? {
        AcceptedIff(Play(es[..n]).c, es[n].b, es[n].x);
      }
      assert Play(es).refused <==> Play(es[..n]).refused || !AcceptedAt(es, n);
    }
  }

  /** Over every run, across flushing seeks: the buffers pushed, followed by those still queued, are
      the buffers received, in order and with their own time stamps and durations, but for those of
      the dummy frames, if and only if downstream accepted everything that was due with each of them.
      The segments on the pad are those of the arrivals that announced them, with their start and
      duration; and since the last flushing seek the pad has seen nothing, or one segment and then
      data only. */
  lemma {:induction false} NothingLostIff(es: seq<Event>)
    ensures NothingLost(Play(es)) <==> AllAccepted(es)
    ensures OneSegment(Play(es)) && Segments(Play(es).c.pad) == Play(es).segments
  {
    PlayConserves(es);
    RefusedIff(es);
    assert NothingLost(Play(es)) ==> |Pushed(Play(es).c.pad)| + |Play(es).c.queue| == |Play(es).received|;
  }

  // ---- a flushing seek ----

  ghost predicate NoSeek(es: seq<Event>) {
    forall i :: 0 <= i < |es| ==> !es[i].FlushingSeek?
  }

  /** What comes behind a flushing seek only adds to the pad and to what was received. */
  lemma {:induction false} SeekThenGrows(es: seq<Event>, more: seq<Event>)
    requires NoSeek(more)
    ensures var r, s := Play(es), Play(es + [FlushingSeek] + more);
            r.c.pad <= s.c.pad && r.received <= s.received && s.mark == |r.c.pad|
  {
    var all := es + [FlushingSeek] + more;
    if more == [] {
      assert all[..|all| - 1] == es && all[|all| - 1] == FlushingSeek;
    } else {
      var n := |more| - 1;
      assert all[..|all| - 1] == es + [FlushingSeek] + more[..n] && all[|all| - 1] == more[n];
      SeekThenGrows(es, more[..n]);
      StepGrows(Play(es + [FlushingSeek] + more[..n]), more[n]);
    }
  }

  lemma {:induction false} StepGrows(r: Run, e: Event)
    requires !e.FlushingSeek?
    ensures r.c.pad <= Step(r, e).c.pad && r.received <= Step(r, e).received && Step(r, e).mark == r.mark
  {
    if e.Arrive? {
      var n, seg, last := ArrivalAdds(r.c, e.b, e.x);
    }
  }

  lemma {:induction false} CancelFront(a: seq<Buf>, b: seq<Buf>, c: seq<Buf>)
    requires a + b == a + c
    ensures b == c
  {
    assert (a + b)[|a|..] == b && (a + c)[|a|..] == c;
  }

  /** A flushing seek leaves the queue. What is pushed since, followed by what is queued, is the queue
      at the seek followed by what has arrived since: the first buffer in the new segment was
      downloaded for the old position if and only if the queue was not empty. */
  lemma {:induction false} QueueSurvivesSeek(es: seq<Event>, more: seq<Event>)
    requires NoSeek(more) && AllAccepted(es + [FlushingSeek] + more)
    ensures var r, s := Play(es), Play(es + [FlushingSeek] + more);
            && s.mark <= |s.c.pad| && |r.received| <= |s.received|
            && var since, arrived := Pushed(s.c.pad[s.mark..]), s.received[|r.received|..];
            && since + s.c.queue == r.c.queue + arrived
            && (since != [] ==> if r.c.queue != [] then since[0] == r.c.queue[0]
                                else arrived != [] && since[0] == arrived[0])
  {
    var all := es + [FlushingSeek] + more;
    var r, s := Play(es), Play(all);
    SeekThenGrows(es, more);
    AcceptedPrefix(all, |es|);
    assert all[..|es|] == es;
    NothingLostIff(all);
    NothingLostIff(es);
    var rest := s.c.pad[s.mark..];
    assert s.c.pad == r.c.pad + rest;
    PushedAppend(r.c.pad, rest);
    SinceSeek(Pushed(r.c.pad), Pushed(rest), s.c.queue, r.c.queue, r.received, s.received);
  }

  lemma {:induction false} SinceSeek(front: seq<Buf>, since: seq<Buf>, now: seq<Buf>, was: seq<Buf>,
                                     r: seq<Buf>, s: seq<Buf>)
    requires r == front + was && s == front + since + now && r <= s
    ensures since + now == was + s[|r|..]
    ensures since != [] ==> if was != [] then since[0] == was[0] else s[|r|..] != [] && since[0] == s[|r|..][0]
  {
    assert s == r + s[|r|..];
    assert front + (since + now) == s == front + (was + s[|r|..]);
    CancelFront(front, since + now, was + s[|r|..]);
    if since != [] {
      assert since[0] == (since + now)[0] == (was + s[|r|..])[0];
    }
  }

  lemma {:induction false} AcceptedPrefix(es: seq<Event>, n: nat)
    requires n <= |es| && AllAccepted(es)
    ensures AllAccepted(es[..n])
  {
    forall i | 0 <= i < n ensures AcceptedAt(es[..n], i) {
      assert AcceptedAt(es, i);
      assert es[..n][..i] == es[..i];
    }
  }

  // ---- dummy frames ----

  /** How many of the events from place n on stamp a dummy frame. */
  ghost function Stamps(es: seq<Event>, n: nat): nat
    requires n <= |es|
  {
    if n == |es| then 0
    else
      var before := es[..|es| - 1];
      Stamps(before, n) + (if StampsFrame(Play(before).c, es[|es| - 1]) then 1 else 0)
  }

  lemma {:induction false} NextStamp(c: Cache, b: Buf, x: Context)
    ensures OnNewBuffer(c, b, x).0.switchTs ==
            if StampsFrame(c, Arrive(b, x)) then (c.switchTs + DUMMY_DURATION) % U64 else c.switchTs
    ensures StampsFrame(c, Arrive(b, x)) && x.flow(|c.queue|) ==>
              var pad := OnNewBuffer(c, b, x).0.pad;
              pad != [] && pad[|pad| - 1] == Data(b.(ts := c.switchTs, dur := DUMMY_DURATION))
  {
    ArrivalIs(c, b, x);
  }

  /** The time n frame durations behind the start. */
  function StampAt(start: Word, n: nat): Word {
    (start + n * DUMMY_DURATION) % U64
  }

  lemma {:induction false} StampMoves(start: Word, n: nat)
    ensures (StampAt(start, n) + DUMMY_DURATION) % U64 == StampAt(start, n + 1)
  {
    SumWraps(start + n * DUMMY_DURATION, DUMMY_DURATION);
    assert (n + 1) * DUMMY_DURATION == n * DUMMY_DURATION + DUMMY_DURATION;
  }

  /** Behind a switch to dummy frames, whatever else happens: the next time stamp is the start time and
      one frame duration for every frame that has been stamped since. */
  lemma {:induction false} NextStampIs(es: seq<Event>, start: Word, more: seq<Event>)
    requires forall i :: 0 <= i < |more| ==> !more[i].Switch?
    ensures var all := es + [Switch(start)] + more;
            Play(all).c.switchTs == StampAt(start, Stamps(all, |es| + 1))
  {
    var all := es + [Switch(start)] + more;
    if more == [] {
      assert all[..|all| - 1] == es && all[|all| - 1] == Switch(start);
    } else {
      var n := |more| - 1;
      var before := es + [Switch(start)] + more[..n];
      assert all[..|all| - 1] == before && all[|all| - 1] == more[n];
      NextStampIs(es, start, more[..n]);
      NextStampStep(before, more[n], |es| + 1, start);
      assert all == before + [more[n]];
    }
  }

  lemma {:induction false} NextStampStep(before: seq<Event>, e: Event, n: nat, start: Word)
    requires n <= |before| && !e.Switch?
    requires Play(before).c.switchTs == StampAt(start, Stamps(before, n))
    ensures Play(before + [e]).c.switchTs == StampAt(start, Stamps(before + [e], n))
  {
    assert (before + [e])[..|before|] == before;
    StampMoves(start, Stamps(before, n));
    if e.Arrive? {
      NextStamp(Play(before).c, e.b, e.x);
    }
  }

  /** So the frame behind k stamped ones is pushed with the start time and k frame durations. */
  lemma {:induction false} DummyIsStamped(es: seq<Event>, start: Word, more: seq<Event>, b: Buf, x: Context)
    requires forall i :: 0 <= i < |more| ==> !more[i].Switch?
    requires var c := Play(es + [Switch(start)] + more).c; StampsFrame(c, Arrive(b, x)) && x.flow(|c.queue|)
    ensures var all := es + [Switch(start)] + more;
            var pad := Step(Play(all), Arrive(b, x)).c.pad;
            && pad != []
            && pad[|pad| - 1] == Data(Buf(b.id, (start + Stamps(all, |es| + 1) * 40_000_000) % U64, 40_000_000))
  {
    NextStampIs(es, start, more);
    NextStamp(Play(es + [Switch(start)] + more).c, b, x);
  }
}
