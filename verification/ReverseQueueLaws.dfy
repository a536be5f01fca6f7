/** What comes out over a whole run of reverse playback, and when its time stamps go down. */
module ReverseQueueLaws {
  import opened Common
  import opened ReverseQueue

  function Always(): Flow {
    _ => true
  }

  // ---- one batch ----

  /** The buffers from one discontinuity to the next. */
  ghost predicate IsBatch(b: seq<Buf>) {
    b != [] && b[0].discont && forall i :: 1 <= i < |b| ==> !b[i].discont
  }

  function Reversed(s: seq<Buf>): (r: seq<Buf>)
    ensures |r| == |s|
  {
    if s == [] then [] else Reversed(s[1..]) + [s[0]]
  }

  /** The buffers below the cut-off. */
  function Below(s: seq<Buf>, cut: nat): seq<Buf> {
    if s == [] then []
    else (if s[0].ts < cut then [s[0]] else []) + Below(s[1..], cut)
  }

  /** The batch arrived in reverse order. */
  predicate Descends(b: seq<Buf>) {
    b != [] && b[0].ts > b[|b| - 1].ts
  }

  /** The order in which a queue is emptied. */
  function Order(s: seq<Buf>, isReversed: bool): seq<Buf> {
    if isReversed then s else Reversed(s)
  }

  lemma {:induction false} ReversedAt(s: seq<Buf>, i: nat)
    requires i < |s|
    ensures Reversed(s)[i] == s[|s| - 1 - i]
  {
    if i < |s| - 1 {
      ReversedAt(s[1..], i);
    }
  }

  lemma {:induction false} ReversedPop(s: seq<Buf>)
    requires s != []
    ensures Reversed(s) == [s[|s| - 1]] + Reversed(s[..|s| - 1])
  {
    if |s| == 1 {
      assert s[1..] == [] && s[..0] == [];
    } else {
      ReversedPop(s[1..]);
      assert s[1..][..|s| - 2] == s[..|s| - 1][1..];
      assert Reversed(s) == [s[|s| - 1]] + Reversed(s[1..][..|s| - 2]) + [s[0]];
    }
  }

  /** The buffer that is popped is the first one in the queue's order. */
  lemma {:induction false} OrderPop(s: State)
    requires s.queue != []
    ensures Order(s.queue, s.isReversed) == [Popped(s)] + Order(Pop(s).queue, s.isReversed)
  {
    if s.isReversed {
      assert s.queue == [s.queue[0]] + s.queue[1..];
    } else {
      ReversedPop(s.queue);
    }
  }

  function CutOf(s: State): nat {
    if s.isReversed then s.tailPrev else s.headPrev
  }

  lemma {:induction false} BelowCons(b: Buf, rest: seq<Buf>, cut: nat)
    ensures Below([b] + rest, cut) == (if b.ts < cut then [b] else []) + Below(rest, cut)
  {
    assert ([b] + rest)[1..] == rest;
  }

  /** What leaves the queue is below the cut-off, in the queue's order. */
  function Drained(s: State): seq<Buf> {
    Below(Order(s.queue, s.isReversed), CutOf(s))
  }

  lemma {:induction false} DrainedPop(s: State)
    requires s.queue != []
    ensures Drained(s) == (if Passes(s, Popped(s)) then [Popped(s)] else []) + Drained(Pop(s))
  {
    OrderPop(s);
    BelowCons(Popped(s), Order(Pop(s).queue, s.isReversed), CutOf(s));
  }

  /** The state behind an emptied queue that has sent x. */
  function Emptied(s: State, x: seq<Buf>): State {
    s.(queue := [], out := s.out + x)
  }

  lemma {:induction false} EmptiedPush(s: State, b: Buf, x: seq<Buf>)
    requires s.queue != []
    ensures Emptied(Pop(s).(out := s.out + [b]), x) == Emptied(s, [b] + x)
    ensures Emptied(Pop(s), x) == Emptied(s, x)
    ensures Emptied(Pop(s), x) == Emptied(s, [] + x)
  {
    assert s.out + [b] + x == s.out + ([b] + x);
    assert [] + x == x;
  }

  lemma {:induction false} DrainIsBelow(s: State, k: nat)
    ensures Drain(s, Always(), k) == (Emptied(s, Drained(s)), true)
    decreases |s.queue|
  {
    if s.queue == [] {
      assert Drained(s) == [];
      assert s.out + [] == s.out;
    } else {
      DrainedPop(s);
      var b := Popped(s);
      EmptiedPush(s, b, Drained(Pop(s)));
      if Passes(s, b) {
        var t := Pop(s).(out := s.out + [b]);
        DrainIsBelow(t, k + 1);
        assert Drain(s, Always(), k) == Drain(t, Always(), k + 1);
        assert Drained(t) == Drained(Pop(s));
      } else {
        DrainIsBelow(Pop(s), k);
        assert Drain(s, Always(), k) == Drain(Pop(s), Always(), k);
      }
    }
  }

  lemma {:induction false} DrainAllIsOrder(s: State, k: nat)
    ensures DrainAll(s, Always(), k) == Emptied(s, Order(s.queue, s.isReversed))
    decreases |s.queue|
  {
    if s.queue == [] {
      assert s.out + [] == s.out;
    } else {
      var t := Pop(s).(out := s.out + [Popped(s)]);
      OrderPop(s);
      DrainAllIsOrder(t, k + 1);
      assert DrainAll(s, Always(), k) == DrainAll(t, Always(), k + 1);
      EmptiedPush(s, Popped(s), Order(Pop(s).queue, s.isReversed));
    }
  }

  // ---- pushes that fail ----

  /** Of the buffers x below the cut-off the first n have been sent; the next one is lost, if there is one,
      and those in `left` are still to come. */
  ghost predicate StopsAt(s: State, x: seq<Buf>, n: int, d: State, ok: bool, left: seq<Buf>) {
    && 0 <= n <= |x| && (ok <==> n == |x|)
    && d == s.(queue := d.queue, out := s.out + x[..n])
    && (if ok then d.queue == [] else n < |x| && left == x[n + 1..])
  }

  lemma {:induction false} StopsLater(s: State, t: State, b: Buf, y: seq<Buf>, n: int, d: State, ok: bool,
                                      left: seq<Buf>)
    requires StopsAt(t, y, n, d, ok, left) && t == s.(queue := t.queue, out := s.out + [b])
    ensures StopsAt(s, [b] + y, n + 1, d, ok, left)
  {
    var x := [b] + y;
    assert x[..n + 1] == [b] + y[..n] && s.out + [b] + y[..n] == s.out + x[..n + 1];
    assert n < |y| ==> x[n + 2..] == y[n + 1..];
  }

  lemma {:induction false} StopsHere(s: State, b: Buf, y: seq<Buf>)
    requires s.queue != []
    ensures StopsAt(s, [b] + y, 0, Pop(s), false, y)
  {
    assert ([b] + y)[1..] == y && s.out + ([b] + y)[..0] == s.out;
  }

  lemma {:induction false} RefusedLater(flow: Flow, k: nat, n: nat)
    requires flow(k)
    ensures FirstRefused(flow, k, k + n + 1) == FirstRefused(flow, k + 1, k + 1 + n)
  {
  }

  lemma {:induction false} DrainPushes(s: State, flow: Flow, k: nat)
    requires s.queue != [] && Passes(s, Popped(s)) && flow(k)
    ensures var t := Pop(s).(out := s.out + [Popped(s)]);
            Drain(s, flow, k) == Drain(t, flow, k + 1) && Drained(s) == [Popped(s)] + Drained(t)
  {
    DrainedPop(s);
  }

  /** Emptying a queue at a discontinuity with pushes that may fail: what is below the cut-off is sent in
      the queue's order up to the first push that fails. That buffer is lost, and all that is below the
      cut-off behind it is still to come. */
  lemma {:induction false} DrainStops(s: State, flow: Flow, k: nat)
    returns (x: seq<Buf>, n: nat, d: State, ok: bool, left: seq<Buf>)
    ensures x == Drained(s) && k + n == FirstRefused(flow, k, k + |x|)
    ensures (d, ok) == Drain(s, flow, k) && left == Drained(d)
    ensures StopsAt(s, x, n, d, ok, left)
    decreases |s.queue|
  {
    if s.queue == [] {
      x, n, d, ok, left := [], 0, s, true, [];
      StopsEmpty(s);
    } else if !Passes(s, Popped(s)) {
      x, n, d, ok, left := DrainStops(Pop(s), flow, k);
      SkippedIsSame(s, flow, k);
    } else if !flow(k) {
      left := Drained(Pop(s));
      x, n, d, ok := [Popped(s)] + left, 0, Pop(s), false;
      DrainRefused(s, flow, k);
      StopsHere(s, Popped(s), left);
    } else {
      var t := Pop(s).(out := s.out + [Popped(s)]);
      var y, m;
      y, m, d, ok, left := DrainStops(t, flow, k + 1);
      DrainPushes(s, flow, k);
      RefusedLater(flow, k, |y|);
      StopsLater(s, t, Popped(s), y, m, d, ok, left);
      x, n := [Popped(s)] + y, m + 1;
    }
  }

  lemma {:induction false} StopsEmpty(s: State)
    requires s.queue == []
    ensures Drained(s) == [] && StopsAt(s, [], 0, s, true, [])
  {
    assert s.out + [] == s.out;
  }

  lemma {:induction false} DrainRefused(s: State, flow: Flow, k: nat)
    requires s.queue != [] && Passes(s, Popped(s)) && !flow(k)
    ensures Drain(s, flow, k) == (Pop(s), false) && Drained(s) == [Popped(s)] + Drained(Pop(s))
  {
    DrainedPop(s);
  }

  lemma {:induction false} SkippedIsSame(s: State, flow: Flow, k: nat)
    requires s.queue != [] && !Passes(s, Popped(s))
    ensures Drain(s, flow, k) == Drain(Pop(s), flow, k) && Drained(s) == Drained(Pop(s))
  {
    DrainedPop(s);
    assert [] + Drained(Pop(s)) == Drained(Pop(s));
  }

  /** A discontinuity whose pushes fail loses the buffer that was refused and the one that arrived; the
      cut-offs stay, so that the next discontinuity goes on behind it. */
  lemma {:induction false} RefusedChain(s: State, b: Buf, flow: Flow)
    requires b.discont && s.queue != [] && !Chain(s, b, flow).1
    ensures var d, t := Chain(s, b, flow).0, s.(isReversed := Descends(s.queue));
            var x := Drained(t);
            var n := FirstRefused(flow, 0, |x|);
            n < |x| && d == t.(queue := d.queue, out := s.out + x[..n]) && Drained(d) == x[n + 1..]
  {
    var x, n, d, ok, left := DrainStops(s.(isReversed := Descends(s.queue)), flow, 0);
  }

  /** The buffers of an order whose pushes are accepted, the first one being push number k. */
  function Accepted(o: seq<Buf>, flow: Flow, k: nat): seq<Buf> {
    if o == [] then [] else (if flow(k) then [o[0]] else []) + Accepted(o[1..], flow, k + 1)
  }

  /** A segment or the end of the stream empties the whole queue, and loses exactly what is refused. */
  lemma {:induction false} DrainAllLoses(s: State, flow: Flow, k: nat)
    ensures DrainAll(s, flow, k) == Emptied(s, Accepted(Order(s.queue, s.isReversed), flow, k))
    decreases |s.queue|
  {
    if s.queue == [] {
      assert Order(s.queue, s.isReversed) == [] && s.out + [] == s.out;
    } else {
      var b, o := Popped(s), Order(Pop(s).queue, s.isReversed);
      var t := Pop(s).(out := if flow(k) then s.out + [b] else s.out);
      OrderPop(s);
      DrainAllLoses(t, flow, k + 1);
      assert ([b] + o)[1..] == o;
      EmptiedPush(s, b, Accepted(o, flow, k + 1));
      assert DrainAll(s, flow, k) == DrainAll(t, flow, k + 1);
    }
  }

  // ---- a run ----

  /** All buffers of a run, none of whose pushes fails. */
  function Play(s: State, bs: seq<Buf>): State {
    if bs == [] then s else Chain(Play(s, bs[..|bs| - 1]), bs[|bs| - 1], Always()).0
  }

  function Flatten(batches: seq<seq<Buf>>): seq<Buf> {
    if batches == [] then [] else Flatten(batches[..|batches| - 1]) + batches[|batches| - 1]
  }

  ghost predicate AllBatches(batches: seq<seq<Buf>>) {
    forall i :: 0 <= i < |batches| ==> IsBatch(batches[i])
  }

  lemma {:induction false} PlayAppend(s: State, a: seq<Buf>, b: seq<Buf>)
    ensures Play(s, a + b) == Play(Play(s, a), b)
  {
    if b == [] {
      assert a + b == a;
    } else {
      assert (a + b)[..|a + b| - 1] == a + b[..|b| - 1];
      PlayAppend(s, a, b[..|b| - 1]);
    }
  }

  /** Buffers without DISCONT only queue up. */
  lemma {:induction false} PlayQueues(s: State, b: seq<Buf>)
    requires forall i :: 0 <= i < |b| ==> !b[i].discont
    ensures Play(s, b) == s.(queue := s.queue + b)
  {
    if b == [] {
      assert s.queue + b == s.queue;
    } else {
      PlayQueues(s, b[..|b| - 1]);
      assert b == b[..|b| - 1] + [b[|b| - 1]];
    }
  }

  /** A batch sends out the one before it. */
  lemma {:induction false} PlayBatch(s: State, b: seq<Buf>)
    requires IsBatch(b) && s.queue != []
    ensures var q, down := s.queue, Descends(s.queue);
            Play(s, b) == State(b, down, q[0].ts, q[|q| - 1].ts, s.out + Drained(s.(isReversed := down)))
  {
    assert b == [b[0]] + b[1..];
    PlayAppend(s, [b[0]], b[1..]);
    assert [b[0]][..0] == [];
    assert Play(s, [b[0]]) == Chain(s, b[0], Always()).0;
    DrainIsBelow(s.(isReversed := Descends(s.queue)), 0);
    PlayQueues(Play(s, [b[0]]), b[1..]);
    assert [] + [b[0]] == [b[0]];
  }

  /** The cut-off of batch i: an end of the batch before it, which end depending on the batch's own
      direction; none for the first one. */
  function Cut(batches: seq<seq<Buf>>, i: nat): nat
    requires i < |batches|
  {
    if i == 0 || batches[i - 1] == [] then NONE
    else if Descends(batches[i]) then batches[i - 1][|batches[i - 1]| - 1].ts
    else batches[i - 1][0].ts
  }

  /** What batch i sends out when the next one arrives. */
  function Emission(batches: seq<seq<Buf>>, i: nat): seq<Buf>
    requires i < |batches|
  {
    Below(Order(batches[i], Descends(batches[i])), Cut(batches, i))
  }

  /** What the first n batches send out at their discontinuities. */
  function Sent(batches: seq<seq<Buf>>, n: nat): seq<Buf>
    requires n <= |batches|
  {
    if n == 0 then [] else Sent(batches, n - 1) + Emission(batches, n - 1)
  }

  lemma {:induction false} EmissionPrefix(a: seq<seq<Buf>>, b: seq<seq<Buf>>, i: nat)
    requires i < |a| <= |b| && a == b[..|a|]
    ensures Emission(a, i) == Emission(b, i)
  {
    assert a[i] == b[i] && (i > 0 ==> a[i - 1] == b[i - 1]);
  }

  lemma {:induction false} SentPrefix(a: seq<seq<Buf>>, b: seq<seq<Buf>>, n: nat)
    requires n <= |a| <= |b| && a == b[..|a|]
    ensures Sent(a, n) == Sent(b, n)
  {
    if n != 0 {
      SentPrefix(a, b, n - 1);
      EmissionPrefix(a, b, n - 1);
    }
  }

  /** The element behind a run of n batches: the last one is queued, all others have been sent out
      one after the other, each in reverse order and cut off at the one before it. */
  ghost predicate Behind(r: State, batches: seq<seq<Buf>>)
    requires batches != [] && AllBatches(batches)
  {
    var n := |batches|;
    && r.queue == batches[n - 1] && r.out == Sent(batches, n - 1)
    && (if n == 1 then r.headPrev == NONE && r.tailPrev == NONE && !r.isReversed
        else
          var q := batches[n - 2];
          r.headPrev == q[0].ts && r.tailPrev == q[|q| - 1].ts && r.isReversed == Descends(q))
  }

  lemma {:induction false} OneMoreBatch(s: State, before: seq<seq<Buf>>, b: seq<Buf>)
    requires before != [] && AllBatches(before) && IsBatch(b) && Behind(s, before)
    ensures AllBatches(before + [b]) && Behind(Play(s, b), before + [b])
  {
    var n, all := |before|, before + [b];
    PlayBatch(s, b);
    assert all[..n] == before;
    SentPrefix(before, all, n - 1);
    assert all[n - 1] == before[n - 1] && (n > 1 ==> all[n - 2] == before[n - 2]);
    assert Drained(s.(isReversed := Descends(s.queue))) == Emission(all, n - 1);
  }

  lemma {:induction false} RunSends(batches: seq<seq<Buf>>)
    requires batches != [] && AllBatches(batches)
    ensures Behind(Play(Initial(), Flatten(batches)), batches)
  {
    var n := |batches|;
    var b, before := batches[n - 1], batches[..n - 1];
    assert batches == before + [b];
    PlayAppend(Initial(), Flatten(before), b);
    var s := Play(Initial(), Flatten(before));
    assert Play(Initial(), Flatten(batches)) == Play(s, b);
    if n == 1 {
      OneBatch(b);
    } else {
      RunSends(before);
      OneMoreBatch(s, before, b);
    }
  }

  lemma {:induction false} OneBatch(b: seq<Buf>)
    requires IsBatch(b)
    ensures AllBatches([b]) && Behind(Play(Initial(), b), [b])
  {
    FirstBatch(Initial(), b);
    assert Sent([b], 0) == [];
  }

  /** The first batch behind an empty queue finds no cut-off, and leaves the direction as it was. */
  lemma {:induction false} FirstBatch(s: State, b: seq<Buf>)
    requires IsBatch(b) && s.queue == []
    ensures Play(s, b) == s.(queue := b, headPrev := NONE, tailPrev := NONE)
  {
    assert b == [b[0]] + b[1..];
    PlayAppend(s, [b[0]], b[1..]);
    assert [b[0]][..0] == [];
    assert Play(s, [b[0]]) == Chain(s, b[0], Always()).0;
    PlayQueues(Play(s, [b[0]]), b[1..]);
  }

  /** A flush starts over: what the batches behind it send out is what they send out from the
      initial state, whatever was played before. Only the direction of the batches before survives,
      until the second batch. */
  lemma {:induction false} FlushStartsOver(s: State, batches: seq<seq<Buf>>)
    requires batches != [] && AllBatches(batches)
    ensures var p, q := Play(s.(queue := []), Flatten(batches)), Play(Initial(), Flatten(batches));
            p == q.(out := s.out + q.out, isReversed := if |batches| == 1 then s.isReversed else q.isReversed)
  {
    var n, f := |batches|, s.(queue := []);
    var b, before := batches[n - 1], batches[..n - 1];
    assert Flatten(batches) == Flatten(before) + b;
    if n == 1 {
      assert Flatten(batches) == b;
      FirstBatch(f, b);
      FirstBatch(Initial(), b);
      assert s.out + [] == s.out;
    } else {
      PlayAppend(f, Flatten(before), b);
      PlayAppend(Initial(), Flatten(before), b);
      FlushStartsOver(s, before);
      RunSends(before);
      SameBatch(s.out, Play(f, Flatten(before)), Play(Initial(), Flatten(before)), b);
    }
  }

  /** A batch does the same in two states that differ in their direction and output only. */
  lemma {:induction false} SameBatch(pre: seq<Buf>, p: State, q: State, b: seq<Buf>)
    requires IsBatch(b) && q.queue != [] && p == q.(out := pre + q.out, isReversed := p.isReversed)
    ensures Play(p, b) == Play(q, b).(out := pre + Play(q, b).out, isReversed := Play(q, b).isReversed)
  {
    PlayBatch(p, b);
    PlayBatch(q, b);
    var down := Descends(q.queue);
    var x := Drained(q.(isReversed := down));
    assert Drained(p.(isReversed := down)) == x;
    assert pre + q.out + x == pre + (q.out + x);
  }

  // ---- when the time stamps go down ----

  ghost predicate GoesDown(s: seq<Buf>) {
    forall i, j :: 0 <= i < j < |s| ==> s[i].ts > s[j].ts
  }

  /** The lowest and the highest time stamp of a batch that runs strictly in one direction. */
  function Low(b: seq<Buf>): nat
    requires b != []
  {
    if Descends(b) then b[|b| - 1].ts else b[0].ts
  }

  function High(b: seq<Buf>): nat
    requires b != []
  {
    if Descends(b) then b[0].ts else b[|b| - 1].ts
  }

  /** Every batch runs strictly in its own direction, and none starts its segment behind the one
      before it. */
  ghost predicate Strict(batches: seq<seq<Buf>>) {
    && AllBatches(batches)
    && (forall i :: 0 <= i < |batches| ==> GoesDown(Order(batches[i], Descends(batches[i]))))
    && (forall i, j :: 0 <= i < j < |batches| ==> Low(batches[j]) <= Low(batches[i]))
  }

  /** All in the same direction. */
  ghost predicate Ordered(batches: seq<seq<Buf>>, down: bool) {
    Strict(batches) && forall i :: 0 <= i < |batches| ==> Descends(batches[i]) == down
  }

  /** Where the direction changes, the cut-off is the upper end of the batch before instead of its
      lower one. That does no harm if the batch has nothing in between. */
  ghost predicate Clear(batches: seq<seq<Buf>>, i: nat)
    requires 0 < i < |batches| && AllBatches(batches)
  {
    var b, before := batches[i], batches[i - 1];
    Descends(b) == Descends(before) || forall j :: 0 <= j < |b| ==> !(Low(before) <= b[j].ts < High(before))
  }

  ghost predicate AllClear(batches: seq<seq<Buf>>, n: nat)
    requires n <= |batches| && AllBatches(batches)
  {
    forall i :: 0 < i < n ==> Clear(batches, i)
  }

  ghost predicate Between(s: seq<Buf>, lo: nat, hi: nat) {
    forall i :: 0 <= i < |s| ==> lo <= s[i].ts < hi
  }

  ghost predicate AllAbove(s: seq<Buf>, lo: nat) {
    forall i :: 0 <= i < |s| ==> lo <= s[i].ts
  }

  ghost predicate AllUnder(s: seq<Buf>, hi: nat) {
    forall i :: 0 <= i < |s| ==> s[i].ts < hi
  }

  ghost predicate Has(s: seq<Buf>, ts: nat) {
    exists i :: 0 <= i < |s| && s[i].ts == ts
  }

  // ---- what a filter keeps ----

  lemma {:induction false} BelowKeeps(s: seq<Buf>, lo: nat, cut: nat)
    requires GoesDown(s) && AllAbove(s, lo)
    ensures GoesDown(Below(s, cut)) && Between(Below(s, cut), lo, cut)
    ensures s != [] ==> forall i :: 0 <= i < |Below(s, cut)| ==> Below(s, cut)[i].ts <= s[0].ts
  {
    if s != [] {
      BelowKeeps(s[1..], lo, cut);
    }
  }

  lemma {:induction false} BelowHas(s: seq<Buf>, cut: nat, ts: nat)
    ensures Has(Below(s, cut), ts) <==> Has(s, ts) && ts < cut
  {
    if s != [] {
      BelowHas(s[1..], cut, ts);
      var x := if s[0].ts < cut then [s[0]] else [];
      HasAppend(x, Below(s[1..], cut), ts);
      HasAppend([s[0]], s[1..], ts);
      assert s == [s[0]] + s[1..];
      assert [s[0]][0] == s[0];
    }
  }

  lemma {:induction false} HasAppend(a: seq<Buf>, b: seq<Buf>, ts: nat)
    ensures Has(a + b, ts) <==> Has(a, ts) || Has(b, ts)
  {
    if i :| 0 <= i < |a| && a[i].ts == ts {
      assert (a + b)[i] == a[i];
    }
    if i :| 0 <= i < |b| && b[i].ts == ts {
      assert (a + b)[|a| + i] == b[i];
    }
  }

  lemma {:induction false} OrderHas(b: seq<Buf>, down: bool, ts: nat)
    ensures Has(Order(b, down), ts) <==> Has(b, ts)
  {
    var r := Reversed(b);
    forall i | 0 <= i < |b| ensures r[i] == b[|b| - 1 - i] {
      ReversedAt(b, i);
    }
    if i :| 0 <= i < |b| && b[i].ts == ts {
      assert r[|b| - 1 - i].ts == ts;
    }
  }

  /** The ends of a batch are the ends of the order it is sent in. */
  lemma {:induction false} OrderEnds(b: seq<Buf>)
    requires b != [] && GoesDown(Order(b, Descends(b)))
    ensures var o := Order(b, Descends(b));
            |o| == |b| && o[0].ts == High(b) && o[|o| - 1].ts == Low(b) && AllAbove(o, Low(b))
  {
    ReversedAt(b, 0);
    ReversedAt(b, |b| - 1);
  }

  // ---- one batch of a run ----

  lemma {:induction false} CutIs(batches: seq<seq<Buf>>, i: nat)
    requires 0 < i < |batches| && AllBatches(batches)
    ensures var b, before := batches[i], batches[i - 1];
            Cut(batches, i) == if Descends(b) == Descends(before) then Low(before) else High(before)
  {
    assert IsBatch(batches[i - 1]);
  }

  /** What one batch sends out goes down and does not pass its own lower end. */
  lemma {:induction false} EmissionGoesDown(batches: seq<seq<Buf>>, i: nat)
    requires i < |batches| && Strict(batches)
    ensures GoesDown(Emission(batches, i)) && Between(Emission(batches, i), Low(batches[i]), Cut(batches, i))
  {
    OrderEnds(batches[i]);
    BelowKeeps(Order(batches[i], Descends(batches[i])), Low(batches[i]), Cut(batches, i));
  }

  lemma {:induction false} EmissionHas(batches: seq<seq<Buf>>, i: nat, ts: nat)
    requires i < |batches|
    ensures Has(Emission(batches, i), ts) <==> Has(batches[i], ts) && ts < Cut(batches, i)
  {
    var o := Order(batches[i], Descends(batches[i]));
    BelowHas(o, Cut(batches, i), ts);
    OrderHas(batches[i], Descends(batches[i]), ts);
  }

  lemma {:induction false} LowIsSent(batches: seq<seq<Buf>>, i: nat)
    requires i < |batches| && Strict(batches) && Low(batches[i]) < Cut(batches, i)
    ensures Has(Emission(batches, i), Low(batches[i]))
  {
    var b := batches[i];
    EmissionHas(batches, i, Low(b));
    assert Low(b) == b[0].ts || Low(b) == b[|b| - 1].ts;
  }

  /** A lower end that is not sent with its own batch is the lower end of the batch before it. */
  lemma {:induction false} LowIsSentOrSame(batches: seq<seq<Buf>>, i: nat)
    requires i < |batches| && Strict(batches) && Low(batches[i]) < NONE
    ensures Has(Emission(batches, i), Low(batches[i])) || (i > 0 && Low(batches[i]) == Low(batches[i - 1]))
  {
    if Low(batches[i]) < Cut(batches, i) {
      LowIsSent(batches, i);
    } else {
      CutIs(batches, i);
      OrderEnds(batches[i - 1]);
    }
  }

  /** A change of direction is clear if and only if nothing is sent out from the lower end of the
      batch before it on. */
  lemma {:induction false} ClearIff(batches: seq<seq<Buf>>, i: nat)
    requires 0 < i < |batches| && Strict(batches)
    ensures Clear(batches, i) <==> AllUnder(Emission(batches, i), Low(batches[i - 1]))
  {
    var b, low, e := batches[i], Low(batches[i - 1]), Emission(batches, i);
    CutIs(batches, i);
    if Clear(batches, i) {
      EmissionGoesDown(batches, i);
      forall k | 0 <= k < |e| ensures e[k].ts < low {
        EmissionHas(batches, i, e[k].ts);
      }
    } else {
      var j :| 0 <= j < |b| && low <= b[j].ts < High(batches[i - 1]);
      EmissionHas(batches, i, b[j].ts);
    }
  }

  // ---- what is sent one after the other ----

  /** Pieces that each go down to a lower end of their own; the lower ends do not rise, and each is
      in its piece or the same as the one before it. */
  ghost predicate Stairs(es: seq<seq<Buf>>, lows: seq<nat>) {
    && |es| == |lows|
    && (forall i :: 0 <= i < |es| ==> GoesDown(es[i]) && Between(es[i], lows[i], NONE))
    && (forall i, j :: 0 <= i < j < |lows| ==> lows[j] <= lows[i])
    && (forall i :: 0 <= i < |es| && lows[i] < NONE ==> Has(es[i], lows[i]) || SameAsBefore(lows, i))
  }

  ghost predicate SameAsBefore(lows: seq<nat>, i: nat)
    requires i < |lows|
  {
    i > 0 && lows[i] == lows[i - 1]
  }

  /** Every piece is below the lower end of the one before it. */
  ghost predicate Steep(es: seq<seq<Buf>>, lows: seq<nat>)
    requires |es| == |lows|
  {
    forall i :: 0 < i < |es| ==> UnderBefore(es, lows, i)
  }

  ghost predicate UnderBefore(es: seq<seq<Buf>>, lows: seq<nat>, i: nat)
    requires 0 < i < |es| == |lows|
  {
    AllUnder(es[i], lows[i - 1])
  }

  lemma {:induction false} StairsPrefix(es: seq<seq<Buf>>, lows: seq<nat>, n: nat)
    requires Stairs(es, lows) && n <= |es|
    ensures Stairs(es[..n], lows[..n]) && (Steep(es, lows) ==> Steep(es[..n], lows[..n]))
  {
    forall i | 0 <= i < n && lows[..n][i] < NONE ensures Has(es[..n][i], lows[..n][i]) || SameAsBefore(lows[..n], i) {
      assert Has(es[i], lows[i]) || SameAsBefore(lows, i);
    }
    if Steep(es, lows) {
      forall i | 0 < i < n ensures UnderBefore(es[..n], lows[..n], i) {
        assert UnderBefore(es, lows, i);
      }
    }
  }

  /** The last lower end is among what has been sent. */
  lemma {:induction false} StairsHaveLow(es: seq<seq<Buf>>, lows: seq<nat>)
    requires Stairs(es, lows) && es != [] && lows[|es| - 1] < NONE
    ensures Has(Flatten(es), lows[|es| - 1])
  {
    var n := |es| - 1;
    HasAppend(Flatten(es[..n]), es[n], lows[n]);
    if SameAsBefore(lows, n) {
      StairsPrefix(es, lows, n);
      StairsHaveLow(es[..n], lows[..n]);
    }
  }

  lemma {:induction false} StairsBelowNone(es: seq<seq<Buf>>, lows: seq<nat>)
    requires Stairs(es, lows)
    ensures Between(Flatten(es), if es == [] then NONE else lows[|es| - 1], NONE)
  {
    if es != [] {
      var n := |es| - 1;
      StairsPrefix(es, lows, n);
      StairsBelowNone(es[..n], lows[..n]);
    }
  }

  lemma {:induction false} DownAppend(a: seq<Buf>, b: seq<Buf>, mid: nat)
    requires GoesDown(a) && GoesDown(b) && AllUnder(b, mid) && AllAbove(a, mid)
    ensures GoesDown(a + b)
  {
  }

  lemma {:induction false} SteepGoesDown(es: seq<seq<Buf>>, lows: seq<nat>)
    requires Stairs(es, lows) && Steep(es, lows)
    ensures GoesDown(Flatten(es))
  {
    if es != [] {
      var n := |es| - 1;
      StairsPrefix(es, lows, n);
      SteepGoesDown(es[..n], lows[..n]);
      StairsBelowNone(es[..n], lows[..n]);
      if n > 0 {
        assert UnderBefore(es, lows, n);
        DownAppend(Flatten(es[..n]), es[n], lows[n - 1]);
      } else {
        assert Flatten(es) == es[n];
      }
    }
  }

  lemma {:induction false} DownPrefix(a: seq<Buf>, b: seq<Buf>)
    requires GoesDown(a + b)
    ensures GoesDown(a)
  {
    assert forall i :: 0 <= i < |a| ==> (a + b)[i] == a[i];
  }

  /** A piece that reaches up to the lower end before it comes behind that end. */
  lemma {:induction false} ReachesUp(a: seq<Buf>, b: seq<Buf>, mid: nat)
    requires Has(a, mid) && !AllUnder(b, mid)
    ensures !GoesDown(a + b)
  {
    var i :| 0 <= i < |a| && a[i].ts == mid;
    var j :| 0 <= j < |b| && b[j].ts >= mid;
    assert (a + b)[i] == a[i] && (a + b)[|a| + j] == b[j];
  }

  lemma {:induction false} StairsGoDownIff(es: seq<seq<Buf>>, lows: seq<nat>)
    requires Stairs(es, lows)
    ensures GoesDown(Flatten(es)) <==> Steep(es, lows)
  {
    if es != [] {
      var n := |es| - 1;
      StairsPrefix(es, lows, n);
      StairsGoDownIff(es[..n], lows[..n]);
      SteepOneMore(es, lows);
      if Steep(es, lows) {
        SteepGoesDown(es, lows);
      } else if n > 0 && !UnderBefore(es, lows, n) {
        StairsReachUp(es, lows);
      } else if GoesDown(Flatten(es[..n]) + es[n]) {
        DownPrefix(Flatten(es[..n]), es[n]);
      }
    }
  }

  lemma {:induction false} StairsReachUp(es: seq<seq<Buf>>, lows: seq<nat>)
    requires Stairs(es, lows) && |es| > 1 && !UnderBefore(es, lows, |es| - 1)
    ensures !GoesDown(Flatten(es))
  {
    var n := |es| - 1;
    assert Between(es[n], lows[n], NONE);
    StairsPrefix(es, lows, n);
    StairsHaveLow(es[..n], lows[..n]);
    ReachesUp(Flatten(es[..n]), es[n], lows[n - 1]);
  }

  lemma {:induction false} SteepOneMore(es: seq<seq<Buf>>, lows: seq<nat>)
    requires |es| == |lows| > 0
    ensures var n := |es| - 1;
            Steep(es, lows) <==> Steep(es[..n], lows[..n]) && (n > 0 ==> UnderBefore(es, lows, n))
  {
    var n := |es| - 1;
    forall i | 0 < i < n ensures UnderBefore(es[..n], lows[..n], i) <==> UnderBefore(es, lows, i) {
    }
  }

  lemma {:induction false} LeastIsLast(s: seq<Buf>, low: nat)
    requires GoesDown(s) && AllAbove(s, low) && Has(s, low)
    ensures s != [] && s[|s| - 1].ts == low
  {
    var k :| 0 <= k < |s| && s[k].ts == low;
    assert s[|s| - 1].ts >= low;
  }

  lemma {:induction false} SomeBetween(s: seq<Buf>, lo: nat, hi: nat)
    requires s != [] && Between(s, lo, hi)
    ensures lo < hi
  {
    assert lo <= s[0].ts < hi;
  }

  /** Down to the last lower end, if anything has been sent. */
  lemma {:induction false} StairsEnd(es: seq<seq<Buf>>, lows: seq<nat>)
    requires Stairs(es, lows) && es != [] && GoesDown(Flatten(es))
    ensures var s, low := Flatten(es), lows[|es| - 1];
            if low >= NONE then s == [] else s != [] && s[|s| - 1].ts == low
  {
    var s, low := Flatten(es), lows[|es| - 1];
    StairsBelowNone(es, lows);
    if s != [] {
      SomeBetween(s, low, NONE);
    }
    if low < NONE {
      StairsHaveLow(es, lows);
      LeastIsLast(s, low);
    }
  }

  // ---- all batches of a run ----

  function Emissions(batches: seq<seq<Buf>>, n: nat): (es: seq<seq<Buf>>)
    requires n <= |batches|
    ensures |es| == n && forall i :: 0 <= i < n ==> es[i] == Emission(batches, i)
  {
    seq(n, i requires 0 <= i < n => Emission(batches, i))
  }

  function Lows(batches: seq<seq<Buf>>, n: nat): (lows: seq<nat>)
    requires n <= |batches| && AllBatches(batches)
    ensures |lows| == n && forall i :: 0 <= i < n ==> lows[i] == Low(batches[i])
  {
    seq(n, i requires 0 <= i < n => Low(batches[i]))
  }

  lemma {:induction false} SentIsFlat(batches: seq<seq<Buf>>, n: nat)
    requires n <= |batches|
    ensures Sent(batches, n) == Flatten(Emissions(batches, n))
  {
    if n != 0 {
      SentIsFlat(batches, n - 1);
      FlatOneMore(Emissions(batches, n - 1), Emissions(batches, n));
    }
  }

  lemma {:induction false} FlatOneMore(a: seq<seq<Buf>>, b: seq<seq<Buf>>)
    requires |b| == |a| + 1 && forall i :: 0 <= i < |a| ==> a[i] == b[i]
    ensures Flatten(b) == Flatten(a) + b[|a|]
  {
    assert b[..|a|] == a;
  }

  lemma {:induction false} EmissionsAreStairs(batches: seq<seq<Buf>>, n: nat)
    requires n <= |batches| && Strict(batches)
    ensures Stairs(Emissions(batches, n), Lows(batches, n))
  {
    var es, lows := Emissions(batches, n), Lows(batches, n);
    forall i | 0 <= i < n ensures GoesDown(es[i]) && Between(es[i], lows[i], NONE) {
      EmissionGoesDown(batches, i);
    }
    forall i | 0 <= i < n && lows[i] < NONE ensures Has(es[i], lows[i]) || SameAsBefore(lows, i) {
      LowIsSentOrSame(batches, i);
    }
  }

  lemma {:induction false} SteepIsClear(batches: seq<seq<Buf>>, n: nat)
    requires n <= |batches| && Strict(batches)
    ensures Steep(Emissions(batches, n), Lows(batches, n)) <==> AllClear(batches, n)
  {
    var es, lows := Emissions(batches, n), Lows(batches, n);
    forall i | 0 < i < n ensures UnderBefore(es, lows, i) <==> Clear(batches, i) {
      ClearIff(batches, i);
    }
  }

  /** What the first n batches send out at discontinuities has strictly decreasing time stamps if
      and only if every change of direction among them is clear. */
  lemma {:induction false} SentGoesDownIff(batches: seq<seq<Buf>>, n: nat)
    requires n <= |batches| && Strict(batches)
    ensures GoesDown(Sent(batches, n)) <==> AllClear(batches, n)
  {
    SentIsFlat(batches, n);
    EmissionsAreStairs(batches, n);
    SteepIsClear(batches, n);
    StairsGoDownIff(Emissions(batches, n), Lows(batches, n));
  }

  /** Over the whole run, whatever the directions of its batches. */
  lemma {:induction false} RunGoesDownIff(batches: seq<seq<Buf>>)
    requires batches != [] && Strict(batches)
    ensures GoesDown(Play(Initial(), Flatten(batches)).out) <==> AllClear(batches, |batches| - 1)
  {
    RunOut(batches);
    SentGoesDownIff(batches, |batches| - 1);
  }

  lemma {:induction false} RunOut(batches: seq<seq<Buf>>)
    requires batches != [] && AllBatches(batches)
    ensures Play(Initial(), Flatten(batches)).out == Sent(batches, |batches| - 1)
  {
    RunSends(batches);
  }

  /** So always in a run of one direction. */
  lemma {:induction false} RunGoesDown(batches: seq<seq<Buf>>, down: bool)
    requires batches != [] && Ordered(batches, down)
    ensures GoesDown(Play(Initial(), Flatten(batches)).out)
  {
    RunGoesDownIff(batches);
  }

  // ---- the end of the stream ----

  function Ended(batches: seq<seq<Buf>>): seq<Buf> {
    DrainAll(Play(Initial(), Flatten(batches)), Always(), 0).out
  }

  lemma {:induction false} DownAppendIff(a: seq<Buf>, b: seq<Buf>)
    requires b != []
    ensures GoesDown(a + b) <==> GoesDown(a) && GoesDown(b) && (a == [] || b[0].ts < a[|a| - 1].ts)
  {
    if a == [] {
      assert a + b == b;
    } else if GoesDown(a + b) {
      DownParts(a, b);
    } else if GoesDown(a) && GoesDown(b) && b[0].ts < a[|a| - 1].ts {
      DownAppend(a, b, a[|a| - 1].ts);
    }
  }

  lemma {:induction false} DownParts(a: seq<Buf>, b: seq<Buf>)
    requires b != [] && GoesDown(a + b)
    ensures GoesDown(a) && GoesDown(b) && (a == [] || b[0].ts < a[|a| - 1].ts)
  {
    var s, k := a + b, |a|;
    DownPrefix(a, b);
    assert forall i :: 0 <= i < |b| ==> s[k + i] == b[i];
    if a != [] {
      assert s[k - 1] == a[k - 1] && s[k] == b[0];
    }
  }

  /** The end of the stream goes on in the direction of the last batch but one. */
  lemma {:induction false} EndedIs(batches: seq<seq<Buf>>)
    requires |batches| > 1 && AllBatches(batches)
    ensures var n := |batches|;
            Ended(batches) == Sent(batches, n - 1) + Order(batches[n - 1], Descends(batches[n - 2]))
  {
    RunSends(batches);
    DrainAllIsOrder(Play(Initial(), Flatten(batches)), 0);
  }

  /** The last time stamp that has been sent is the lower end of the last batch whose turn is over;
      nothing has been sent if that end is not a time. */
  lemma {:induction false} LastSent(batches: seq<seq<Buf>>, n: nat)
    requires 0 < n <= |batches| && Strict(batches) && AllClear(batches, n)
    ensures var s := Sent(batches, n);
            if Low(batches[n - 1]) == NONE then s == [] else s != [] && s[|s| - 1].ts == Low(batches[n - 1])
  {
    SentGoesDownIff(batches, n);
    SentIsFlat(batches, n);
    EmissionsAreStairs(batches, n);
    StairsEnd(Emissions(batches, n), Lows(batches, n));
  }

  /** A batch that is sent in the wrong direction goes up, unless it is a single buffer. */
  lemma {:induction false} WrongWayUp(b: seq<Buf>, down: bool)
    requires b != [] && GoesDown(Order(b, Descends(b)))
    ensures GoesDown(Order(b, down)) <==> |b| == 1 || down == Descends(b)
    ensures GoesDown(Order(b, down)) ==> Order(b, down)[0].ts == High(b)
  {
    OrderEnds(b);
    ReversedAt(b, 0);
    ReversedAt(b, |b| - 1);
  }

  /** At the end of the stream the last batch is sent out without a cut-off, in the direction of the
      one before it. So time stamps go down to the very end if and only if every earlier change of
      direction is clear, the last batch has the direction of the one before it or is a single
      buffer, and it ends below the lower end of the one before it. */
  lemma {:induction false} EndGoesDownIff(batches: seq<seq<Buf>>)
    requires |batches| > 1 && Strict(batches)
    ensures var n := |batches|;
            var last, before := batches[n - 1], batches[n - 2];
            GoesDown(Ended(batches)) <==>
              && AllClear(batches, n - 1)
              && (|last| == 1 || Descends(last) == Descends(before))
              && (Low(before) == NONE || High(last) < Low(before))
  {
    var n := |batches|;
    var before := batches[n - 2];
    EndedIs(batches);
    SentGoesDownIff(batches, n - 1);
    if AllClear(batches, n - 1) {
      LastSent(batches, n - 1);
    }
    LastGoesDownIff(Sent(batches, n - 1), AllClear(batches, n - 1), Low(before), batches[n - 1], Descends(before));
  }

  lemma {:induction false} LastGoesDownIff(s: seq<Buf>, clear: bool, low: nat, last: seq<Buf>, down: bool)
    requires GoesDown(s) <==> clear
    requires clear ==> if low == NONE then s == [] else s != [] && s[|s| - 1].ts == low
    requires last != [] && GoesDown(Order(last, Descends(last)))
    ensures GoesDown(s + Order(last, down)) <==>
              clear && (|last| == 1 || Descends(last) == down) && (low == NONE || High(last) < low)
  {
    WrongWayUp(last, down);
    DownAppendIff(s, Order(last, down));
  }

  lemma {:induction false} EndOfFirstBatch(b: seq<Buf>)
    requires IsBatch(b)
    ensures Ended([b]) == Reversed(b)
  {
    assert Flatten([b]) == b by {
      assert [b][..0] == [];
      assert [] + b == b;
    }
    FirstBatch(Initial(), b);
    DrainAllIsOrder(Initial().(queue := b), 0);
    assert [] + Reversed(b) == Reversed(b);
  }

  /** A stream that ends within its first batch is always emptied from its newest end, whatever its
      direction; for a batch that arrived in reverse order that is the wrong one. */
  lemma {:induction false} EndOfFirstBatchIff(b: seq<Buf>)
    requires IsBatch(b) && GoesDown(Order(b, Descends(b)))
    ensures Ended([b]) == Reversed(b) && (GoesDown(Ended([b])) <==> !Descends(b))
  {
    EndOfFirstBatch(b);
    if Descends(b) {
      ReversedAt(b, 0);
      ReversedAt(b, |b| - 1);
      assert Reversed(b)[0].ts < Reversed(b)[|b| - 1].ts;
    }
  }

  /** A change of direction that is not clear: here the second batch, which ascends, is cut off at
      the upper end of the first one, which descends, and a time stamp comes twice. */
  lemma {:induction false} DirectionsMustAgree(a: seq<Buf>, b: seq<Buf>)
    requires a == [Buf(9, 1, 1, true), Buf(5, 1, 1, false)] && b == [Buf(4, 1, 1, true), Buf(5, 1, 1, false)]
    ensures IsBatch(a) && IsBatch(b) && Low(b) <= Low(a)
    ensures GoesDown(Order(a, Descends(a))) && GoesDown(Order(b, Descends(b))) && !GoesDown(Sent([a, b, b], 2))
    ensures AllBatches([a, b, b]) && !Clear([a, b, b], 1)
  {
    ReversedAt(b, 0);
    ReversedAt(b, 1);
    assert Reversed(b) == [b[1], b[0]];
    BelowBoth(b[1], b[0], 9);
    BelowBoth(a[0], a[1], NONE);
    assert a == [a[0], a[1]];
    var batches := [a, b, b];
    NotClearAt(batches, 1, 1);
    assert Emission(batches, 0) == a && Emission(batches, 1) == [b[1], b[0]];
    assert Sent(batches, 1) == [] + a;
    assert Sent(batches, 2) == [] + a + [b[1], b[0]];
    assert Sent(batches, 2)[1].ts == 5 && Sent(batches, 2)[2].ts == 5;
  }

  lemma {:induction false} NotClearAt(batches: seq<seq<Buf>>, i: nat, j: nat)
    requires 0 < i < |batches| && AllBatches(batches) && Descends(batches[i]) != Descends(batches[i - 1])
    requires j < |batches[i]| && Low(batches[i - 1]) <= batches[i][j].ts < High(batches[i - 1])
    ensures !Clear(batches, i)
  {
  }

  lemma {:induction false} BelowBoth(x: Buf, y: Buf, cut: nat)
    requires x.ts < cut && y.ts < cut
    ensures Below([x, y], cut) == [x, y]
  {
    BelowCons(x, [y], cut);
    BelowCons(y, [], cut);
    assert [x] + [y] == [x, y] && [y] + [] == [y];
  }
}
