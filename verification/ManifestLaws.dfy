/** What the timeline operations add up to: start times as sums of durations, exactly-once
    delivery, and seeks that bracket their target. */
module ManifestLaws {
  import opened Common
  import opened Manifest
  import opened UrlTemplate

  // ---- the parsed timeline ----

  function SumDur(frags: seq<Fragment>, i: nat, j: nat): nat
    requires i <= j <= |frags|
  {
    if i == j then 0 else SumDur(frags, i, j - 1) + frags[j - 1].dur
  }

  lemma {:induction false} SumDurPrefix(a: seq<Fragment>, b: seq<Fragment>, i: nat, j: nat)
    requires i <= j <= |a| && a <= b
    ensures SumDur(a, i, j) == SumDur(b, i, j)
  {
    if i < j {
      SumDurPrefix(a, b, i, j - 1);
    }
  }

  /** A node with a duration, or with a time and another node behind it. */
  predicate Accepted(x: Node) {
    x.d != NONE || (x.t != NONE && x.hasNext)
  }

  /** One more node. */
  lemma {:induction false} ParsedOneMore(s: Stream, xs: seq<Node>, x: Node)
    requires |s.frags| == |xs| && s.duration == SumDur(s.frags, 0, |s.frags|) % U64
    requires forall k :: 0 <= k < |xs| ==> ParsedFragment(s.frags, xs, k)
    ensures ParseNode(s, x).Some? <==> Accepted(x)
    ensures Accepted(x) ==>
              var r := ParseNode(s, x).value;
              && r.duration == SumDur(r.frags, 0, |r.frags|) % U64 && |r.frags| == |xs| + 1
              && forall k :: 0 <= k < |xs| + 1 ==> ParsedFragment(r.frags, xs + [x], k)
  {
    if Accepted(x) {
      var r := ParseNode(s, x).value;
      ParsedSum(s, x);
      forall k | 0 <= k < |xs| + 1 ensures ParsedFragment(r.frags, xs + [x], k) {
        assert r.frags[..k] == s.frags[..k];
        if k < |xs| {
          assert ParsedFragment(s.frags, xs, k);
        }
      }
    }
  }

  lemma {:induction false} ParsedSum(s: Stream, x: Node)
    requires s.duration == SumDur(s.frags, 0, |s.frags|) % U64 && ParseNode(s, x).Some?
    ensures var r := ParseNode(s, x).value; r.duration == SumDur(r.frags, 0, |r.frags|) % U64
  {
    SumDurPrefix(s.frags, ParseNode(s, x).value.frags, 0, |s.frags|);
  }

  /** Exactly the lists of accepted nodes are parsed. Every fragment keeps its node's number; its
      time is the node's, or else where the fragment before it ends; its duration is the node's,
      or else 0; and the stream's duration is the sum of the durations. */
  lemma {:induction false} ParsedNodes(v: bool, xs: seq<Node>)
    ensures ParseNodes(v, xs).Some? <==> forall k :: 0 <= k < |xs| ==> Accepted(xs[k])
    ensures ParseNodes(v, xs).Some? ==>
              var s := ParseNodes(v, xs).value;
              && |s.frags| == |xs| && s.cursor == 0 && !s.eos && s.isVideo == v
              && s.duration == SumDur(s.frags, 0, |s.frags|) % U64
              && forall k :: 0 <= k < |xs| ==> ParsedFragment(s.frags, xs, k)
  {
    if xs != [] {
      var n := |xs| - 1;
      ParsedNodes(v, xs[..n]);
      assert xs == xs[..n] + [xs[n]];
      assert forall k :: 0 <= k < n ==> xs[..n][k] == xs[k];
      if ParseNodes(v, xs[..n]).Some? {
        ParsedOneMore(ParseNodes(v, xs[..n]).value, xs[..n], xs[n]);
      }
    }
  }

  ghost predicate ParsedFragment(frags: seq<Fragment>, xs: seq<Node>, k: nat)
    requires |frags| == |xs| && k < |xs|
  {
    frags[k] == Fragment(xs[k].n, if xs[k].d != NONE then xs[k].d else 0,
                         if xs[k].t != NONE then xs[k].t else NextTime(frags[..k]))
  }

  /** Behind a fragment j, as long as no node carries a time of its own, every fragment starts at
      j's time plus the durations in between. */
  lemma {:induction false} TimesAreSums(v: bool, xs: seq<Node>, j: nat, k: nat)
    requires ParseNodes(v, xs).Some? && j <= k < |xs|
    requires forall i :: j < i <= k ==> xs[i].t == NONE
    ensures var f := ParseNodes(v, xs).value.frags;
            |f| == |xs| && f[k].time == (f[j].time + SumDur(f, j, k)) % U64
  {
    ParsedNodes(v, xs);
    var f := ParseNodes(v, xs).value.frags;
    assert ParsedFragment(f, xs, k);
    if j < k {
      TimesAreSums(v, xs, j, k - 1);
      assert Last(f[..k]) == f[k - 1];
      SumWraps(f[j].time + SumDur(f, j, k - 1), f[k - 1].dur);
    }
  }

  /** [MS-SSTR] section 2.2.2.6, for manifests in which every fragment has a duration and only the
      first one may have a time. */
  lemma {:induction false} StartsAreSums(v: bool, xs: seq<Node>, k: nat)
    requires k < |xs|
    requires (forall i :: 0 <= i < |xs| ==> xs[i].d != NONE) && (forall i :: 1 <= i < |xs| ==> xs[i].t == NONE)
    ensures ParseNodes(v, xs).Some?
    ensures var f := ParseNodes(v, xs).value.frags;
            && |f| == |xs|
            && f[k].time == ((if xs[0].t == NONE then 0 else xs[0].t) + SumDur(f, 0, k)) % U64
            && forall i :: 0 <= i < |xs| ==> f[i].dur == xs[i].d
  {
    ParsedNodes(v, xs);
    var f := ParseNodes(v, xs).value.frags;
    TimesAreSums(v, xs, 0, k);
    assert ParsedFragment(f, xs, 0);
    forall i | 0 <= i < |xs| ensures f[i].dur == xs[i].d {
      assert ParsedFragment(f, xs, i);
    }
  }

  /** A node with a time and no duration should last until the next node's time; it does exactly
      if the next node has the same time. */
  lemma {:induction false} TimeOnlyDurationIff(v: bool, xs: seq<Node>, k: nat)
    requires ParseNodes(v, xs).Some? && k + 1 < |xs|
    requires xs[k].d == NONE && xs[k + 1].t != NONE && xs[k].t <= xs[k + 1].t
    ensures var f := ParseNodes(v, xs).value.frags;
            |f| == |xs| && (f[k].dur == xs[k + 1].t - xs[k].t <==> xs[k + 1].t == xs[k].t)
  {
    ParsedNodes(v, xs);
    assert ParsedFragment(ParseNodes(v, xs).value.frags, xs, k);
  }

  // ---- live extension ----

  ghost predicate Increasing(frags: seq<Fragment>, from: nat) {
    forall i, j :: from <= i < j < |frags| ==> frags[i].time < frags[j].time
  }

  /** The stream's duration is the sum of the durations of its list. */
  ghost predicate Summed(s: Stream) {
    s.duration == SumDur(s.frags, 0, |s.frags|) % U64
  }

  lemma {:induction false} AppendKeeps(s: Stream, time: Word, dur: Word, from: nat)
    requires s.Valid()
    ensures var r := Append(s, time, dur);
            && r.Valid() && s.frags <= r.frags && (Summed(s) ==> Summed(r))
            && (Increasing(s.frags, from) && from < |s.frags| ==> Increasing(r.frags, from))
  {
    AppendKeepsSum(s, time, dur);
    AppendKeepsOrder(s, time, dur, from);
  }

  lemma {:induction false} AppendKeepsSum(s: Stream, time: Word, dur: Word)
    requires s.Valid()
    ensures Summed(s) ==> Summed(Append(s, time, dur))
  {
    var r := Append(s, time, dur);
    if r != s {
      SumDurPrefix(s.frags, r.frags, 0, |s.frags|);
      SumWraps(SumDur(s.frags, 0, |s.frags|), Last(r.frags).dur);
    }
  }

  lemma {:induction false} AppendKeepsOrder(s: Stream, time: Word, dur: Word, from: nat)
    requires s.Valid()
    ensures Increasing(s.frags, from) && from < |s.frags| ==> Increasing(Append(s, time, dur).frags, from)
  {
  }

  /** What entry i of a list of newer and newer fragments becomes: a fragment with the given duration, or
      one as long as the gap to the fragment before it. */
  ghost predicate AnnouncedAs(s: Stream, ps: seq<Param>, frags: seq<Fragment>, i: nat)
    requires s.frags != [] && i < |ps| && |frags| == |s.frags| + |ps|
  {
    var before := if i == 0 then Last(s.frags).time else ps[i - 1].time;
    frags[|s.frags| + i] == Fragment(0, if ps[i].dur == NONE then (ps[i].time as int - before) % U64 else ps[i].dur,
                                     ps[i].time)
  }

  /** Every entry is newer than the one before it, and the first one newer than the list. */
  ghost predicate NewerAndNewer(s: Stream, ps: seq<Param>)
    requires s.frags != []
  {
    forall i :: 0 <= i < |ps| ==> NewerAt(s, ps, i)
  }

  ghost predicate NewerAt(s: Stream, ps: seq<Param>, i: nat)
    requires s.frags != [] && i < |ps|
  {
    (if i == 0 then Last(s.frags).time else ps[i - 1].time) < ps[i].time
  }

  /** The list as it is announced: every entry becomes one fragment, behind all others. */
  lemma {:induction false} AnnouncedList(s: Stream, ps: seq<Param>)
    requires s.frags != [] && NewerAndNewer(s, ps)
    ensures var f := AppendAll(s, ps).frags;
            && |f| == |s.frags| + |ps| && s.frags <= f
            && Last(f).time == (if ps == [] then Last(s.frags).time else ps[|ps| - 1].time)
            && forall i :: 0 <= i < |ps| ==> AnnouncedAs(s, ps, f, i)
  {
    if ps != [] {
      var n := |ps| - 1;
      forall i | 0 <= i < n ensures NewerAt(s, ps[..n], i) {
        assert NewerAt(s, ps, i);
      }
      assert NewerAt(s, ps, n);
      AnnouncedList(s, ps[..n]);
      var f, g := AppendAll(s, ps).frags, AppendAll(s, ps[..n]).frags;
      forall i | 0 <= i < |ps| ensures AnnouncedAs(s, ps, f, i) {
        assert i < n ==> AnnouncedAs(s, ps[..n], g, i);
      }
    }
  }

  lemma {:induction false} AppendAllAppend(s: Stream, a: seq<Param>, b: seq<Param>)
    requires s.frags != []
    ensures AppendAll(s, a + b) == AppendAll(AppendAll(s, a), b)
  {
    if b == [] {
      assert a + b == a;
    } else {
      assert (a + b)[..|a + b| - 1] == a + b[..|b| - 1];
      AppendAllAppend(s, a, b[..|b| - 1]);
    }
  }

  /** Nothing in the list is newer than the last fragment then. */
  lemma {:induction false} LastIsNewest(s: Stream, ps: seq<Param>)
    requires s.frags != []
    ensures var last := Last(AppendAll(s, ps).frags).time;
            Last(s.frags).time <= last && forall p :: p in ps ==> p.time <= last
  {
    if ps != [] {
      LastIsNewest(s, ps[..|ps| - 1]);
      assert ps == ps[..|ps| - 1] + [ps[|ps| - 1]];
    }
  }

  lemma {:induction false} OldChangesNothing(s: Stream, ps: seq<Param>)
    requires s.frags != [] && forall p :: p in ps ==> p.time <= Last(s.frags).time
    ensures AppendAll(s, ps) == s
  {
    if ps != [] {
      OldChangesNothing(s, ps[..|ps| - 1]);
      assert ps[|ps| - 1] in ps;
    }
  }

  /** Every live fragment announces a few of the fragments behind it, so the lists overlap. However
      the list of all fragments to come is cut into two that overlap or touch, the stream ends up
      as if every fragment had been announced once. */
  lemma {:induction false} OverlapAddsNothing(s: Stream, all: seq<Param>, k: nat, m: nat, n: nat)
    requires s.frags != [] && k <= m <= n <= |all|
    ensures AppendAll(AppendAll(s, all[..m]), all[k..n]) == AppendAll(s, all[..n])
  {
    var r := AppendAll(s, all[..m]);
    assert all[k..n] == all[k..m] + all[m..n] && all[..n] == all[..m] + all[m..n];
    AppendAllAppend(r, all[k..m], all[m..n]);
    AppendAllAppend(s, all[..m], all[m..n]);
    LastIsNewest(s, all[..m]);
    forall p | p in all[k..m] ensures p.time <= Last(r.frags).time {
      assert p in all[..m];
    }
    OldChangesNothing(r, all[k..m]);
  }

  // ---- runs of a live stream ----

  datatype Event = Get | Wake | Announce(time: Word, dur: Word)

  /** A stream, whether its consumer waits, whether its cursor has run off the list, and what the
      consumer has been given. */
  datatype Run = Run(s: Stream, waiting: bool, lost: bool, got: seq<Fragment>)

  /** A step of the run. A consumer that waits cannot ask; one that does not wait cannot wake up. */
  function Step(r: Run, e: Event): (r': Run)
    requires r.s.Valid()
    ensures r'.s.Valid()
  {
    if r.lost then r
    else
      match e
      case Announce(time, dur) => r.(s := Append(r.s, time, dur))
      case Get =>
        if r.waiting then r
        else
          var (s, g) := Ask(r.s, true);
          if g == Blocked then r.(s := s, waiting := true) else r.(s := s, got := r.got + [g.fragment])
      case Wake =>
        if !r.waiting then r
        else
          var (s, g) := Resume(r.s);
          if g == NoFragment then r.(s := s, lost := true)
          else r.(s := s, waiting := false, got := r.got + [g.fragment])
  }

  function Play(s: Stream, es: seq<Event>): (r: Run)
    requires s.Valid()
    ensures r.s.Valid()
  {
    if es == [] then Run(s, false, false, []) else Step(Play(s, es[..|es| - 1]), es[|es| - 1])
  }

  /** The consumer has been woken up out of a wait during the run. */
  ghost predicate Woken(s: Stream, es: seq<Event>)
    requires s.Valid()
  {
    && es != []
    && (Woken(s, es[..|es| - 1])
        || (es[|es| - 1] == Wake && Play(s, es[..|es| - 1]).waiting && !Play(s, es[..|es| - 1]).lost))
  }

  /** Everything handed out is the list from place c on, each fragment once and in order. */
  ghost predicate InOrder(r: Run, c: nat) {
    !r.lost && c + |r.got| <= |r.s.frags| && r.got == r.s.frags[c..c + |r.got|]
  }

  /** End-of-list set: the cursor's element is the last one and was handed out. Clear: everything
      in front of the cursor was handed out, and the cursor's element was not. */
  ghost predicate AtCursor(r: Run, c: nat) {
    if r.s.eos then r.s.cursor == |r.s.frags| - 1 && c + |r.got| == |r.s.frags|
    else c + |r.got| == r.s.cursor
  }

  /** What is left of it after a wake-up: the cursor is too far, and something was skipped. */
  ghost predicate Skipped(r: Run, c: nat) {
    && c + |r.got| <= (if r.s.eos then r.s.cursor + 1 else r.s.cursor) <= |r.s.frags|
    && (r.s.eos ==> r.s.cursor + 1 == |r.s.frags|)
    && exists k :: 0 <= k < |r.got| && r.got[k] != r.s.frags[c + k]
  }

  lemma {:induction false} StepInOrder(r: Run, e: Event, c: nat)
    requires r.s.Valid() && InOrder(r, c) && AtCursor(r, c)
    requires !(e == Wake && r.waiting)
    ensures InOrder(Step(r, e), c) && AtCursor(Step(r, e), c)
  {
    var r' := Step(r, e);
    var n := c + |r.got|;
    assert r.s.frags <= r'.s.frags;
    assert r'.s.frags[c..n] == r.s.frags[c..n];
    if |r'.got| > |r.got| {
      assert r'.s.frags[c..n + 1] == r'.s.frags[c..n] + [r'.s.frags[n]];
    }
  }

  lemma {:induction false} WakeSkips(r: Run, c: nat)
    requires r.s.Valid() && InOrder(r, c) && AtCursor(r, c) && r.waiting
    requires !r.s.eos ==> Increasing(r.s.frags, r.s.cursor)
    ensures Step(r, Wake).lost || Skipped(Step(r, Wake), c)
  {
    var r' := Step(r, Wake);
    if !r'.lost {
      var k := |r.got|;
      assert r'.got[k] == r.s.frags[r.s.cursor + 1];
      assert r.s.frags[r.s.cursor].time < r.s.frags[r.s.cursor + 1].time;
    }
  }

  /** A wake-up steps over exactly one fragment: the consumer is given the second one that it has not been
      given, and runs off the list if there is no second one. */
  lemma {:induction false} WakeGivesSecond(r: Run, c: nat)
    requires r.s.Valid() && InOrder(r, c) && AtCursor(r, c) && r.waiting
    ensures var n, q := c + |r.got|, Step(r, Wake);
            && (q.lost <==> |r.s.frags| <= n + 1)
            && (!q.lost ==> q.got == r.got + [r.s.frags[n + 1]] && !q.waiting && q.s.frags == r.s.frags
                            && (q.s.eos <==> |r.s.frags| == n + 2) && (!q.s.eos ==> q.s.cursor == n + 2))
  {
  }

  lemma {:induction false} SkippedIsOutOfOrder(r: Run, c: nat)
    requires Skipped(r, c)
    ensures !InOrder(r, c)
  {
    var k :| 0 <= k < |r.got| && r.got[k] != r.s.frags[c + k];
    assert r.s.frags[c..c + |r.got|][k] == r.s.frags[c + k];
  }

  lemma {:induction false} SkippedStays(r: Run, e: Event, c: nat)
    requires r.s.Valid() && (r.lost || Skipped(r, c))
    ensures Step(r, e).lost || Skipped(Step(r, e), c)
  {
    var r' := Step(r, e);
    if !r'.lost {
      var k :| 0 <= k < |r.got| && r.got[k] != r.s.frags[c + k];
      assert r'.got[k] == r.got[k] && r'.s.frags[c + k] == r.s.frags[c + k];
    }
  }

  lemma {:induction false} PlayGrows(s: Stream, es: seq<Event>)
    requires s.Valid()
    ensures var r := Play(s, es);
            && s.frags <= r.s.frags && r.s.cursor >= s.cursor
            && (Increasing(s.frags, s.cursor) ==> Increasing(r.s.frags, s.cursor))
  {
    if es != [] {
      var n := |es| - 1;
      PlayGrows(s, es[..n]);
      StepGrows(Play(s, es[..n]), es[n], s.cursor);
    }
  }

  lemma {:induction false} StepGrows(r: Run, e: Event, from: nat)
    requires r.s.Valid() && from < |r.s.frags|
    ensures var q := Step(r, e);
            && r.s.frags <= q.s.frags && r.s.cursor <= q.s.cursor
            && (Increasing(r.s.frags, from) ==> Increasing(q.s.frags, from))
  {
    if e.Announce? {
      AppendKeeps(r.s, e.time, e.dur, from);
    }
  }

  lemma {:induction false} PlayInOrder(s: Stream, es: seq<Event>)
    requires s.Valid() && !s.eos && !Woken(s, es)
    ensures InOrder(Play(s, es), s.cursor) && AtCursor(Play(s, es), s.cursor)
  {
    if es != [] {
      var n := |es| - 1;
      PlayInOrder(s, es[..n]);
      StepInOrder(Play(s, es[..n]), es[n], s.cursor);
    }
  }

  lemma {:induction false} PlaySkips(s: Stream, es: seq<Event>)
    requires s.Valid() && !s.eos && Woken(s, es) && Increasing(s.frags, s.cursor)
    ensures Play(s, es).lost || Skipped(Play(s, es), s.cursor)
  {
    var n := |es| - 1;
    var p := Play(s, es[..n]);
    if Woken(s, es[..n]) {
      PlaySkips(s, es[..n]);
      SkippedStays(p, es[n], s.cursor);
    } else {
      PlayInOrder(s, es[..n]);
      PlayGrows(s, es[..n]);
      WakeSkips(p, s.cursor);
    }
  }

  /** Whatever the order of announcements and requests: from the first cursor on every fragment is
      handed out exactly once and in order if the consumer was never woken out of a wait, and on a
      timeline with increasing times only then; and in that case what was not yet handed out is what
      stands from the cursor on. A live stream starts at its last fragment, where increasing times
      ask for nothing. */
  lemma {:induction false} DeliveredOnceIff(s: Stream, es: seq<Event>)
    requires s.Valid() && !s.eos
    ensures !Woken(s, es) ==> InOrder(Play(s, es), s.cursor) && AtCursor(Play(s, es), s.cursor)
    ensures Increasing(s.frags, s.cursor) ==> (InOrder(Play(s, es), s.cursor) <==> !Woken(s, es))
  {
    if !Woken(s, es) {
      PlayInOrder(s, es);
    } else if Increasing(s.frags, s.cursor) {
      PlaySkips(s, es);
      if !Play(s, es).lost {
        SkippedIsOutOfOrder(Play(s, es), s.cursor);
      }
    }
  }

  /** Every request of the run finds a fragment: an announcement always came first. */
  ghost predicate Prompt(s: Stream, es: seq<Event>)
    requires s.Valid()
  {
    es == [] || (Prompt(s, es[..|es| - 1]) && (es[|es| - 1] == Get ==> !Play(s, es[..|es| - 1]).s.eos))
  }

  /** If announcements come before requests, delivery is exactly once and in order. */
  lemma {:induction false} PromptIsNeverWoken(s: Stream, es: seq<Event>)
    requires s.Valid() && Prompt(s, es)
    ensures !Woken(s, es) && !Play(s, es).waiting
  {
    if es != [] {
      PromptIsNeverWoken(s, es[..|es| - 1]);
    }
  }

  lemma {:induction false} StepKeepsSum(r: Run, e: Event)
    requires r.s.Valid() && Summed(r.s)
    ensures Summed(Step(r, e).s)
  {
    if e.Announce? {
      AppendKeeps(r.s, e.time, e.dur, 0);
    }
  }

  lemma {:induction false} PlayKeepsSum(s: Stream, es: seq<Event>)
    requires s.Valid() && Summed(s)
    ensures Summed(Play(s, es).s)
  {
    if es != [] {
      PlayKeepsSum(s, es[..|es| - 1]);
      StepKeepsSum(Play(s, es[..|es| - 1]), es[|es| - 1]);
    }
  }

  lemma {:induction false} AppendAllKeepsSum(s: Stream, ps: seq<Param>)
    requires s.Valid() && Summed(s)
    ensures AppendAll(s, ps).Valid() && Summed(AppendAll(s, ps))
  {
    if ps != [] {
      AppendAllKeepsSum(s, ps[..|ps| - 1]);
      AppendKeeps(AppendAll(s, ps[..|ps| - 1]), ps[|ps| - 1].time, ps[|ps| - 1].dur, 0);
    }
  }

  /** In every state behind parsing, wherever the cursor starts, any look-ahead list and any run of
      announcements, requests and wake-ups: the stream's duration is the sum over its whole list. */
  lemma {:induction false} DurationIsSum(v: bool, xs: seq<Node>, cursor: nat, ps: seq<Param>, es: seq<Event>)
    requires ParseNodes(v, xs).Some? && cursor < |ParseNodes(v, xs).value.frags|
    ensures var s := AppendAll(ParseNodes(v, xs).value.(cursor := cursor), ps);
            s.Valid() && Summed(s) && Summed(Play(s, es).s)
  {
    ParsedNodes(v, xs);
    var s := ParseNodes(v, xs).value.(cursor := cursor);
    AppendAllKeepsSum(s, ps);
    PlayKeepsSum(AppendAll(s, ps), es);
  }

  /** What the consumer is given has strictly increasing start times as long as it was not woken. */
  lemma {:induction false} GotIncreases(s: Stream, es: seq<Event>)
    requires s.Valid() && !s.eos && Increasing(s.frags, s.cursor) && !Woken(s, es)
    ensures Increasing(Play(s, es).got, 0)
  {
    PlayGrows(s, es);
    PlayInOrder(s, es);
    var r, c := Play(s, es), s.cursor;
    forall i, j | 0 <= i < j < |r.got| ensures r.got[i].time < r.got[j].time {
      assert r.got[i] == r.s.frags[c..c + |r.got|][i] && r.got[j] == r.s.frags[c..c + |r.got|][j];
    }
  }

  /** So no URI is requested twice, whatever the bitrates between the requests. */
  lemma {:induction false} RequestsAreDistinct(s: Stream, es: seq<Event>, base: string, template: string,
                                               pre: string, x: string, mid: string, y: string, post: string,
                                               bitrates: seq<nat>)
    requires s.Valid() && !s.eos && Increasing(s.frags, s.cursor) && !Woken(s, es)
    requires Supported(template, pre, x, mid, y, post) && !Ambiguous(mid)
    requires |bitrates| == |Play(s, es).got| && forall i :: 0 <= i < |bitrates| ==> bitrates[i] < U32
    ensures var got := Play(s, es).got;
            forall i, j :: 0 <= i < j < |got| ==>
              Expand(base, template, bitrates[i], got[i].time) != Expand(base, template, bitrates[j], got[j].time)
  {
    GotIncreases(s, es);
    var got := Play(s, es).got;
    forall i, j | 0 <= i < j < |got|
      ensures Expand(base, template, bitrates[i], got[i].time) != Expand(base, template, bitrates[j], got[j].time)
    {
      UrisDistinct(base, template, pre, x, mid, y, post, bitrates[i], got[i].time, bitrates[j], got[j].time);
    }
  }

  // ---- seeking ----

  ghost predicate StrictlyAscending(starts: seq<nat>) {
    forall i, j :: 0 <= i < j < |starts| ==> starts[i] < starts[j]
  }

  /** On an ordered timeline a seek runs off the list exactly if its target is outside it. Forward
      it lands on the last fragment that starts before the target, backward on the last one that
      does not start behind it; either way the fragment and its successor bracket the target. */
  lemma {:induction false} SeekBrackets(starts: seq<nat>, target: nat, cursor: nat)
    requires cursor < |starts| && Ascending(starts)
    ensures SeekIndex(starts, target, cursor).None? <==> target < starts[0] || starts[|starts| - 1] < target
    ensures SeekIndex(starts, target, cursor).Some? ==>
              var i := SeekIndex(starts, target, cursor).value;
              && i < |starts| && starts[i] <= target && (i + 1 < |starts| ==> target <= starts[i + 1])
              && (starts[cursor] < target ==>
                    forall k :: 0 <= k < |starts| ==> (k <= i <==> starts[k] < target))
              && (target < starts[cursor] ==>
                    forall k :: 0 <= k < |starts| ==> (k <= i <==> starts[k] <= target))
              && (target == starts[cursor] ==> i == cursor)
  {
    var r := SeekIndex(starts, target, cursor);
  }

  /** Only an exact hit makes the result depend on where the cursor was: a seek from in front of
      the fragment that is hit lands one before it. */
  lemma {:induction false} SeekDependsOnCursorIff(starts: seq<nat>, target: nat, c: nat, d: nat)
    requires c <= d < |starts| && StrictlyAscending(starts)
    ensures SeekIndex(starts, target, c) == SeekIndex(starts, target, d)
       <==> !exists i :: c < i <= d && starts[i] == target
  {
    SeekBrackets(starts, target, c);
    SeekBrackets(starts, target, d);
    var r, q := SeekIndex(starts, target, c), SeekIndex(starts, target, d);
    if i :| c < i <= d && starts[i] == target {
      assert starts[c] < target;
      assert r.Some? && q.Some?;
      assert starts[i] >= target ==> i > r.value;
    }
  }

  /** Multiplying by a fixed rate keeps the order of start times. */
  lemma {:induction false} ScaleKeepsOrder(t: nat, u: nat, timescale: nat)
    requires t <= u
    ensures Scale(t, timescale) <= Scale(u, timescale)
  {
    if timescale != 0 {
      DivKeepsOrder(t * SECOND, u * SECOND, timescale);
    }
  }

  /** So the timeline of every stream whose times do not decrease can be searched. */
  lemma {:induction false} StartsAscend(frags: seq<Fragment>, timescale: nat)
    requires InTimeOrder(frags)
    ensures Ascending(Starts(frags, timescale))
  {
    var starts := Starts(frags, timescale);
    forall i, j | 0 <= i < j < |starts| ensures starts[i] <= starts[j] {
      ScaleKeepsOrder(frags[i].time, frags[j].time, timescale);
    }
  }

  // ---- seeking in a stream ----

  /** While the start fits into 64 bits it is the exact start in nanoseconds, rounded down; otherwise it
      is the highest number. */
  lemma {:induction false} ScaleIsFloor(time: nat, timescale: nat)
    requires timescale > 0
    ensures time * SECOND < U64 * timescale ==>
              Scale(time, timescale) * timescale <= time * SECOND < (Scale(time, timescale) + 1) * timescale
    ensures time * SECOND >= U64 * timescale ==> Scale(time, timescale) == NONE
  {
    var q := time * SECOND / timescale;
    QuotientIs(time * SECOND, timescale, q);
    QuotientIff(time * SECOND, timescale, q, U64);
  }

  lemma {:induction false} QuotientIs(a: nat, d: nat, q: nat)
    requires d > 0 && q == a / d
    ensures q * d <= a < (q + 1) * d
  {
    assert a == d * q + a % d;
  }

  /** Comparing a quotient that is rounded down. */
  lemma {:induction false} QuotientIff(a: nat, d: nat, q: nat, n: nat)
    requires d > 0 && q * d <= a < (q + 1) * d
    ensures q < n <==> a < n * d
  {
    if q < n {
      MulKeepsOrder(d, q + 1, n);
    } else {
      MulKeepsOrder(d, n, q);
    }
  }

  /** The timeline fits: no start is too late for 64 bits. */
  ghost predicate Fits(frags: seq<Fragment>, timescale: nat) {
    forall k :: 0 <= k < |frags| ==> frags[k].time * SECOND < U64 * timescale
  }

  /** Fragment k starts before the target, and it does not start behind it. */
  ghost predicate StartsBefore(frags: seq<Fragment>, timescale: nat, target: nat, k: nat)
    requires k < |frags|
  {
    frags[k].time * SECOND < target * timescale
  }

  ghost predicate StartsBy(frags: seq<Fragment>, timescale: nat, target: nat, k: nat)
    requires k < |frags|
  {
    frags[k].time * SECOND < (target + 1) * timescale
  }

  lemma {:induction false} StartIff(frags: seq<Fragment>, timescale: nat, target: nat, k: nat)
    requires timescale > 0 && Fits(frags, timescale) && k < |frags|
    ensures Starts(frags, timescale)[k] < target <==> StartsBefore(frags, timescale, target, k)
    ensures Starts(frags, timescale)[k] <= target <==> StartsBy(frags, timescale, target, k)
  {
    var q := Scale(frags[k].time, timescale);
    ScaleIsFloor(frags[k].time, timescale);
    QuotientIff(frags[k].time * SECOND, timescale, q, target);
    QuotientIff(frags[k].time * SECOND, timescale, q, target + 1);
  }

  ghost predicate InTimeOrder(frags: seq<Fragment>) {
    forall i, j :: 0 <= i < j < |frags| ==> frags[i].time <= frags[j].time
  }

  /** A seek on a stream whose times do not decrease, in the stream's own ticks: it fails exactly outside
      of the timeline; forward it lands on the last fragment that starts before the target, backward on
      the last one that does not start behind it, and otherwise it stays; a video stream goes back to
      its lowest bitrate, and nothing else changes. */
  lemma {:induction false} SeekLandsIff(s: Stream, timescale: nat, target: nat)
    requires s.Valid() && timescale > 0 && InTimeOrder(s.frags) && Fits(s.frags, timescale)
    ensures var r, f := SeekOne(s, timescale, target), s.frags;
            && (r.None? <==> !StartsBy(f, timescale, target, 0) || StartsBefore(f, timescale, target, |f| - 1))
            && (r.Some? ==>
                  var q := r.value;
                  && q == s.(cursor := q.cursor, level := if s.isVideo then 0 else s.level) && q.Valid()
                  && (StartsBefore(f, timescale, target, s.cursor) ==>
                        forall k :: 0 <= k < |f| ==> (k <= q.cursor <==> StartsBefore(f, timescale, target, k)))
                  && (!StartsBy(f, timescale, target, s.cursor) ==>
                        forall k :: 0 <= k < |f| ==> (k <= q.cursor <==> StartsBy(f, timescale, target, k)))
                  && (!StartsBefore(f, timescale, target, s.cursor) && StartsBy(f, timescale, target, s.cursor) ==>
                        q.cursor == s.cursor))
  {
    var starts := Starts(s.frags, timescale);
    StartsAscend(s.frags, timescale);
    SeekBrackets(starts, target, s.cursor);
    forall k | 0 <= k < |starts|
      ensures starts[k] < target <==> StartsBefore(s.frags, timescale, target, k)
      ensures starts[k] <= target <==> StartsBy(s.frags, timescale, target, k)
    {
      StartIff(s.frags, timescale, target, k);
    }
  }

  lemma {:induction false} SoughtStreams(ss: seq<Option<Stream>>, timescale: nat, target: nat, k: nat, i: nat)
    requires k <= |ss| && i < |ss| && AllValid(ss) && SeekFirst(ss, timescale, target, k).Some?
    ensures var r := SeekFirst(ss, timescale, target, k).value;
            if i < k && ss[i].Some?
            then r.streams[i].Some? && r.streams[i] == SeekOne(ss[i].value, timescale, target)
            else r.streams[i] == ss[i]
  {
    if k != 0 {
      SoughtStreams(ss, timescale, target, k - 1, i);
    }
  }

  /** A seek succeeds if it does in every stream. */
  lemma {:induction false} SeekSucceedsIff(ss: seq<Option<Stream>>, timescale: nat, target: nat, k: nat)
    requires k <= |ss| && AllValid(ss)
    ensures SeekFirst(ss, timescale, target, k).Some? <==>
            forall i :: 0 <= i < k && ss[i].Some? ==> SeekOne(ss[i].value, timescale, target).Some?
  {
    if k != 0 {
      SeekSucceedsIff(ss, timescale, target, k - 1);
    }
  }

  /** Then the next segment starts at the latest of the fragments that were chosen. */
  lemma {:induction false} SegmentStartsLatest(ss: seq<Option<Stream>>, timescale: nat, target: nat, k: nat)
    requires k <= |ss| && AllValid(ss) && SeekFirst(ss, timescale, target, k).Some?
    ensures var r := SeekFirst(ss, timescale, target, k).value; IsLatest(r.streams, r.start, k)
  {
    if k != 0 {
      SegmentStartsLatest(ss, timescale, target, k - 1);
      var r, q := SeekFirst(ss, timescale, target, k).value, SeekFirst(ss, timescale, target, k - 1).value;
      SoughtStreams(ss, timescale, target, k - 1, k - 1);
      assert r.streams[..k - 1] == q.streams[..k - 1];
      LatestOneMore(q.streams, r.streams, q.start, r.start, k);
    }
  }

  function StartOf(s: Option<Stream>): nat {
    if s.None? || s.value.cursor >= |s.value.frags| then 0 else s.value.frags[s.value.cursor].time
  }

  ghost predicate IsLatest(ss: seq<Option<Stream>>, start: nat, k: nat)
    requires k <= |ss|
  {
    && (forall i :: 0 <= i < k ==> StartOf(ss[i]) <= start)
    && (start == 0 || exists i :: 0 <= i < k && StartOf(ss[i]) == start)
  }

  lemma {:induction false} LatestOneMore(ss: seq<Option<Stream>>, rs: seq<Option<Stream>>, start: nat, later: nat,
                                         k: nat)
    requires 0 < k <= |ss| == |rs| && ss[..k - 1] == rs[..k - 1] && IsLatest(ss, start, k - 1)
    requires later == if StartOf(rs[k - 1]) > start then StartOf(rs[k - 1]) else start
    ensures IsLatest(rs, later, k)
  {
    assert forall i :: 0 <= i < k - 1 ==> rs[i] == rs[..k - 1][i] == ss[..k - 1][i] == ss[i];
    if later == start && start != 0 {
      var i :| 0 <= i < k - 1 && StartOf(ss[i]) == start;
      assert StartOf(rs[i]) == later;
    }
  }

  // ---- runs of a stored stream ----

  datatype Move = Next | SeekTo(target: nat)

  /** What a consumer of a stored presentation is given over requests and seeks (seeks outside of
      the timeline left aside). */
  function Walk(s: Stream, timescale: nat, moves: seq<Move>): (r: (Stream, seq<Fragment>))
    requires s.Valid()
    ensures r.0.Valid()
    decreases |moves|
  {
    if moves == [] then (s, [])
    else
      var (p, got) := Walk(s, timescale, moves[..|moves| - 1]);
      match moves[|moves| - 1]
      case Next =>
        var (q, g) := Ask(p, false);
        (q, if g.Got? then got + [g.fragment] else got)
      case SeekTo(target) =>
        var q := SeekOne(p, timescale, target);
        (if q.Some? then q.value else p, got)
  }

  function Nexts(n: nat): (moves: seq<Move>)
    ensures |moves| == n
  {
    seq(n, i => Next)
  }

  function Min(a: nat, b: nat): nat {
    if a < b then a else b
  }

  /** What n requests are given from a state on: the fragments from the cursor on, unless the end has
      been marked already. */
  function Slice(p: Stream, n: nat): seq<Fragment>
    requires p.Valid()
  {
    if p.eos then [] else p.frags[p.cursor..Min(p.cursor + n, |p.frags|)]
  }

  /** The next answer after n requests. */
  function AnswerBehind(p: Stream, n: nat): Got
    requires p.Valid()
  {
    if p.eos || p.cursor + n >= |p.frags| then EndOfStream else Got(p.frags[p.cursor + n])
  }

  lemma {:induction false} OneMoreMove(s: Stream, timescale: nat, moves: seq<Move>, m: Move)
    requires s.Valid()
    ensures var (p, got) := Walk(s, timescale, moves);
            Walk(s, timescale, moves + [m]) ==
            match m
            case Next => var (q, g) := Ask(p, false); (q, if g.Got? then got + [g.fragment] else got)
            case SeekTo(target) =>
              var q := SeekOne(p, timescale, target); (if q.Some? then q.value else p, got)
  {
    assert (moves + [m])[..|moves|] == moves;
  }

  /** The state behind n requests. */
  ghost predicate Behind(p: Stream, q: Stream, n: nat)
    requires p.Valid()
  {
    && q.Valid() && q == p.(cursor := q.cursor, eos := q.eos)
    && (q.eos <==> p.eos || p.cursor + n >= |p.frags|)
    && (!q.eos ==> q.cursor == p.cursor + n)
  }

  lemma {:induction false} OneMoreRequest(p: Stream, q: Stream, n: nat)
    requires p.Valid() && Behind(p, q, n)
    ensures Ask(q, false).1 == AnswerBehind(p, n) && Behind(p, Ask(q, false).0, n + 1)
    ensures Slice(p, n + 1) == Slice(p, n) + match AnswerBehind(p, n) case Got(f) => [f] case _ => []
  {
    SliceGrows(p, n);
  }

  lemma {:induction false} SliceGrows(p: Stream, n: nat)
    requires p.Valid()
    ensures Slice(p, n + 1) == Slice(p, n) + match AnswerBehind(p, n) case Got(f) => [f] case _ => []
  {
    if AnswerBehind(p, n).Got? {
      assert p.frags[p.cursor..p.cursor + n + 1] == p.frags[p.cursor..p.cursor + n] + [p.frags[p.cursor + n]];
    }
  }

  /** Requests on a stored stream, whatever came before: n of them give the n fragments from the cursor
      on, each once and in order, or all there are; the end is marked exactly when the last one has been
      given; and the answer to the next request is the next fragment, or the end of the stream. */
  lemma {:induction false} NextsGiveSlice(s: Stream, timescale: nat, moves: seq<Move>, n: nat)
    requires s.Valid()
    ensures var (p, got) := Walk(s, timescale, moves);
            var (q, more) := Walk(s, timescale, moves + Nexts(n));
            more == got + Slice(p, n) && Behind(p, q, n) && Ask(q, false).1 == AnswerBehind(p, n)
  {
    var (p, got) := Walk(s, timescale, moves);
    if n == 0 {
      assert moves + Nexts(0) == moves;
      assert got + Slice(p, 0) == got;
      OneMoreRequest(p, p, 0);
    } else {
      var k := n - 1;
      NextsGiveSlice(s, timescale, moves, k);
      assert moves + Nexts(n) == moves + Nexts(k) + [Next];
      OneMoreMove(s, timescale, moves + Nexts(k), Next);
      var (q, more) := Walk(s, timescale, moves + Nexts(k));
      OneMoreGiven(p, got, q, more, k);
    }
  }

  lemma {:induction false} OneMoreGiven(p: Stream, got: seq<Fragment>, q: Stream, more: seq<Fragment>, k: nat)
    requires p.Valid() && Behind(p, q, k) && more == got + Slice(p, k)
    ensures var (r, g) := Ask(q, false);
            && (if g.Got? then more + [g.fragment] else more) == got + Slice(p, k + 1)
            && Behind(p, r, k + 1) && Ask(r, false).1 == AnswerBehind(p, k + 1)
  {
    OneMoreRequest(p, q, k);
    OneMoreRequest(p, Ask(q, false).0, k + 1);
    assert got + Slice(p, k) + [] == got + Slice(p, k);
  }

  /** Stored playback from the first cursor on. */
  lemma {:induction false} StoredGivesAll(s: Stream, timescale: nat, n: nat)
    requires s.Valid() && !s.eos
    ensures var (q, got) := Walk(s, timescale, Nexts(n));
            && got == s.frags[s.cursor..Min(s.cursor + n, |s.frags|)]
            && (q.eos <==> s.cursor + n >= |s.frags|)
            && (Ask(q, false).1 == EndOfStream <==> s.cursor + n >= |s.frags|)
  {
    assert Walk(s, timescale, []) == (s, []);
    NextsGiveSlice(s, timescale, [], n);
    assert [] + Nexts(n) == Nexts(n);
  }

  /** What is given behind a seek, up to the next one: the fragments from where it landed, or nothing if
      the stream had been read to its end. */
  lemma {:induction false} SliceBehindSeek(s: Stream, timescale: nat, moves: seq<Move>, target: nat, n: nat)
    requires s.Valid() && SeekOne(Walk(s, timescale, moves).0, timescale, target).Some?
    ensures var (p, got) := Walk(s, timescale, moves);
            var r := SeekOne(p, timescale, target).value;
            && r.Valid()
            && Walk(s, timescale, moves + [SeekTo(target)] + Nexts(n)).1 ==
               got + (if p.eos then [] else p.frags[r.cursor..Min(r.cursor + n, |p.frags|)])
  {
    var (p, got) := Walk(s, timescale, moves);
    WalkSeeks(s, timescale, moves, target);
    SeekKeeps(p, timescale, target);
    NextsGiveMore(s, timescale, moves + [SeekTo(target)], n, SeekOne(p, timescale, target).value, got);
  }

  lemma {:induction false} NextsGiveMore(s: Stream, timescale: nat, moves: seq<Move>, n: nat, p: Stream,
                                         got: seq<Fragment>)
    requires s.Valid() && Walk(s, timescale, moves) == (p, got)
    ensures Walk(s, timescale, moves + Nexts(n)).1 == got + Slice(p, n)
  {
    NextsGiveSlice(s, timescale, moves, n);
  }

  lemma {:induction false} WalkSeeks(s: Stream, timescale: nat, moves: seq<Move>, target: nat)
    requires s.Valid() && SeekOne(Walk(s, timescale, moves).0, timescale, target).Some?
    ensures var (p, got) := Walk(s, timescale, moves);
            Walk(s, timescale, moves + [SeekTo(target)]) == (SeekOne(p, timescale, target).value, got)
  {
    OneMoreMove(s, timescale, moves, SeekTo(target));
  }

  lemma {:induction false} SeekKeeps(p: Stream, timescale: nat, target: nat)
    requires p.Valid() && SeekOne(p, timescale, target).Some?
    ensures var r := SeekOne(p, timescale, target).value; r.Valid() && r.frags == p.frags && r.eos == p.eos
  {
  }

  /** A seek does not clear the end-of-list flag: once a stored stream has been read to its end,
      no sequence of seeks and requests gets another fragment. */
  lemma {:induction false} NothingAfterEnd(s: Stream, timescale: nat, moves: seq<Move>)
    requires s.Valid() && s.eos
    ensures Walk(s, timescale, moves).1 == [] && Walk(s, timescale, moves).0.eos
  {
    if moves != [] {
      NothingAfterEnd(s, timescale, moves[..|moves| - 1]);
    }
  }

  /** After a seek into the timeline the fragment that was landed on is the next one handed out,
      exactly if the stream had not been read to its end before. */
  lemma {:induction false} SeekThenNextIff(s: Stream, timescale: nat, target: nat)
    requires s.Valid() && SeekOne(s, timescale, target).Some?
    ensures var r := SeekOne(s, timescale, target).value;
            r.Valid() && (Walk(r, timescale, [Next]).1 == [r.frags[r.cursor]] <==> !s.eos)
  {
    var r := SeekOne(s, timescale, target).value;
    assert [Next][..0] == [];
    assert Walk(r, timescale, []) == (r, []);
    assert [] + [r.frags[r.cursor]] == [r.frags[r.cursor]];
  }
}
