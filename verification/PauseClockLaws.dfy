/** What the pause accounting adds up to over whole runs. */
module PauseClockLaws {
  import opened Common
  import opened PauseClock

  /** Calls with a clock. Pause and Resume are the two calls of the pause function, at a running
      time and with the result of blocking or unblocking the pads; Pass is a buffer with time stamp ts
      that comes through. */
  datatype Event = Pause(t: Word, ok: bool) | Resume(t: Word, ok: bool) | Restart | Pass(t: Word, ts: Word)

  /** A stretch of time in which the pads were blocked, and how much of it the clock did not count. */
  datatype Gap = Gap(from: nat, to: nat, lost: int)

  /** The stretch that goes on: since when the pads are blocked, how much of that was not counted,
      and since when nothing is being counted. */
  datatype Open = Open(from: nat, lost: int, idle: Option<nat>)

  /** What has happened since the last restart: the running time so far, whether the pads are blocked,
      the stretches that are over, and the time stamps before and after the probe. */
  datatype History = History(now: nat, open: Option<Open>, gaps: seq<Gap>, stamps: seq<Word>, adjusted: seq<Word>)

  datatype Run = Run(c: Clock, h: History)

  /** A restart does not unblock the pads. */
  function Start(c: Clock): Run {
    Run(Reset(c), History(0, if c.block then Some(Open(0, 0, Some(0))) else None, [], [], []))
  }

  /** Blocking at time t: a new stretch, or the one that goes on. Counting starts, or starts again,
      unless t is 0. */
  function Blocked(o: Option<Open>, t: nat): Option<Open> {
    match o
    case None => Some(Open(t, 0, if t == 0 then Some(0) else None))
    case Some(s) => if s.idle.Some? && t > 0 then Some(Open(s.from, s.lost + t - s.idle.value, None)) else o
  }

  /** Unblocking that failed at time t: counting is over, the stretch is not. */
  function StillBlocked(o: Option<Open>, t: nat): Option<Open> {
    if o.Some? && o.value.idle.None? then Some(o.value.(idle := Some(t))) else o
  }

  /** Unblocking at time t. */
  function Closed(o: Open, t: nat): Gap {
    Gap(o.from, t, LostBy(o, t))
  }

  /** What has not been counted by time t. */
  function LostBy(o: Open, t: nat): int {
    o.lost + (if o.idle.Some? then t - o.idle.value else 0)
  }

  function Step(r: Run, e: Event): Run {
    match e
    case Pause(t, ok) =>
      Run(PauseOn(r.c, Some(t), ok).0, r.h.(now := t, open := if ok then Blocked(r.h.open, t) else r.h.open))
    case Resume(t, ok) =>
      Run(PauseOff(r.c, Some(t), ok).0,
          if !ok then r.h.(now := t, open := StillBlocked(r.h.open, t))
          else if r.h.open.None? then r.h.(now := t)
          else r.h.(now := t, open := None, gaps := r.h.gaps + [Closed(r.h.open.value, t)]))
    case Restart => Start(r.c)
    case Pass(t, ts) =>
      Run(r.c, r.h.(now := t, stamps := r.h.stamps + [ts], adjusted := r.h.adjusted + [Probe(r.c, ts)]))
  }

  function Play(es: seq<Event>): Run {
    if es == [] then Start(Initial()) else Step(Play(es[..|es| - 1]), es[|es| - 1])
  }

  /** When the pads were last unblocked. */
  function LastResume(h: History): nat {
    if h.gaps == [] then 0 else h.gaps[|h.gaps| - 1].to
  }

  /** Running times do not go back. A buffer passes while the pads are not blocked, stamped at most
      now, not before they were last unblocked, and not before the buffer in front of it. */
  ghost predicate CanHappen(r: Run, e: Event) {
    match e
    case Pause(t, _) => r.h.now <= t
    case Resume(t, _) => r.h.now <= t
    case Restart => true
    case Pass(t, ts) =>
      && r.h.now <= t && r.h.open.None? && LastResume(r.h) <= ts <= t
      && (r.h.stamps != [] ==> r.h.stamps[|r.h.stamps| - 1] <= ts)
  }

  ghost predicate Possible(es: seq<Event>) {
    es == [] || (Possible(es[..|es| - 1]) && CanHappen(Play(es[..|es| - 1]), es[|es| - 1]))
  }

  // ---- the sum of the pauses ----

  function Length(gaps: seq<Gap>): int {
    if gaps == [] then 0 else Length(gaps[..|gaps| - 1]) + gaps[|gaps| - 1].to - gaps[|gaps| - 1].from
  }

  function Lost(gaps: seq<Gap>): int {
    if gaps == [] then 0 else Lost(gaps[..|gaps| - 1]) + gaps[|gaps| - 1].lost
  }

  lemma {:induction false} SumsSnoc(gaps: seq<Gap>, g: Gap)
    ensures Length(gaps + [g]) == Length(gaps) + g.to - g.from && Lost(gaps + [g]) == Lost(gaps) + g.lost
  {
    assert (gaps + [g])[..|gaps|] == gaps;
  }

  /** The time the pads have been blocked, and how much of it was not counted. */
  function BlockedTime(h: History): int {
    Length(h.gaps) + (if h.open.Some? then h.now - h.open.value.from else 0)
  }

  function LostTime(h: History): int {
    Lost(h.gaps) + (if h.open.Some? then LostBy(h.open.value, h.now) else 0)
  }

  /** The offset that a resume at this moment leaves; without a pause, the offset. */
  function Offset(r: Run): int {
    r.c.total + (if r.c.paused != 0 then r.h.now - r.c.paused else 0)
  }

  /** The stretches are in order and do not overlap, so nothing is counted twice. */
  ghost predicate Apart(gaps: seq<Gap>) {
    && (forall i :: 0 <= i < |gaps| ==> gaps[i].from <= gaps[i].to)
    && (forall i :: 0 <= i < |gaps| - 1 ==> gaps[i].to <= gaps[i + 1].from)
  }

  /** The time up to which the open stretch has been counted, or from which on it will be. */
  function Mark(c: Clock, o: Open): nat {
    if o.idle.Some? then o.idle.value else c.paused
  }

  ghost predicate OpenAccounted(c: Clock, h: History, o: Open) {
    && LastResume(h) <= o.from <= Mark(c, o) <= h.now && 0 <= o.lost <= Mark(c, o) - o.from
    && (c.paused == 0 <==> o.idle.Some?)
  }

  ghost predicate Accounted(r: Run) {
    var c, h := r.c, r.h;
    && Apart(h.gaps) && LastResume(h) <= h.now < U64 && 0 <= Lost(h.gaps) <= Length(h.gaps) <= LastResume(h)
    && (c.block <==> h.open.Some?)
    && c.total == Length(h.gaps) - Lost(h.gaps)
                  + (if h.open.Some? then Mark(c, h.open.value) - h.open.value.from - h.open.value.lost else 0)
    && (if h.open.Some? then OpenAccounted(c, h, h.open.value) else c.paused == 0)
  }

  lemma {:induction false} CloseGap(gaps: seq<Gap>, g: Gap)
    requires Apart(gaps) && g.from <= g.to && (gaps != [] ==> gaps[|gaps| - 1].to <= g.from)
    ensures Apart(gaps + [g])
  {
  }

  /** Closing a gap adds its length, without wrapping around. */
  lemma {:induction false} ResumeAdds(c: Clock, t: Word, ok: bool)
    requires c.paused != 0 ==> c.paused <= t && c.total + t - c.paused < U64
    ensures PauseOff(c, Some(t), ok).0.total == if c.paused == 0 then c.total else c.total + t - c.paused
    ensures PauseOff(c, Some(t), ok).0.paused == 0
  {
    assert c.paused != 0 ==> Minus(t, c.paused) == t - c.paused;
  }

  lemma {:induction false} ResumeAccounted(r: Run, t: Word, ok: bool)
    requires Accounted(r) && r.h.now <= t
    ensures Accounted(Step(r, Resume(t, ok)))
  {
    if r.h.open.Some? && ok {
      UnblockAccounted(r, t);
    } else {
      ResumeAdds(r.c, t, ok);
    }
  }

  lemma {:induction false} UnblockAccounted(r: Run, t: Word)
    requires Accounted(r) && r.h.now <= t && r.h.open.Some?
    ensures Accounted(Step(r, Resume(t, true)))
  {
    var g := Closed(r.h.open.value, t);
    ResumeAdds(r.c, t, true);
    CloseGap(r.h.gaps, g);
    SumsSnoc(r.h.gaps, g);
    assert (r.h.gaps + [g])[|r.h.gaps|] == g;
  }

  lemma {:induction false} StepAccounted(r: Run, e: Event)
    requires Accounted(r) && CanHappen(r, e)
    ensures Accounted(Step(r, e))
  {
    if e.Resume? {
      ResumeAccounted(r, e.t, e.ok);
    }
  }

  lemma {:induction false} PlayAccounted(es: seq<Event>)
    requires Possible(es)
    ensures Accounted(Play(es))
  {
    if es != [] {
      PlayAccounted(es[..|es| - 1]);
      StepAccounted(Play(es[..|es| - 1]), es[|es| - 1]);
    }
  }

  /** Time is lost exactly while the pads are blocked and the pause has no time: behind a pause at
      running time 0, behind an unblocking that failed, and behind a restart, until the next pause or
      the resume that succeeds. */
  lemma {:induction false} LostWhileIdle(es: seq<Event>, e: Event)
    requires Possible(es) && CanHappen(Play(es), e) && !e.Restart?
    ensures var r, s := Play(es), Step(Play(es), e);
            LostTime(s.h) - LostTime(r.h) == if r.c.block && r.c.paused == 0 then e.t - r.h.now else 0
    ensures var r, s := Play(es), Step(Play(es), e);
            s.c.block && s.c.paused == 0 <==>
            match e
            case Pause(t, ok) => if ok then t == 0 && (!r.c.block || r.c.paused == 0) else r.c.block && r.c.paused == 0
            case Resume(t, ok) => !ok && r.c.block
            case Pass(t, ts) => false
  {
    PlayAccounted(es);
    StepAccounted(Play(es), e);
    if e.Resume? && e.ok && Play(es).h.open.Some? {
      SumsSnoc(Play(es).h.gaps, Closed(Play(es).h.open.value, e.t));
    }
  }

  /** No time passes uncounted in front of call i: it does not come later than the call before it if
      that left the pads blocked without a pause time. */
  ghost predicate Prompt(es: seq<Event>, i: nat)
    requires i < |es|
  {
    var r := Play(es[..i]);
    !es[i].Restart? && (r.c.block && r.c.paused == 0 ==> es[i].t == r.h.now)
  }

  ghost predicate AllPrompt(es: seq<Event>, from: nat) {
    forall i :: from <= i < |es| ==> Prompt(es, i)
  }

  lemma {:induction false} PromptOneMore(es: seq<Event>, from: nat)
    requires es != [] && from < |es|
    ensures AllPrompt(es, from) <==> AllPrompt(es[..|es| - 1], from) && Prompt(es, |es| - 1)
  {
    var p := es[..|es| - 1];
    forall i | from <= i < |p| ensures Prompt(p, i) <==> Prompt(es, i) {
      assert p[..i] == es[..i];
    }
  }

  ghost predicate NoRestart(es: seq<Event>, from: nat) {
    forall i :: from <= i < |es| ==> !es[i].Restart?
  }

  /** Behind the first n calls no time is lost if and only if every further call is prompt. */
  lemma {:induction false} LostSinceIff(es: seq<Event>, n: nat)
    requires n <= |es| && Possible(es) && NoRestart(es, n)
    ensures LostTime(Play(es[..n]).h) <= LostTime(Play(es).h)
    ensures LostTime(Play(es[..n]).h) == LostTime(Play(es).h) <==> AllPrompt(es, n)
  {
    if n == |es| {
      assert es[..n] == es;
    } else {
      var p, e := es[..|es| - 1], es[|es| - 1];
      assert p[..n] == es[..n];
      LostSinceIff(p, n);
      LostWhileIdle(p, e);
      PromptOneMore(es, n);
    }
  }

  /** The number of calls up to the last restart. */
  function SinceRestart(es: seq<Event>): (n: nat)
    ensures n <= |es|
  {
    if es == [] then 0 else if es[|es| - 1].Restart? then |es| else SinceRestart(es[..|es| - 1])
  }

  lemma {:induction false} RestartForgets(es: seq<Event>)
    requires Possible(es)
    ensures NoRestart(es, SinceRestart(es)) && LostTime(Play(es[..SinceRestart(es)]).h) == 0
  {
    var n := SinceRestart(es);
    if es != [] {
      if es[|es| - 1].Restart? {
        assert es[..n] == es;
      } else {
        RestartForgets(es[..|es| - 1]);
        assert es[..|es| - 1][..n] == es[..n];
        assert forall i :: n <= i < |es| - 1 ==> es[i] == es[..|es| - 1][i];
      }
    }
  }

  /** Over every run of pauses, resumes, failed blocks, retries and restarts: the offset is the time
      the pads were blocked without the time that was lost, it never exceeds the running time, and
      nothing is counted twice. It is the whole time if and only if since the last restart every call
      that found the pads blocked without a pause time came at once. */
  lemma {:induction false} OffsetIsSumIff(es: seq<Event>)
    requires Possible(es)
    ensures var r := Play(es);
            && (r.c.block <==> r.h.open.Some?) && (!r.c.block ==> r.c.total == Offset(r))
            && Apart(r.h.gaps) && 0 <= LostTime(r.h)
            && Offset(r) == BlockedTime(r.h) - LostTime(r.h) <= r.h.now
    ensures Offset(Play(es)) == BlockedTime(Play(es).h) <==> AllPrompt(es, SinceRestart(es))
  {
    PlayAccounted(es);
    RestartForgets(es);
    LostSinceIff(es, SinceRestart(es));
  }

  /** A pause that is repeated, or that fails to block, and a resume that is repeated after its
      unblocking failed do not move the offset; and a repeated pause keeps its time. */
  lemma {:induction false} RepeatsMoveNothing(es: seq<Event>, e: Event, f: Event)
    requires Possible(es) && CanHappen(Play(es), e)
    requires (e.Pause? && f.Pause? && e.ok && e.t > 0) || (e.Resume? && f.Resume?)
    ensures var r := Step(Play(es), e);
            Step(r, f).c.total == r.c.total && Step(r, f).c.paused == r.c.paused
  {
    PlayAccounted(es);
  }

  // ---- the property ----

  /** What happens to the element from outside: the property is set at a running time, with the result
      that blocking or unblocking would have, or the element goes from READY to PAUSED. */
  datatype Input = Set(value: bool, t: Word, ok: bool) | ReadyToPaused

  function Apply(c: Clock, i: Input): Clock {
    match i
    case Set(value, t, ok) => SetPause(c, value, Some(t), ok)
    case ReadyToPaused => Reset(c)
  }

  function After(ins: seq<Input>): Clock {
    if ins == [] then Initial() else Apply(After(ins[..|ins| - 1]), ins[|ins| - 1])
  }

  /** The running time of the last input, and inputs whose running times do not go back. */
  function LastTime(ins: seq<Input>): Word {
    if ins == [] || ins[|ins| - 1].ReadyToPaused? then 0 else ins[|ins| - 1].t
  }

  ghost predicate Timely(ins: seq<Input>) {
    forall i :: 0 <= i < |ins| && ins[i].Set? ==> LastTime(ins[..i]) <= ins[i].t
  }

  /** The calls that the settings amount to: a value that the property has already, by the settings
      so far, is no call. */
  function Calls(ins: seq<Input>): seq<Event> {
    if ins == [] then []
    else
      var before := Calls(ins[..|ins| - 1]);
      match ins[|ins| - 1]
      case ReadyToPaused => before + [Restart]
      case Set(value, t, ok) =>
        if Shown(ins[..|ins| - 1]) == value then before
        else before + [if value then Pause(t, ok) else Resume(t, ok)]
  }

  /** The value the property shows: that of the last setting that changed it and was successful. */
  function Shown(ins: seq<Input>): bool {
    if ins == [] then false
    else
      var i, shown := ins[|ins| - 1], Shown(ins[..|ins| - 1]);
      if i.Set? && i.ok then i.value else shown
  }

  lemma {:induction false} TimelyPrefix(ins: seq<Input>)
    requires Timely(ins) && ins != []
    ensures Timely(ins[..|ins| - 1])
  {
    var p := ins[..|ins| - 1];
    forall i | 0 <= i < |p| && p[i].Set? ensures LastTime(p[..i]) <= p[i].t {
      assert p[..i] == ins[..i];
    }
  }

  lemma {:induction false} OneMoreCall(es: seq<Event>, e: Event)
    ensures Play(es + [e]) == Step(Play(es), e)
    ensures Possible(es + [e]) <==> Possible(es) && CanHappen(Play(es), e)
  {
    assert (es + [e])[..|es|] == es;
  }

  /** Every run of settings is a run of the two calls that can happen, so every law about the calls
      holds for the property; and throughout the property shows whether the pads are blocked. */
  lemma {:induction false} PropertyIsCall(ins: seq<Input>)
    requires Timely(ins)
    ensures Possible(Calls(ins)) && Play(Calls(ins)).c == After(ins) && Play(Calls(ins)).h.now <= LastTime(ins)
    ensures After(ins).pause == After(ins).block == Shown(ins)
  {
    if ins != [] {
      var p, i := ins[..|ins| - 1], ins[|ins| - 1];
      TimelyPrefix(ins);
      PropertyIsCall(p);
      assert i.Set? ==> LastTime(p) <= i.t;
      if i.ReadyToPaused? {
        OneMoreCall(Calls(p), Restart);
      } else if Shown(p) != i.value {
        OneMoreCall(Calls(p), if i.value then Pause(i.t, i.ok) else Resume(i.t, i.ok));
      }
    }
  }

  // ---- calls without a clock ----

  datatype BlindCall = BlindCall(value: bool, ok: bool)

  /** Calls before there is a clock. */
  function PlayBlind(calls: seq<BlindCall>): Clock {
    if calls == [] then Initial()
    else
      var c, x := PlayBlind(calls[..|calls| - 1]), calls[|calls| - 1];
      if x.value then PauseOn(c, None, x.ok).0 else PauseOff(c, None, x.ok).0
  }

  /** The value of the last call that blocked or unblocked the pads. */
  function LastDone(calls: seq<BlindCall>): bool {
    if calls == [] then false
    else if calls[|calls| - 1].ok then calls[|calls| - 1].value
    else LastDone(calls[..|calls| - 1])
  }

  /** As long as there is no clock, calls block and unblock the pads and nothing else: no pause has a time,
      and time stamps stay as they are. */
  lemma {:induction false} BlindCallsOnlyBlock(calls: seq<BlindCall>, ts: Word)
    ensures PlayBlind(calls) == Clock(0, 0, LastDone(calls), LastDone(calls)) && Probe(PlayBlind(calls), ts) == ts
  {
    if calls != [] {
      BlindCallsOnlyBlock(calls[..|calls| - 1], ts);
    }
  }

  /** A run that loses its clock forgets all pauses with the first call that needs it: a resume of a pause
      that has a time, or a pause that needs one. Other calls keep the accounting. */
  lemma {:induction false} LostClockForgets(es: seq<Event>, ok: bool, ts: Word)
    requires Possible(es)
    ensures var c := Play(es).c;
            var p, r := PauseOn(c, None, ok).0, PauseOff(c, None, ok).0;
            && (if ok && c.paused == 0 then p.total == 0 && p.paused == 0 && Probe(p, ts) == ts
                else p.total == c.total && p.paused == c.paused)
            && (if c.paused != 0 then r.total == 0 && r.paused == 0 && Probe(r, ts) == ts
                else r.total == c.total && r.paused == c.paused)
            && p.block == (ok || c.block) && r.block == (!ok && c.block)
            && p.pause == (if ok then true else c.pause) && r.pause == (if ok then false else c.pause)
  {
  }

  // ---- the time stamps ----

  /** The running time without the pauses. */
  function Virtual(r: Run): int {
    r.h.now - Offset(r)
  }

  ghost predicate InOrder(s: seq<Word>) {
    forall i, j :: 0 <= i < j < |s| ==> s[i] <= s[j]
  }

  /** Adjusted time stamps are in order and not ahead of the running time without pauses; the last
      one is where it was put when it was stamped, unless a pause has come in between. */
  ghost predicate Stamped(r: Run) {
    var h := r.h;
    && |h.stamps| == |h.adjusted| && InOrder(h.adjusted)
    && (h.adjusted != [] ==>
          var a := h.adjusted[|h.adjusted| - 1];
          && a <= Virtual(r)
          && (h.open.None? ==>
                a as int <= h.stamps[|h.stamps| - 1] - r.c.total || a as int <= LastResume(h) - r.c.total))
  }

  lemma {:induction false} PassKeepsOrder(r: Run, e: Event)
    requires Accounted(r) && Stamped(r) && CanHappen(r, e) && e.Pass?
    ensures Probe(r.c, e.ts) as int == e.ts - r.c.total && Stamped(Step(r, e))
  {
    var h, a := r.h, Probe(r.c, e.ts);
    assert a as int == e.ts - r.c.total;
    assert h.adjusted != [] ==> h.adjusted[|h.adjusted| - 1] <= a;
  }

  lemma {:induction false} ResumeStamped(r: Run, t: Word, ok: bool)
    requires Accounted(r) && Stamped(r) && r.h.now <= t
    ensures Stamped(Step(r, Resume(t, ok)))
  {
    ResumeAccounted(r, t, ok);
    if r.h.open.Some? {
      ResumeAdds(r.c, t, ok);
      assert (r.h.gaps + [Closed(r.h.open.value, t)])[|r.h.gaps|] == Closed(r.h.open.value, t);
    }
  }

  lemma {:induction false} StepStamped(r: Run, e: Event)
    requires Accounted(r) && Stamped(r) && CanHappen(r, e)
    ensures Stamped(Step(r, e))
  {
    match e {
      case Pause(t, ok) =>
      case Resume(t, ok) => ResumeStamped(r, t, ok);
      case Restart =>
      case Pass(t, ts) => PassKeepsOrder(r, e);
    }
  }

  lemma {:induction false} PlayStamped(es: seq<Event>)
    requires Possible(es)
    ensures Accounted(Play(es)) && Stamped(Play(es))
  {
    if es != [] {
      PlayStamped(es[..|es| - 1]);
      StepAccounted(Play(es[..|es| - 1]), es[|es| - 1]);
      StepStamped(Play(es[..|es| - 1]), es[|es| - 1]);
    }
  }

  /** Over the whole run, across any pauses, the subtraction in the probe does not underflow and the
      adjusted time stamps stay in the order the buffers came in. */
  lemma {:induction false} StampsStayInOrder(es: seq<Event>, t: Word, ts: Word)
    requires Possible(es)
    ensures |Play(es).h.adjusted| == |Play(es).h.stamps| && InOrder(Play(es).h.adjusted)
    ensures CanHappen(Play(es), Pass(t, ts)) ==> Probe(Play(es).c, ts) as int == ts - Play(es).c.total
  {
    PlayStamped(es);
    if CanHappen(Play(es), Pass(t, ts)) {
      PassKeepsOrder(Play(es), Pass(t, ts));
    }
  }

  /** Also behind the high-speed probe, as long as the products fit into 64 bits: they are as many times
      further apart as the speed says. */
  lemma {:induction false} HighSpeedStaysInOrder(es: seq<Event>, multiple: nat)
    requires Possible(es) && forall i :: 0 <= i < |Play(es).h.adjusted| ==> Play(es).h.adjusted[i] * multiple < U64
    ensures var a := Play(es).h.adjusted;
            forall i, j :: 0 <= i < j < |a| ==>
              && HighSpeed(a[i], multiple) <= HighSpeed(a[j], multiple)
              && HighSpeed(a[j], multiple) - HighSpeed(a[i], multiple) == multiple * (a[j] as int - a[i])
  {
    PlayStamped(es);
    MultipliedInOrder(Play(es).h.adjusted, multiple);
  }

  lemma {:induction false} MultipliedInOrder(a: seq<Word>, multiple: nat)
    requires InOrder(a) && forall i :: 0 <= i < |a| ==> a[i] * multiple < U64
    ensures forall i, j :: 0 <= i < j < |a| ==>
              && HighSpeed(a[i], multiple) <= HighSpeed(a[j], multiple)
              && HighSpeed(a[j], multiple) - HighSpeed(a[i], multiple) == multiple * (a[j] as int - a[i])
  {
    forall i, j | 0 <= i < j < |a|
      ensures HighSpeed(a[i], multiple) <= HighSpeed(a[j], multiple)
      ensures HighSpeed(a[j], multiple) - HighSpeed(a[i], multiple) == multiple * (a[j] as int - a[i])
    {
      Products(a[i], a[j], multiple);
    }
  }

  lemma Products(a: nat, b: nat, m: nat)
    requires a <= b
    ensures a * m <= b * m && b * m - a * m == m * (b - a)
  {
  }

  /** Calls and buffers that leave the pads blocked. */
  ghost predicate KeepsBlocked(es: seq<Event>) {
    forall i :: 0 <= i < |es| ==> !es[i].Restart? && !(es[i].Resume? && es[i].ok)
  }

  lemma {:induction false} StaysOpen(es: seq<Event>, p: Word, mid: seq<Event>)
    requires Possible(es + [Pause(p, true)] + mid) && !Play(es).c.block && KeepsBlocked(mid)
    ensures Possible(es) && CanHappen(Play(es), Pause(p, true))
    ensures var r := Play(es + [Pause(p, true)] + mid);
            r.h.gaps == Play(es).h.gaps && r.h.open.Some? && r.h.open.value.from == p
  {
    var all := es + [Pause(p, true)] + mid;
    if mid == [] {
      assert all[..|all| - 1] == es && all[|all| - 1] == Pause(p, true);
      PlayAccounted(es);
    } else {
      assert all[..|all| - 1] == es + [Pause(p, true)] + mid[..|mid| - 1];
      assert all[|all| - 1] == mid[|mid| - 1];
      StaysOpen(es, p, mid[..|mid| - 1]);
    }
  }

  /** A pause, retries and all, up to the resume that unblocks the pads: what is stamped at that
      moment is adjusted to what was stamped at the moment of the pause plus the time lost in
      between. So a pause leaves no trace if and only if every call behind it that found the pads
      blocked without a pause time came at once. */
  lemma {:induction false} ResumeContinuesPauseIff(es: seq<Event>, p: Word, mid: seq<Event>, t: Word)
    requires Possible(es + [Pause(p, true)] + mid + [Resume(t, true)]) && !Play(es).c.block && KeepsBlocked(mid)
    ensures var all := es + [Pause(p, true)] + mid + [Resume(t, true)];
            var r, s := Play(es), Play(all);
            && s.h.gaps != [] && s.h.gaps[..|s.h.gaps| - 1] == r.h.gaps
            && (var g := s.h.gaps[|s.h.gaps| - 1];
                g.from == p && g.to == t && Probe(s.c, t) as int == Probe(r.c, p) + g.lost)
            && (Probe(s.c, t) == Probe(r.c, p) <==> AllPrompt(all, |es|))
  {
    var all := es + [Pause(p, true)] + mid + [Resume(t, true)];
    assert all[..|all| - 1] == es + [Pause(p, true)] + mid && all[|all| - 1] == Resume(t, true);
    StaysOpen(es, p, mid);
    PlayAccounted(es);
    PlayAccounted(es + [Pause(p, true)] + mid);
    UnblockedAt(Play(es), p, Play(es + [Pause(p, true)] + mid), t);
    assert all[..|es|] == es;
    assert forall i :: 0 <= i < |mid| ==> all[|es| + 1 + i] == mid[i];
    LostSinceIff(all, |es|);
  }

  lemma {:induction false} UnblockedAt(r: Run, p: Word, q: Run, t: Word)
    requires Accounted(r) && !r.c.block && r.h.now <= p
    requires Accounted(q) && q.h.open.Some? && q.h.open.value.from == p && q.h.gaps == r.h.gaps && q.h.now <= t
    ensures var s := Step(q, Resume(t, true));
            && s.h.gaps == r.h.gaps + [Closed(q.h.open.value, t)]
            && Probe(s.c, t) as int == Probe(r.c, p) + LostBy(q.h.open.value, t)
            && LostTime(s.h) - LostTime(r.h) == LostBy(q.h.open.value, t)
  {
    UnblockAccounted(q, t);
    SumsSnoc(r.h.gaps, Closed(q.h.open.value, t));
    ProbeIs(r.c, p);
    ProbeIs(Step(q, Resume(t, true)).c, t);
  }

  lemma {:induction false} ProbeIs(c: Clock, ts: Word)
    requires c.total <= ts
    ensures Probe(c, ts) as int == ts - c.total
  {
  }
}
