/** The timeline of a Smooth Streaming stream: built from the manifest, extended by a live
    producer, walked by a consumer, and searched by a seek. All of them share one cursor. */
module Manifest {
  import opened Common
  import Quality

  /** Times and durations are 64-bit; an absent attribute reads as NONE. */
  datatype Fragment = Fragment(num: nat, dur: Word, time: Word)

  /** The attributes n, d and t of a fragment node, and whether the node has a next sibling. */
  datatype Node = Node(n: nat, d: Word, t: Word, hasNext: bool)

  /** The list of fragments, the place in it that `fragment_lists` points to, the end-of-list flag,
      the accumulated duration, and the place in the bitrate ladder. */
  datatype Stream = Stream(frags: seq<Fragment>, cursor: nat, eos: bool, duration: Word, isVideo: bool, level: nat) {
    ghost predicate Valid() {
      cursor < |frags|
    }
  }

  function Last(s: seq<Fragment>): Fragment
    requires s != []
  {
    s[|s| - 1]
  }

  // ---- parsing ----

  /** The time of a node without t: where the fragment before it ends. */
  function NextTime(frags: seq<Fragment>): Word {
    if frags == [] then 0 else (Last(frags).time + Last(frags).dur) % U64
  }

  /** One fragment node. Where the code means to read the time of the next node, it reads the time
      of this one. None is a parse failure. */
  function ParseNode(s: Stream, x: Node): Option<Stream> {
    if x.d == NONE && !x.hasNext then None
    else if x.t == NONE && x.d == NONE then None
    else
      var time := if x.t != NONE then x.t else NextTime(s.frags);
      var nextT := x.t;
      var dur := if x.d != NONE then x.d else (nextT - time) % U64;
      if x.hasNext && nextT != NONE && nextT < time then None
      else Some(s.(frags := s.frags + [Fragment(x.n, dur, time)], duration := (s.duration + dur) % U64))
  }

  /** The nodes of a new stream. */
  function ParseNodes(isVideo: bool, xs: seq<Node>): Option<Stream> {
    if xs == [] then Some(Stream([], 0, false, 0, isVideo, 0))
    else
      match ParseNodes(isVideo, xs[..|xs| - 1])
      case None => None
      case Some(s) => ParseNode(s, xs[|xs| - 1])
  }

  // ---- the live producer ----

  /** A fragment announced by the server: appended if it is newer than the last one, and then the
      cursor of an exhausted stream moves on to it. */
  function Append(s: Stream, time: Word, duration: Word): Stream
    requires s.frags != []
  {
    if Last(s.frags).time < time then
      var dur := if duration == NONE then time - Last(s.frags).time else duration;
      s.(frags := s.frags + [Fragment(0, dur, time)], cursor := if s.eos then s.cursor + 1 else s.cursor, eos := false,
         duration := (s.duration + dur) % U64)
    else s
  }

  /** One entry of the look-ahead list that arrives with a live fragment. */
  datatype Param = Param(time: Word, dur: Word)

  /** The whole list. */
  function AppendAll(s: Stream, ps: seq<Param>): (r: Stream)
    requires s.frags != []
    ensures r.frags != []
  {
    if ps == [] then s else Append(AppendAll(s, ps[..|ps| - 1]), ps[|ps| - 1].time, ps[|ps| - 1].dur)
  }

  // ---- the consumer ----

  /** Handing out the fragment under the cursor: the cursor moves on, or the end is marked. */
  function Deliver(s: Stream): Stream
    requires s.Valid()
  {
    if s.cursor + 1 < |s.frags| then s.(cursor := s.cursor + 1) else s.(eos := true)
  }

  /** What the consumer gets. `Blocked` is the wait of a live stream; `NoFragment` is a cursor that
      has run off the list. */
  datatype Got = Got(fragment: Fragment) | EndOfStream | Blocked | NoFragment

  /** The consumer's call up to the wait. */
  function Ask(s: Stream, live: bool): (Stream, Got)
    requires s.Valid()
  {
    if s.eos then (s, if live then Blocked else EndOfStream)
    else (Deliver(s), Got(s.frags[s.cursor]))
  }

  /** The rest of a call that waited: it moves the cursor on once more. */
  function Resume(s: Stream): (Stream, Got)
    requires s.Valid()
  {
    if s.cursor + 1 == |s.frags| then (s, NoFragment)
    else (Deliver(s.(cursor := s.cursor + 1)), Got(s.frags[s.cursor + 1]))
  }

  // ---- seeking ----

  const SECOND: int := 1_000_000_000

  /** `gst_util_uint64_scale (time, GST_SECOND, timescale)` */
  function Scale(time: nat, timescale: nat): nat {
    if timescale == 0 || time * SECOND / timescale > NONE then NONE else time * SECOND / timescale
  }

  /** The loop of a forward seek: the first fragment from i on that does not start before the
      target. None if the cursor runs off the list. */
  function SeekForward(starts: seq<nat>, target: nat, i: nat): (r: Option<nat>)
    ensures r.Some? ==> i <= r.value < |starts| && target <= starts[r.value]
    ensures r.Some? ==> forall k :: i <= k < r.value ==> starts[k] < target
    ensures r.None? ==> forall k :: i <= k < |starts| ==> starts[k] < target
    decreases |starts| - i
  {
    if i >= |starts| then None
    else if target > starts[i] then SeekForward(starts, target, i + 1)
    else Some(i)
  }

  function SeekBackward(starts: seq<nat>, target: nat, i: int): (r: Option<nat>)
    requires i < |starts|
    ensures r.Some? ==> r.value <= i && starts[r.value] <= target
    ensures r.Some? ==> forall k :: r.value < k <= i ==> target < starts[k]
    ensures r.None? ==> forall k :: 0 <= k <= i ==> target < starts[k]
    decreases i
  {
    if i < 0 then None
    else if target < starts[i] then SeekBackward(starts, target, i - 1)
    else Some(i)
  }

  /** Where a seek leaves the cursor. */
  function SeekIndex(starts: seq<nat>, target: nat, cursor: nat): Option<nat>
    requires cursor < |starts|
  {
    if target > starts[cursor] then
      match SeekForward(starts, target, cursor)
      case None => None
      case Some(i) => Some(i - 1)
    else if target < starts[cursor] then SeekBackward(starts, target, cursor)
    else Some(cursor)
  }

  function Starts(frags: seq<Fragment>, timescale: nat): (r: seq<nat>)
    ensures |r| == |frags| && forall i :: 0 <= i < |r| ==> r[i] == Scale(frags[i].time, timescale)
  {
    seq(|frags|, i requires 0 <= i < |frags| => Scale(frags[i].time, timescale))
  }

  /** A seek in one stream; a video stream starts again at its lowest bitrate. */
  function SeekOne(s: Stream, timescale: nat, target: nat): Option<Stream>
    requires s.Valid()
  {
    match SeekIndex(Starts(s.frags, timescale), target, s.cursor)
    case None => None
    case Some(c) => Some(s.(cursor := c, level := if s.isVideo then 0 else s.level))
  }

  /** The streams after a seek, and the start of the next segment. */
  datatype Sought = Sought(streams: seq<Option<Stream>>, start: nat)

  ghost predicate AllValid(ss: seq<Option<Stream>>) {
    forall i :: 0 <= i < |ss| && ss[i].Some? ==> ss[i].value.Valid()
  }

  /** A seek in the first k streams; None if one of the cursors runs off its list. */
  function SeekFirst(ss: seq<Option<Stream>>, timescale: nat, target: nat, k: nat): (r: Option<Sought>)
    requires k <= |ss| && AllValid(ss)
    ensures r.Some? ==> |r.value.streams| == |ss|
  {
    if k == 0 then Some(Sought(ss, 0))
    else
      match SeekFirst(ss, timescale, target, k - 1)
      case None => None
      case Some(r) =>
        if ss[k - 1].None? then Some(r)
        else
          match SeekOne(ss[k - 1].value, timescale, target)
          case None => None
          case Some(s) =>
            var start := s.frags[s.cursor].time;
            Some(Sought(r.streams[k - 1 := Some(s)], if start > r.start then start else r.start))
  }

  lemma SameTail(before: seq<Option<Stream>>, was: seq<Option<Stream>>, after: seq<Option<Stream>>, i: nat)
    requires i < |before| == |was| == |after| && before[i..] == was[i..] && after == before[i := after[i]]
    ensures after[i + 1..] == was[i + 1..]
  {
    assert before[i..][1..] == was[i..][1..];
    assert after[i + 1..] == before[i + 1..];
  }

  lemma {:induction false} SeekStays(ss: seq<Option<Stream>>, timescale: nat, target: nat, i: nat, k: nat)
    requires i <= k <= |ss| && AllValid(ss) && SeekFirst(ss, timescale, target, i).None?
    ensures SeekFirst(ss, timescale, target, k).None?
  {
    if i < k {
      SeekStays(ss, timescale, target, i, k - 1);
    }
  }

  // ---- the objects ----

  class StreamNode {
    var frags: seq<Fragment>
    var cursor: nat
    var eos: bool
    var duration: Word
    var isVideo: bool
    var ladder: seq<nat>  // the bitrates in ascending order
    var level: nat        // the place in the ladder

    function State(): Stream
      reads this
    {
      Stream(frags, cursor, eos, duration, isVideo, level)
    }

    constructor (isVideo: bool)
      ensures State() == Stream([], 0, false, 0, isVideo, 0)
    {
      frags, cursor, eos, duration := [], 0, false, 0;
      this.isVideo, ladder, level := isVideo, [], 0;
    }

    /** The quality levels of the manifest, sorted once they are all there. */
    method SetLadder(bitrates: seq<nat>)
      modifies this`ladder
      ensures ladder == Quality.Sort(bitrates) && State() == old(State())
    {
      ladder := Quality.Sort(bitrates);
    }

    method SwitchQualityLevel(rate: nat, live: bool) returns (mode: Quality.Mode)
      requires level < |ladder|
      modifies this`level
      ensures State() == old(State()).(level := Quality.NewLevel(ladder, old(level), rate)) && level < |ladder|
      ensures mode == Quality.Verdict(ladder, old(level), rate, live)
    {
      level, mode := Quality.SwitchQualityLevel(ladder, level, rate, live);
    }

    method ParseFragmentNode(x: Node) returns (ok: bool)
      modifies this`frags, this`duration
      ensures var r := ParseNode(old(State()), x); ok == r.Some? && State() == if ok then r.value else old(State())
    {
      if x.d == NONE && !x.hasNext {
        return false;
      }
      var foundDuration, foundTime := x.d != NONE, x.t != NONE;
      var time, dur := x.t, x.d;
      if !foundTime && !foundDuration {
        return false;
      } else if !foundTime {
        time := 0;
        if frags != [] {
          time := (Last(frags).time + Last(frags).dur) % U64;
        }
      } else if !foundDuration {
        var nextT := x.t;
        dur := (nextT - time) % U64;
      }
      if x.hasNext && x.t != NONE && x.t < time {
        return false;
      }
      duration := (duration + dur) % U64;
      frags := frags + [Fragment(x.n, dur, time)];
      ok := true;
    }

    method AppendNextFragment(time: Word, dur: Word) returns (ok: bool)
      modifies this`frags, this`duration, this`cursor, this`eos
      ensures ok == (old(frags) != [])
      ensures State() == if ok then Append(old(State()), time, dur) else old(State())
    {
      if frags == [] {
        return false;
      }
      var last := Last(frags);
      if last.time < time {
        var d := if dur == NONE then time - last.time else dur;
        duration := (duration + d) % U64;
        frags := frags + [Fragment(0, d, time)];
        if eos {
          cursor := cursor + 1;
          eos := false;
        }
      }
      ok := true;
    }

    /** The loop over a look-ahead list. */
    method AppendLiveParams(ps: seq<Param>) returns (ok: bool)
      modifies this`frags, this`duration, this`cursor, this`eos
      ensures ok == (old(frags) != [] || ps == [])
      ensures State() == if old(frags) != [] then AppendAll(old(State()), ps) else old(State())
    {
      for i := 0 to |ps|
        invariant (frags != []) == (old(frags) != []) && (frags == [] ==> i == 0)
        invariant State() == if old(frags) != [] then AppendAll(old(State()), ps[..i]) else old(State())
      {
        assert ps[..i + 1][..i] == ps[..i];
        var appended := AppendNextFragment(ps[i].time, ps[i].dur);
        if !appended {
          return false;
        }
      }
      assert ps[..|ps|] == ps;
      ok := true;
    }

    /** The part of the consumer's call behind the wait. */
    method TakeFragment() returns (f: Fragment)
      requires cursor < |frags|
      modifies this`cursor, this`eos
      ensures f == old(frags[cursor]) && State() == Deliver(old(State()))
    {
      f := frags[cursor];
      if cursor + 1 < |frags| {
        cursor := cursor + 1;
      } else {
        eos := true;
      }
    }

    /** The consumer's call up to the wait; without one, all of it. */
    method GetNextFragment(live: bool) returns (g: Got)
      requires cursor < |frags|
      modifies this`cursor, this`eos
      ensures (State(), g) == Ask(old(State()), live)
    {
      if eos {
        return if live then Blocked else EndOfStream;
      }
      var f := TakeFragment();
      g := Got(f);
    }

    /** The rest of a call that waited: it moves the cursor on once more. */
    method WakeUp() returns (g: Got)
      requires cursor < |frags|
      modifies this`cursor, this`eos
      ensures (State(), g) == Resume(old(State()))
    {
      if cursor + 1 == |frags| {
        return NoFragment;
      }
      cursor := cursor + 1;
      var f := TakeFragment();
      g := Got(f);
    }

    /** One stream of a seek. `ok` is false if the cursor runs off the list. */
    method SeekStream(target: nat, timescale: nat) returns (ok: bool, start: nat)
      requires cursor < |frags|
      modifies this`cursor, this`level
      ensures var r := SeekOne(old(State()), timescale, target);
              ok == r.Some? && State() == (if ok then r.value else old(State()))
      ensures ok ==> cursor < |frags| && start == frags[cursor].time
    {
      ghost var starts := Starts(frags, timescale);
      var i: int := cursor;
      start := 0;
      if target > Scale(frags[cursor].time, timescale) {
        while i < |frags| && target > Scale(frags[i].time, timescale)
          invariant cursor <= i <= |frags|
          invariant i == cursor ==> target > starts[cursor]
          invariant SeekForward(starts, target, i) == SeekForward(starts, target, cursor)
        {
          i := i + 1;
        }
        if i == |frags| {
          return false, 0;
        }
        i := i - 1;
      } else if target < Scale(frags[cursor].time, timescale) {
        while i >= 0 && target < Scale(frags[i].time, timescale)
          invariant -1 <= i <= cursor
          invariant SeekBackward(starts, target, i) == SeekBackward(starts, target, cursor)
        {
          i := i - 1;
        }
        if i < 0 {
          return false, 0;
        }
      }
      cursor := i;
      if isVideo {
        level := 0;
      }
      ok, start := true, frags[cursor].time;
    }
  }

  /** The manifest object: up to one stream of each kind, and the start of the next segment. */
  class Presentation {
    const streams: seq<StreamNode?>
    const timescale: nat
    const live: bool
    var nsStart: nat

    ghost predicate Valid()
      reads this, streams
    {
      && (forall i, j :: 0 <= i < j < |streams| && streams[i] != null ==> streams[i] != streams[j])
      && AllValid(States())
    }

    constructor (streams: seq<StreamNode?>, timescale: nat, live: bool)
      ensures this.streams == streams && this.timescale == timescale && this.live == live && nsStart == 0
    {
      this.streams, this.timescale, this.live, nsStart := streams, timescale, live, 0;
    }

    function StateOf(s: StreamNode?): Option<Stream>
      reads s
    {
      if s == null then None else Some(s.State())
    }

    function States(): (r: seq<Option<Stream>>)
      reads streams
      ensures |r| == |streams| && forall i :: 0 <= i < |r| ==> r[i] == StateOf(streams[i])
    {
      seq(|streams|, i requires 0 <= i < |streams| reads streams => StateOf(streams[i]))
    }

    /** The loop body of a seek. */
    method SeekNth(i: nat, target: nat) returns (ok: bool)
      requires Valid() && i < |streams|
      modifies this, streams[i]
      ensures Valid()
      ensures var s := old(States()[i]);
              if s.None? then ok && States() == old(States()) && nsStart == old(nsStart)
              else
                var r := SeekOne(s.value, timescale, target);
                && ok == r.Some?
                && States() == (if ok then old(States())[i := r] else old(States()))
                && (ok ==> var start := r.value.frags[r.value.cursor].time;
                           nsStart == if start > old(nsStart) then start else old(nsStart))
    {
      ok := true;
      assert States()[i] == StateOf(streams[i]);
      var s := streams[i];
      if s != null {
        var start;
        ghost var was := States();
        ok, start := s.SeekStream(target, timescale);
        assert States() == was[i := Some(s.State())];
        if ok && start > nsStart {
          nsStart := start;
        }
        assert States() == was[i := Some(s.State())];
      }
    }

    method SeekManifest(target: nat) returns (ok: bool)
      requires Valid()
      modifies this, set i | 0 <= i < |streams| && streams[i] != null :: streams[i]
      ensures var r := SeekFirst(old(States()), timescale, target, |streams|);
              ok == r.Some? && (ok ==> States() == r.value.streams && nsStart == r.value.start)
    {
      nsStart := 0;
      ghost var was := States();
      for i := 0 to |streams|
        invariant Valid()
        invariant SeekFirst(was, timescale, target, i) == Some(Sought(States(), nsStart))
        invariant States()[i..] == was[i..]
      {
        assert States()[i] == States()[i..][0] == was[i..][0] == was[i];
        ghost var before := States();
        ok := SeekNth(i, target);
        if !ok {
          SeekStays(was, timescale, target, i + 1, |streams|);
          return;
        }
        SameTail(before, was, States(), i);
      }
      ok := true;
    }
  }
}
