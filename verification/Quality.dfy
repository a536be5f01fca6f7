/** The bitrate ladder of a stream: its sort order and the switch between its levels. Rates are
    compared in exact arithmetic. */
module Quality {
  import opened Common

  // ---- the order of the ladder ----

  /** The comparator: a difference of guints returned as a gint. */
  function Compare(a: nat, b: nat): int {
    Signed32((a - b) % U32)
  }

  /** It has the sign of the difference exactly while the difference fits into 32 bits. */
  lemma {:induction false} CompareIff(a: nat, b: nat)
    requires a < U32 && b < U32
    ensures (Compare(a, b) > 0 <==> a > b) && (Compare(a, b) < 0 <==> a < b) <==> -U32 / 2 <= a - b < U32 / 2
  {
    var d := (a - b) % U32;
    assert d == if a >= b then a - b else a - b + U32;
  }

  /** A wrong verdict: 3 Gbit/s sorts below 0. */
  lemma CompareWraps()
    ensures Compare(3_000_000_000, 0) < 0
  {
    assert (3_000_000_000 - 0) % U32 == 3_000_000_000;
  }

  /** The merge step and the halving of `g_list_sort`. */
  function MergeRuns(x: seq<nat>, y: seq<nat>): seq<nat> {
    if x == [] then y
    else if y == [] then x
    else if Compare(x[0], y[0]) <= 0 then [x[0]] + MergeRuns(x[1..], y)
    else [y[0]] + MergeRuns(x, y[1..])
  }

  function Sort(l: seq<nat>): seq<nat>
    decreases |l|
  {
    if |l| < 2 then l
    else MergeRuns(Sort(l[..|l| / 2]), Sort(l[|l| / 2..]))
  }

  ghost predicate Within(l: seq<nat>, lo: nat, hi: nat) {
    forall i :: 0 <= i < |l| ==> lo <= l[i] <= hi
  }

  lemma {:induction false} MergeRunsWithin(x: seq<nat>, y: seq<nat>, lo: nat, hi: nat)
    requires Within(x, lo, hi) && Within(y, lo, hi)
    ensures Within(MergeRuns(x, y), lo, hi)
    decreases |x| + |y|
  {
    if x != [] && y != [] {
      if Compare(x[0], y[0]) <= 0 {
        MergeRunsWithin(x[1..], y, lo, hi);
      } else {
        MergeRunsWithin(x, y[1..], lo, hi);
      }
    }
  }

  lemma {:induction false} MergeRunsAscends(x: seq<nat>, y: seq<nat>, lo: nat, hi: nat)
    requires Ascending(x) && Ascending(y) && Within(x, lo, hi) && Within(y, lo, hi)
    requires hi < U32 && hi - lo < U32 / 2
    ensures Ascending(MergeRuns(x, y))
    decreases |x| + |y|
  {
    if x != [] && y != [] {
      CompareIff(x[0], y[0]);
      if Compare(x[0], y[0]) <= 0 {
        MergeRunsAscends(x[1..], y, lo, hi);
        MergeRunsWithin(x[1..], y, x[0], hi);
      } else {
        MergeRunsAscends(x, y[1..], lo, hi);
        MergeRunsWithin(x, y[1..], y[0], hi);
      }
    }
  }

  lemma {:induction false} MergeRunsKeeps(x: seq<nat>, y: seq<nat>)
    ensures multiset(MergeRuns(x, y)) == multiset(x) + multiset(y)
    decreases |x| + |y|
  {
    if x != [] && y != [] {
      assert x == [x[0]] + x[1..] && y == [y[0]] + y[1..];
      if Compare(x[0], y[0]) <= 0 {
        MergeRunsKeeps(x[1..], y);
      } else {
        MergeRunsKeeps(x, y[1..]);
      }
    }
  }

  /** Sorting keeps the levels, and a ladder whose bitrates lie within 2^31 of each other ends up in
      ascending order. */
  lemma {:induction false} SortAscends(l: seq<nat>, lo: nat, hi: nat)
    requires Within(l, lo, hi) && hi < U32 && hi - lo < U32 / 2
    ensures Ascending(Sort(l)) && Within(Sort(l), lo, hi) && multiset(Sort(l)) == multiset(l)
    decreases |l|
  {
    if |l| >= 2 {
      var x, y := l[..|l| / 2], l[|l| / 2..];
      assert l == x + y;
      SortAscends(x, lo, hi);
      SortAscends(y, lo, hi);
      MergeRunsAscends(Sort(x), Sort(y), lo, hi);
      MergeRunsWithin(Sort(x), Sort(y), lo, hi);
      MergeRunsKeeps(Sort(x), Sort(y));
    }
  }

  // ---- switching ----

  datatype Mode = NoSwitch | AudioOnly | AudioVideo

  /** The download rate is more than 1.4 times, or less than 1.1 times, the bitrate. */
  predicate Above(rate: nat, bitrate: nat) {
    5 * rate > 7 * bitrate
  }

  predicate Below(rate: nat, bitrate: nat) {
    10 * rate < 11 * bitrate
  }

  /** The level after a switch: all the way up or all the way down, because the bitrate the rate is
      compared with is that of the level at entry throughout. */
  function NewLevel(ladder: seq<nat>, level: nat, rate: nat): nat
    requires level < |ladder|
  {
    if Above(rate, ladder[level]) then |ladder| - 1
    else if Below(rate, ladder[level]) then 0
    else level
  }

  function Verdict(ladder: seq<nat>, level: nat, rate: nat, live: bool): Mode
    requires level < |ladder|
  {
    if !Below(rate, ladder[level]) then NoSwitch else if live then AudioOnly else AudioVideo
  }

  method SwitchQualityLevel(ladder: seq<nat>, level: nat, rate: nat, live: bool) returns (next: nat, mode: Mode)
    requires level < |ladder|
    ensures next < |ladder|
    ensures next == NewLevel(ladder, level, rate) && mode == Verdict(ladder, level, rate, live)
  {
    next, mode := level, NoSwitch;
    var bitrate := ladder[level];
    while Above(rate, bitrate)
      invariant level <= next < |ladder| && bitrate == ladder[level]
      invariant !Above(rate, bitrate) ==> next == level && mode == NoSwitch
      decreases |ladder| - next
    {
      if next + 1 < |ladder| {
        next := next + 1;
        mode := AudioVideo;
      } else {
        mode := NoSwitch;
        break;
      }
    }
    while Below(rate, bitrate)
      invariant next < |ladder| && bitrate == ladder[level]
      invariant !Below(rate, bitrate) ==> next == NewLevel(ladder, level, rate) && mode == NoSwitch
      decreases next
    {
      if next > 0 {
        next := next - 1;
      } else {
        mode := if live then AudioOnly else AudioVideo;
        break;
      }
    }
  }

  /** The level moves up or down or not at all, never both ways; it stays inside the band from 1.1
      to 1.4 times the bitrate. */
  lemma {:induction false} MovesOneWay(ladder: seq<nat>, level: nat, rate: nat)
    requires level < |ladder| && Ascending(ladder)
    ensures !(Above(rate, ladder[level]) && Below(rate, ladder[level]))
    ensures ladder[NewLevel(ladder, level, rate)] >= ladder[level] <==>
            !Below(rate, ladder[level]) || ladder[0] == ladder[level]
    ensures NewLevel(ladder, level, rate) == level <==>
            || (11 * ladder[level] <= 10 * rate && 5 * rate <= 7 * ladder[level])
            || (Above(rate, ladder[level]) && level == |ladder| - 1)
            || (Below(rate, ladder[level]) && level == 0)
    ensures 5 * rate > 7 * ladder[level] ==>
              forall i :: 0 <= i < |ladder| ==> ladder[i] <= ladder[NewLevel(ladder, level, rate)]
    ensures 10 * rate < 11 * ladder[level] ==>
              forall i :: 0 <= i < |ladder| ==> ladder[NewLevel(ladder, level, rate)] <= ladder[i]
  {
  }

  /** "No switch" is reported exactly when nothing moved, except in two situations: a move up is
      reported as no switch, and staying at the bottom as a switch. Audio only is reported exactly for a
      live stream whose rate is too low. */
  lemma {:induction false} VerdictTellsIff(ladder: seq<nat>, level: nat, rate: nat, live: bool)
    requires level < |ladder|
    ensures (Verdict(ladder, level, rate, live) == NoSwitch <==> NewLevel(ladder, level, rate) == level)
       <==> !(Above(rate, ladder[level]) && level < |ladder| - 1) && !(Below(rate, ladder[level]) && level == 0)
    ensures Verdict(ladder, level, rate, live) == AudioOnly <==> live && 10 * rate < 11 * ladder[level]
    ensures Verdict(ladder, level, rate, live) == AudioVideo <==> !live && 10 * rate < 11 * ladder[level]
  {
  }

  // ---- a constant download rate ----

  /** The level after n switches at the same rate. */
  function After(ladder: seq<nat>, level: nat, rate: nat, n: nat): (r: nat)
    requires level < |ladder|
    ensures r < |ladder|
  {
    if n == 0 then level else NewLevel(ladder, After(ladder, level, rate, n - 1), rate)
  }

  /** Between 1.4 times the lowest and 1.1 times the highest bitrate neither end of the ladder
      suits the rate. */
  predicate Swings(ladder: seq<nat>, rate: nat)
    requires ladder != []
  {
    Above(rate, ladder[0]) && Below(rate, ladder[|ladder| - 1])
  }

  predicate InBand(ladder: seq<nat>, level: nat, rate: nat)
    requires level < |ladder|
  {
    !Above(rate, ladder[level]) && !Below(rate, ladder[level])
  }

  lemma {:induction false} SettledStays(ladder: seq<nat>, level: nat, rate: nat, n: nat, m: nat)
    requires level < |ladder| && n <= m
    requires NewLevel(ladder, After(ladder, level, rate, n), rate) == After(ladder, level, rate, n)
    ensures After(ladder, level, rate, m) == After(ladder, level, rate, n)
  {
    if n < m {
      SettledStays(ladder, level, rate, n, m - 1);
    }
  }

  lemma {:induction false} SwingsOn(ladder: seq<nat>, level: nat, rate: nat, n: nat)
    requires level < |ladder| && Swings(ladder, rate) && !InBand(ladder, level, rate) && n > 0
    ensures var r := After(ladder, level, rate, n); (r == 0 || r == |ladder| - 1) && |ladder| > 1
  {
    if n > 1 {
      SwingsOn(ladder, level, rate, n - 1);
    }
  }

  /** At a constant rate the level is settled after two switches, unless the rate suits neither end
      of the ladder and not the level at entry: then every switch moves from one end to the other. */
  lemma {:induction false} SettlesIff(ladder: seq<nat>, level: nat, rate: nat)
    requires level < |ladder| && Ascending(ladder)
    ensures (forall n :: n >= 2 ==> After(ladder, level, rate, n) == After(ladder, level, rate, 2))
       <==> InBand(ladder, level, rate) || !Swings(ladder, rate)
    ensures !InBand(ladder, level, rate) && Swings(ladder, rate) ==>
            forall n :: n >= 1 ==> After(ladder, level, rate, n + 1) != After(ladder, level, rate, n)
  {
    if InBand(ladder, level, rate) || !Swings(ladder, rate) {
      var a := After(ladder, level, rate, 1);
      assert a == NewLevel(ladder, After(ladder, level, rate, 0), rate);
      var b := After(ladder, level, rate, 2);
      assert b == NewLevel(ladder, a, rate);
      assert NewLevel(ladder, b, rate) == b;
      forall n | n >= 2 ensures After(ladder, level, rate, n) == b {
        SettledStays(ladder, level, rate, 2, n);
      }
    } else {
      forall n | n >= 1 ensures After(ladder, level, rate, n + 1) != After(ladder, level, rate, n) {
        SwingsOn(ladder, level, rate, n);
      }
      assert After(ladder, level, rate, 3) != After(ladder, level, rate, 2);
    }
  }
}
