/** The part of Python's `re` module that the documentation tools use: patterns made of
    literals, `(\S*)` / `(\S+)`, `(.*?)` and `(.*)` under DOTALL, matched by backtracking.
    A pattern is a sequence of items; every item that is not a literal is a capturing group. */
module Regex {
  import opened Common

  /** `Word(min)` is `(\S*)` for min 0 and `(\S+)` for min 1; `Lazy` is `(.*?)`; `Greedy` is `(.*)`. */
  datatype Item = Lit(text: string) | Word(min: nat) | Lazy | Greedy

  /** What a match yields: the captured texts in group order and the number of characters used. */
  datatype Hit = Hit(caps: seq<string>, len: nat)

  /** A hit of a search, `at` characters into the text. */
  datatype Found = Found(at: nat, hit: Hit)

  predicate NoSpace(s: string) {
    forall i :: 0 <= i < |s| ==> !IsSpace(s[i])
  }

  /** Length of the longest prefix without white space: as far as `\S*` can reach. */
  function Run(t: string): (n: nat)
    ensures n <= |t| && NoSpace(t[..n])
    ensures n == |t| || IsSpace(t[n])
  {
    if t == "" || IsSpace(t[0]) then 0 else
      var n := 1 + Run(t[1..]);
      assert t[..n] == [t[0]] + t[1..][..n - 1];
      n
  }

  /** Whether the pattern matches at the start of the text, and the first match in the
      order in which a backtracking matcher tries them. */
  function Match(p: seq<Item>, t: string): (r: Option<Hit>)
    ensures r.Some? ==> r.value.len <= |t|
    ensures r.Some? && p != [] && p[0].Lit? ==> |p[0].text| <= r.value.len
    decreases |p|, |t| + 2
  {
    if p == [] then Some(Hit([], 0))
    else match p[0]
      case Lit(w) =>
        if w <= t then
          match Match(p[1..], t[|w|..])
          case None => None
          case Some(h) => Some(Hit(h.caps, |w| + h.len))
        else None
      case Word(min) => Shrink(p[1..], t, Run(t), min)
      case Lazy => Grow(p[1..], t, 0)
      case Greedy => Shrink(p[1..], t, |t|, 0)
  }

  /** A group takes k characters and the rest of the pattern must match behind it. */
  function Take(p: seq<Item>, t: string, k: nat): (r: Option<Hit>)
    requires k <= |t|
    ensures r.Some? ==> k <= r.value.len <= |t|
    decreases |p| + 1, 0
  {
    match Match(p, t[k..])
    case None => None
    case Some(h) => Some(Hit([t[..k]] + h.caps, k + h.len))
  }

  /** Greedy group: k characters, then fewer, down to min. */
  function Shrink(p: seq<Item>, t: string, k: nat, min: nat): (r: Option<Hit>)
    requires k <= |t|
    ensures r.Some? ==> r.value.len <= |t|
    decreases |p| + 1, k + 1
  {
    if k < min then None
    else if Take(p, t, k).Some? || k == 0 then Take(p, t, k)
    else Shrink(p, t, k - 1, min)
  }

  /** Lazy group: k characters, then more. */
  function Grow(p: seq<Item>, t: string, k: nat): (r: Option<Hit>)
    requires k <= |t|
    ensures r.Some? ==> r.value.len <= |t|
    decreases |p| + 1, |t| - k + 1
  {
    if Take(p, t, k).Some? || k == |t| then Take(p, t, k)
    else Grow(p, t, k + 1)
  }

  /** `re.search`: the leftmost place at which the pattern matches. */
  function Search(p: seq<Item>, t: string): (r: Option<Found>)
    ensures r.Some? ==> r.value.at + r.value.hit.len <= |t|
    ensures r.Some? ==> Match(p, t[r.value.at..]) == Some(r.value.hit)
    ensures r.Some? ==> forall j :: 0 <= j < r.value.at ==> Match(p, t[j..]).None?
    ensures r.None? ==> forall j :: 0 <= j <= |t| ==> Match(p, t[j..]).None?
    decreases |t|
  {
    assert t[0..] == t;
    if Match(p, t).Some? then Some(Found(0, Match(p, t).value))
    else if t == "" then None
    else
      assert forall j :: 1 <= j <= |t| ==> t[j..] == t[1..][j - 1..];
      match Search(p, t[1..])
      case None => None
      case Some(f) => Some(Found(f.at + 1, f.hit))
  }

  /** `re.findall` for a pattern with one group: hit after hit, each search starting behind the
      hit before it, and one character further behind an empty one. */
  function FindAll(p: seq<Item>, t: string): seq<string>
    decreases |t|
  {
    match Search(p, t)
    case None => []
    case Some(f) =>
      var n := f.at + f.hit.len + (if f.hit.len == 0 then 1 else 0);
      (if f.hit.caps == [] then [] else [f.hit.caps[0]]) + (if n <= |t| then FindAll(p, t[n..]) else [])
  }

  /** The text a match with the given captures has covered. */
  function Render(p: seq<Item>, caps: seq<string>): string {
    if p == [] then ""
    else if p[0].Lit? then p[0].text + Render(p[1..], caps)
    else if caps == [] then ""
    else caps[0] + Render(p[1..], caps[1..])
  }

  /** The captures fit the groups: one text for each group, no white space in a word. */
  predicate Fits(p: seq<Item>, caps: seq<string>) {
    if p == [] then caps == []
    else if p[0].Lit? then Fits(p[1..], caps)
    else caps != [] && (p[0].Word? ==> NoSpace(caps[0]) && p[0].min <= |caps[0]|) && Fits(p[1..], caps[1..])
  }

  // ---- which number of characters a group takes ----

  lemma {:induction false} ShrinkStops(p: seq<Item>, t: string, k: nat, min: nat) returns (c: nat)
    requires k <= |t|
    ensures Shrink(p, t, k, min).Some? ==> min <= c <= k && Shrink(p, t, k, min) == Take(p, t, c) && Take(p, t, c).Some?
    ensures Shrink(p, t, k, min).Some? ==> forall j :: c < j <= k ==> Take(p, t, j).None?
    ensures Shrink(p, t, k, min).None? ==> forall j :: min <= j <= k ==> Take(p, t, j).None?
    decreases k
  {
    c := k;
    if min <= k && Take(p, t, k).None? && k != 0 {
      c := ShrinkStops(p, t, k - 1, min);
    }
  }

  lemma {:induction false} GrowStops(p: seq<Item>, t: string, k: nat) returns (c: nat)
    requires k <= |t|
    ensures Grow(p, t, k).Some? ==> k <= c <= |t| && Grow(p, t, k) == Take(p, t, c) && Take(p, t, c).Some?
    ensures Grow(p, t, k).Some? ==> forall j :: k <= j < c ==> Take(p, t, j).None?
    ensures Grow(p, t, k).None? ==> forall j :: k <= j <= |t| ==> Take(p, t, j).None?
    decreases |t| - k
  {
    c := k;
    if Take(p, t, k).None? && k != |t| {
      c := GrowStops(p, t, k + 1);
    }
  }

  /** The other direction: the number of characters that is tried first among those that work. */
  lemma {:induction false} ShrinkTo(p: seq<Item>, t: string, k: nat, min: nat, c: nat)
    requires min <= c <= k <= |t| && Take(p, t, c).Some?
    requires forall j :: c < j <= k ==> Take(p, t, j).None?
    ensures Shrink(p, t, k, min) == Take(p, t, c)
  {
    var d := ShrinkStops(p, t, k, min);
  }

  lemma {:induction false} ShrinkNone(p: seq<Item>, t: string, k: nat, min: nat)
    requires k <= |t|
    requires forall j :: min <= j <= k ==> Take(p, t, j).None?
    ensures Shrink(p, t, k, min).None?
  {
    var d := ShrinkStops(p, t, k, min);
  }

  lemma {:induction false} ShrinkSame(p: seq<Item>, t: string, x: string, k: nat, min: nat)
    requires k <= |t| && k <= |x| && forall j :: 0 <= j <= k ==> Take(p, t, j) == Take(p, x, j)
    ensures Shrink(p, t, k, min) == Shrink(p, x, k, min)
  {
    var c := ShrinkStops(p, x, k, min);
    if Shrink(p, x, k, min).None? {
      ShrinkNone(p, t, k, min);
    } else {
      ShrinkTo(p, t, k, min, c);
    }
  }

  lemma {:induction false} GrowTo(p: seq<Item>, t: string, k: nat, c: nat)
    requires k <= c <= |t| && Take(p, t, c).Some?
    requires forall j :: k <= j < c ==> Take(p, t, j).None?
    ensures Grow(p, t, k) == Take(p, t, c)
  {
    var d := GrowStops(p, t, k);
  }

  lemma {:induction false} GrowNone(p: seq<Item>, t: string, k: nat)
    requires k <= |t|
    requires forall j :: k <= j <= |t| ==> Take(p, t, j).None?
    ensures Grow(p, t, k).None?
  {
    var d := GrowStops(p, t, k);
  }

  lemma {:induction false} RunTo(t: string, n: nat)
    requires n <= |t| && NoSpace(t[..n]) && (n == |t| || IsSpace(t[n]))
    ensures Run(t) == n
  {
    var m := Run(t);
    assert forall i :: 0 <= i < m ==> t[i] == t[..m][i];
    assert forall i :: 0 <= i < n ==> t[i] == t[..n][i];
  }

  // ---- properties of every pattern ----

  /** A match covers exactly the rendering of its captures. */
  lemma {:induction false} MatchRenders(p: seq<Item>, t: string)
    requires Match(p, t).Some?
    ensures t[..Match(p, t).value.len] == Render(p, Match(p, t).value.caps)
    ensures Fits(p, Match(p, t).value.caps)
    decreases |p|, 1
  {
    if p != [] {
      var h := Match(p, t).value;
      match p[0] {
        case Lit(w) =>
          MatchRenders(p[1..], t[|w|..]);
          assert t[..h.len] == w + t[|w|..][..h.len - |w|];
        case Word(min) =>
          var c := ShrinkStops(p[1..], t, Run(t), min);
          TakeRenders(p[1..], t, c);
          assert forall i :: 0 <= i < c ==> t[i] == t[..Run(t)][i];
        case Lazy =>
          var c := GrowStops(p[1..], t, 0);
          TakeRenders(p[1..], t, c);
        case Greedy =>
          var c := ShrinkStops(p[1..], t, |t|, 0);
          TakeRenders(p[1..], t, c);
      }
    }
  }

  lemma {:induction false} TakeRenders(p: seq<Item>, t: string, k: nat)
    requires k <= |t| && Take(p, t, k).Some?
    ensures var h := Take(p, t, k).value;
            && h.caps != [] && h.caps[0] == t[..k]
            && t[..h.len] == t[..k] + Render(p, h.caps[1..]) && Fits(p, h.caps[1..])
    decreases |p|, 2
  {
    MatchRenders(p, t[k..]);
    var h := Match(p, t[k..]).value;
    assert t[..k + h.len] == t[..k] + t[k..][..h.len];
    assert ([t[..k]] + h.caps)[1..] == h.caps;
  }

  /** And the other way round: where a text starts with a rendering of the pattern, the pattern
      matches, if not always with the same captures. */
  lemma {:induction false} RenderMatches(p: seq<Item>, caps: seq<string>, t: string)
    requires Fits(p, caps) && Render(p, caps) <= t
    ensures Match(p, t).Some?
    decreases |p|
  {
    if p != [] {
      var q := p[1..];
      if p[0].Lit? {
        RenderBehind(p[0].text, Render(q, caps), t);
        RenderMatches(q, caps, t[|p[0].text|..]);
      } else {
        var c := caps[0];
        RenderBehind(c, Render(q, caps[1..]), t);
        RenderMatches(q, caps[1..], t[|c|..]);
        assert Take(q, t, |c|).Some?;
        GroupMatches(p, t, |c|);
      }
    }
  }

  lemma {:induction false} RenderBehind(w: string, r: string, t: string)
    requires w + r <= t
    ensures w <= t && t[..|w|] == w && r <= t[|w|..]
  {
    assert t[..|w|] == (w + r)[..|w|];
    assert t[|w|..][..|r|] == r;
  }

  /** A group that can take k characters takes some number of them. */
  lemma {:induction false} GroupMatches(p: seq<Item>, t: string, k: nat)
    requires p != [] && !p[0].Lit? && k <= |t| && Take(p[1..], t, k).Some?
    requires p[0].Word? ==> NoSpace(t[..k]) && p[0].min <= k
    ensures Match(p, t).Some?
  {
    var q := p[1..];
    match p[0] {
      case Word(min) =>
        RunReaches(t, k);
        var c := ShrinkStops(q, t, Run(t), min);
      case Lazy =>
        var c := GrowStops(q, t, 0);
      case Greedy =>
        var c := ShrinkStops(q, t, |t|, 0);
    }
  }

  /** No match looks behind its own end: cutting the text anywhere at or behind the end of
      the match leaves the match as it is, and cutting it never creates one. */
  lemma {:induction false} MatchCut(p: seq<Item>, t: string, m: nat)
    requires m <= |t|
    ensures Match(p, t).None? ==> Match(p, t[..m]).None?
    ensures Match(p, t).Some? && Match(p, t).value.len <= m ==> Match(p, t[..m]) == Match(p, t)
    decreases |p|
  {
    if p != [] {
      var q, u := p[1..], t[..m];
      match p[0] {
        case Lit(w) =>
          if |w| <= m {
            assert u[|w|..] == t[|w|..][..m - |w|];
            assert w <= t <==> w <= u;
            if w <= t {
              MatchCut(q, t[|w|..], m - |w|);
            }
          }
        case Word(min) =>
          var n := if Run(t) <= m then Run(t) else m;
          assert u[..n] == t[..Run(t)][..n];
          RunTo(u, n);
          ShrinkCut(q, t, m, Run(t), n, min);
        case Lazy =>
          GrowCut(q, t, m);
        case Greedy =>
          ShrinkCut(q, t, m, |t|, m, 0);
      }
    }
  }

  lemma {:induction false} TakeCut(p: seq<Item>, t: string, m: nat, k: nat)
    requires k <= m <= |t|
    ensures Take(p, t, k).None? ==> Take(p, t[..m], k).None?
    ensures Take(p, t, k).Some? && Take(p, t, k).value.len <= m ==> Take(p, t[..m], k) == Take(p, t, k)
    decreases |p| + 1, 0
  {
    assert t[..m][k..] == t[k..][..m - k];
    assert t[..m][..k] == t[..k];
    MatchCut(p, t[k..], m - k);
  }

  lemma {:induction false} ShrinkCut(p: seq<Item>, t: string, m: nat, k: nat, n: nat, min: nat)
    requires k <= |t| && m <= |t| && n == (if k <= m then k else m)
    ensures Shrink(p, t, k, min).None? ==> Shrink(p, t[..m], n, min).None?
    ensures Shrink(p, t, k, min).Some? && Shrink(p, t, k, min).value.len <= m
            ==> Shrink(p, t[..m], n, min) == Shrink(p, t, k, min)
    decreases |p| + 1, 1
  {
    forall j | 0 <= j <= n
      ensures Take(p, t, j).None? ==> Take(p, t[..m], j).None?
      ensures Take(p, t, j).Some? && Take(p, t, j).value.len <= m ==> Take(p, t[..m], j) == Take(p, t, j)
    {
      TakeCut(p, t, m, j);
    }
    var c := ShrinkStops(p, t, k, min);
    if Shrink(p, t, k, min).None? {
      ShrinkNone(p, t[..m], n, min);
    } else if Shrink(p, t, k, min).value.len <= m {
      ShrinkTo(p, t[..m], n, min, c);
    }
  }

  lemma {:induction false} GrowCut(p: seq<Item>, t: string, m: nat)
    requires m <= |t|
    ensures Grow(p, t, 0).None? ==> Grow(p, t[..m], 0).None?
    ensures Grow(p, t, 0).Some? && Grow(p, t, 0).value.len <= m ==> Grow(p, t[..m], 0) == Grow(p, t, 0)
    decreases |p| + 1, 1
  {
    forall j | 0 <= j <= m
      ensures Take(p, t, j).None? ==> Take(p, t[..m], j).None?
      ensures Take(p, t, j).Some? && Take(p, t, j).value.len <= m ==> Take(p, t[..m], j) == Take(p, t, j)
    {
      TakeCut(p, t, m, j);
    }
    var c := GrowStops(p, t, 0);
    if Grow(p, t, 0).None? {
      GrowNone(p, t[..m], 0);
    } else if Grow(p, t, 0).value.len <= m {
      GrowTo(p, t[..m], 0, c);
    }
  }

  /** Literals without white space and words only. */
  predicate OneLine(p: seq<Item>) {
    forall i :: 0 <= i < |p| ==> p[i].Word? || (p[i].Lit? && NoSpace(p[i].text))
  }

  lemma {:induction false} WordStops(w: string, x: string, y: string)
    requires NoSpace(w) && y != "" && IsSpace(y[0])
    ensures w <= x + y <==> w <= x
    ensures w <= x ==> (x + y)[|w|..] == x[|w|..] + y
  {
    var t := x + y;
    assert t[|x|] == y[0];
    if w <= t {
      assert forall i :: 0 <= i < |w| ==> w[i] == t[i];
      assert |w| <= |x|;
      assert t[..|w|] == x[..|w|];
    }
  }

  /** Such a pattern cannot see past a white-space character. */
  lemma {:induction false} OneLineStops(p: seq<Item>, x: string, y: string)
    requires OneLine(p) && y != "" && IsSpace(y[0])
    ensures Match(p, x + y) == Match(p, x)
    decreases |p|
  {
    if p != [] {
      var q := p[1..];
      assert OneLine(q);
      forall j | 0 <= j <= |x| ensures Match(q, x[j..] + y) == Match(q, x[j..]) {
        OneLineStops(q, x[j..], y);
      }
      if p[0].Lit? {
        WordStops(p[0].text, x, y);
      } else {
        RunStops(p, x, y);
      }
    }
  }

  lemma {:induction false} RunStops(p: seq<Item>, x: string, y: string)
    requires p != [] && p[0].Word? && y != "" && IsSpace(y[0])
    requires forall j :: 0 <= j <= |x| ==> Match(p[1..], x[j..] + y) == Match(p[1..], x[j..])
    ensures Match(p, x + y) == Match(p, x)
  {
    var q, t, n := p[1..], x + y, Run(x);
    SameRun(x, y);
    forall j | 0 <= j <= n ensures Take(q, t, j) == Take(q, x, j) {
      TakeStops(q, x, y, j);
    }
    ShrinkSame(q, t, x, n, p[0].min);
  }

  lemma {:induction false} SameRun(x: string, y: string)
    requires y != "" && IsSpace(y[0])
    ensures Run(x + y) == Run(x)
  {
    assert (x + y)[..Run(x)] == x[..Run(x)];
    RunTo(x + y, Run(x));
  }

  lemma {:induction false} TakeStops(q: seq<Item>, x: string, y: string, j: nat)
    requires j <= |x| && Match(q, x[j..] + y) == Match(q, x[j..])
    ensures Take(q, x + y, j) == Take(q, x, j)
  {
    assert (x + y)[j..] == x[j..] + y && (x + y)[..j] == x[..j];
  }

  /** The other direction of a search. */
  lemma {:induction false} SearchTo(p: seq<Item>, t: string, at: nat)
    requires at <= |t| && Match(p, t[at..]).Some?
    requires forall j :: 0 <= j < at ==> Match(p, t[j..]).None?
    ensures Search(p, t) == Some(Found(at, Match(p, t[at..]).value))
  {
    var r := Search(p, t);
    if r.Some? {
      assert r.value.at == at;
    }
  }

  /** A pattern that ends in `(.*)` takes the whole text. */
  lemma {:induction false} GreedyTakesAll(p: seq<Item>, t: string)
    requires p != [] && p[|p| - 1].Greedy? && Match(p, t).Some?
    ensures Match(p, t).value.len == |t|
    decreases |p|
  {
    var q := p[1..];
    if q == [] {
      assert Take(q, t, |t|) == Some(Hit([t[..|t|]] + [], |t|));
    } else {
      assert q[|q| - 1] == p[|p| - 1];
      match p[0] {
        case Lit(w) => GreedyTakesAll(q, t[|w|..]);
        case Word(min) =>
          var c := ShrinkStops(q, t, Run(t), min);
          GreedyTakesAll(q, t[c..]);
        case Lazy =>
          var c := GrowStops(q, t, 0);
          GreedyTakesAll(q, t[c..]);
        case Greedy =>
          var c := ShrinkStops(q, t, |t|, 0);
          GreedyTakesAll(q, t[c..]);
      }
    }
  }

  /** A pattern that ends in a literal ends every match with it. */
  lemma {:induction false} LiteralEnds(p: seq<Item>, caps: seq<string>)
    requires p != [] && p[|p| - 1].Lit? && Fits(p, caps)
    ensures var w, r := p[|p| - 1].text, Render(p, caps); |w| <= |r| && r[|r| - |w|..] == w
    decreases |p|
  {
    var w, q := p[|p| - 1].text, p[1..];
    if q == [] {
      assert Render(p, caps) == w + "";
    } else {
      assert q[|q| - 1] == p[|p| - 1];
      if p[0].Lit? {
        LiteralEnds(q, caps);
        assert Render(p, caps) == p[0].text + Render(q, caps);
      } else {
        LiteralEnds(q, caps[1..]);
        assert Render(p, caps) == caps[0] + Render(q, caps[1..]);
      }
    }
  }

  lemma {:induction false} RenderAppend(p: seq<Item>, q: seq<Item>, c: seq<string>, d: seq<string>)
    requires Fits(p, c)
    ensures Render(p + q, c + d) == Render(p, c) + Render(q, d)
    decreases |p|
  {
    if p == [] {
      assert p + q == q && c + d == d;
    } else {
      assert (p + q)[1..] == p[1..] + q;
      if p[0].Lit? {
        RenderAppend(p[1..], q, c, d);
      } else {
        assert (c + d)[1..] == c[1..] + d;
        RenderAppend(p[1..], q, c[1..], d);
      }
    }
  }

  /** The same literals at the same places; only the kinds of the groups may differ. */
  predicate SameSkeleton(p: seq<Item>, q: seq<Item>) {
    |p| == |q| && forall i :: 0 <= i < |p| ==> if p[i].Lit? then p[i] == q[i] else !q[i].Lit?
  }

  lemma {:induction false} SkeletonRenders(p: seq<Item>, q: seq<Item>, c: seq<string>)
    requires SameSkeleton(p, q)
    ensures Render(p, c) == Render(q, c)
    decreases |p|
  {
    if p != [] {
      assert p[0].Lit? <==> q[0].Lit?;
      if p[0].Lit? {
        SkeletonRenders(p[1..], q[1..], c);
      } else if c != [] {
        SkeletonRenders(p[1..], q[1..], c[1..]);
      }
    }
  }

  lemma {:induction false} MatchLit(w: string, t: string)
    ensures Match([Lit(w)], t) == if w <= t then Some(Hit([], |w|)) else None
  {
    assert [Lit(w)][1..] == [];
  }

  // ---- two words with a literal between them ----

  lemma {:induction false} RunReaches(t: string, n: nat)
    requires n <= |t| && NoSpace(t[..n])
    ensures n <= Run(t)
  {
    assert forall i :: 0 <= i < n ==> t[..n][i] == t[i];
  }

  /** A literal, a word and a literal are matched if they are there. */
  lemma {:induction false} WordBetween(m: string, z: string, u: string, b: string)
    requires NoSpace(b) && m + b + z <= u
    ensures Match([Lit(m), Word(0), Lit(z)], u).Some?
  {
    var p, w := [Lit(m), Word(0), Lit(z)], u[|m|..];
    assert p[1..] == [Word(0), Lit(z)] && p[1..][1..] == [Lit(z)];
    assert m == u[..|m|] && w[..|b|] == b && w[|b|..][..|z|] == z;
    RunReaches(w, |b|);
    MatchLit(z, w[|b|..]);
    assert Take([Lit(z)], w, |b|).Some?;
    var c := ShrinkStops([Lit(z)], w, Run(w), 0);
    assert Match(p[1..], w) == Shrink([Lit(z)], w, Run(w), 0);
  }

  /** What such a match has covered. */
  lemma {:induction false} TwoWords(m: string, z: string, v: string)
    requires Match([Word(0), Lit(m), Word(0), Lit(z)], v).Some?
    ensures var c := Match([Word(0), Lit(m), Word(0), Lit(z)], v).value.caps;
            |c| == 2 && NoSpace(c[0]) && NoSpace(c[1]) && c[0] + m + c[1] + z <= v
  {
    var p := [Word(0), Lit(m), Word(0), Lit(z)];
    var p1, p2, p3, p4 := p[1..], p[2..], p[3..], p[4..];
    assert p1[1..] == p2 && p2[1..] == p3 && p3[1..] == p4;
    MatchRenders(p, v);
    var c := Match(p, v).value.caps;
    assert Fits(p1, c[1..]) && Fits(p2, c[1..]) && Fits(p3, c[1..][1..]) && Fits(p4, c[1..][1..]);
    assert Render(p3, c[1..][1..]) == z + "";
    assert Render(p2, c[1..]) == c[1] + (z + "");
    assert Render(p1, c[1..]) == m + Render(p2, c[1..]);
    assert c[0] + m + c[1] + z == Render(p, c);
  }

  /** The first word takes all it can: the literal between the words stands nowhere further to the
      right, not even where it would overlap itself. */
  lemma {:induction false} SplitsAtLast(m: string, z: string, v: string, j: nat)
    requires Match([Word(0), Lit(m), Word(0), Lit(z)], v).Some? && NoSpace(m) && NoSpace(z)
    requires var c := Match([Word(0), Lit(m), Word(0), Lit(z)], v).value.caps;
             |c| == 2 && |c[0]| < j && j + |m| <= |c[0] + m + c[1]|
    ensures var c := Match([Word(0), Lit(m), Word(0), Lit(z)], v).value.caps;
            (c[0] + m + c[1])[j..j + |m|] != m
  {
    var p, q := [Word(0), Lit(m), Word(0), Lit(z)], [Lit(m), Word(0), Lit(z)];
    assert p[1..] == q;
    TwoWords(m, z, v);
    var c := Match(p, v).value.caps;
    var k := ShrinkStops(q, v, Run(v), 0);
    assert v[..k] == c[0];
    if (c[0] + m + c[1])[j..j + |m|] == m {
      SplitsThere(m, z, v, c[0] + m + c[1], j);
      assert false;
    }
  }

  lemma {:induction false} SplitsThere(m: string, z: string, v: string, x: string, j: nat)
    requires NoSpace(x) && x + z <= v && j + |m| <= |x| && x[j..j + |m|] == m
    ensures j <= Run(v) && Take([Lit(m), Word(0), Lit(z)], v, j).Some?
  {
    assert v[..|x|] == x;
    RunReaches(v, |x|);
    var b := x[j + |m|..];
    assert x[j..] == m + b;
    assert v[j..][..|m + b + z|] == x[j..] + z;
    WordBetween(m, z, v[j..], b);
  }

  // ---- places of a text in a text ----

  /** A lazy group between two literals ends at the first place of the second one. */
  lemma {:induction false} LazyTakesFirst(open: string, close: string, b: string, rest: string)
    requires forall j :: 0 <= j < |b| ==> !At(b + close + rest, j, close)
    ensures Match([Lit(open), Lazy, Lit(close)], open + b + close + rest)
         == Some(Hit([b], |open| + |b| + |close|))
  {
    var p, t := [Lit(open), Lazy, Lit(close)], open + b + close + rest;
    var u := b + close + rest;
    assert t == open + u && t[|open|..] == u;
    assert p[1..] == [Lazy, Lit(close)] && p[1..][1..] == [Lit(close)] && [Lit(close)][1..] == [];
    forall j | 0 <= j < |b| ensures Take([Lit(close)], u, j).None? {
      if close <= u[j..] {
        assert u[j..][..|close|] == u[j..j + |close|];
        assert At(u, j, close);
      }
    }
    assert u[|b|..] == close + rest && u[..|b|] == b;
    MatchLit(close, close + rest);
    assert [b] + [] == [b];
    assert Take([Lit(close)], u, |b|) == Some(Hit([b], |b| + |close|));
    GrowTo([Lit(close)], u, 0, |b|);
    assert Match([Lazy, Lit(close)], u) == Some(Hit([b], |b| + |close|));
  }

  /** And conversely: what a lazy group took does not contain the second literal. */
  lemma {:induction false} LazyTookFirst(open: string, close: string, t: string)
    requires Match([Lit(open), Lazy, Lit(close)], t).Some?
    ensures var h := Match([Lit(open), Lazy, Lit(close)], t).value;
            && |h.caps| == 1 && h.len == |open| + |h.caps[0]| + |close|
            && open + h.caps[0] + close <= t
            && forall j :: 0 <= j < |h.caps[0]| ==> !At(h.caps[0] + close, j, close)
  {
    var p := [Lit(open), Lazy, Lit(close)];
    var u := t[|open|..];
    assert p[1..] == [Lazy, Lit(close)] && p[1..][1..] == [Lit(close)] && [Lit(close)][1..] == [];
    var c := GrowStops([Lit(close)], u, 0);
    MatchLit(close, u[c..]);
    assert [u[..c]] + [] == [u[..c]];
    assert Take([Lit(close)], u, c) == Some(Hit([u[..c]], c + |close|));
    var b := u[..c];
    assert close <= u[c..];
    assert u[c..][..|close|] == close;
    assert b + close == u[..c + |close|];
    assert t[..|open|] == open;
    assert open + b + close == t[..|open| + c + |close|];
    forall j | 0 <= j < |b| ensures !At(b + close, j, close) {
      MatchLit(close, u[j..]);
      assert (b + close)[j..j + |close|] == u[j..j + |close|] == u[j..][..|close|];
      assert Take([Lit(close)], u, j).None?;
    }
  }

  // ---- texts that are read in one way ----

  /** The closing text starts nowhere in b, also not with its end behind b. */
  ghost predicate ClosedBy(b: string, close: string) {
    forall j :: 0 <= j < |b| ==> !At(b + close, j, close)
  }

  ghost predicate HasSpace(w: string) {
    exists i :: 0 <= i < |w| && IsSpace(w[i])
  }

  lemma {:induction false} SpaceAt(w: string, i: nat)
    requires i < |w| && IsSpace(w[i])
    ensures HasSpace(w)
  {
  }

  lemma {:induction false} RunStopsInside(w: string)
    requires HasSpace(w)
    ensures Run(w) < |w|
  {
    assert w[..|w|] == w;
  }

  /** The captures cannot be read in another way: a word stands in front of a literal with white space
      in it, a lazy group in front of a literal that does not start earlier, and only the last group
      is greedy. */
  ghost predicate WellCut(p: seq<Item>, caps: seq<string>) {
    if p == [] then caps == []
    else match p[0]
      case Lit(w) => WellCut(p[1..], caps)
      case Word(min) =>
        && caps != [] && NoSpace(caps[0]) && min <= |caps[0]| && |p| > 1 && p[1].Lit? && HasSpace(p[1].text)
        && WellCut(p[1..], caps[1..])
      case Lazy => caps != [] && |p| > 1 && p[1].Lit? && ClosedBy(caps[0], p[1].text) && WellCut(p[1..], caps[1..])
      case Greedy => |p| == 1 && |caps| == 1
  }

  lemma {:induction false} WellCutFits(p: seq<Item>, caps: seq<string>)
    requires WellCut(p, caps)
    ensures Fits(p, caps)
  {
    if p != [] {
      match p[0] {
        case Lit(w) => WellCutFits(p[1..], caps);
        case Word(min) => WellCutFits(p[1..], caps[1..]);
        case Lazy => WellCutFits(p[1..], caps[1..]);
        case Greedy => assert p[1..] == [] && caps[1..] == [];
      }
    }
  }

  /** A literal with white space in it fits behind a word in one place only. */
  lemma {:induction false} WordEnds(c: string, w: string, u: string, j: nat)
    requires NoSpace(c) && HasSpace(w) && w <= u && |c| < j <= Run(c + u)
    ensures !(w <= (c + u)[j..]) && Run(c + u) == |c| + Run(w)
  {
    var t, e := c + u, Run(w);
    RunStopsInside(w);
    assert forall i :: 0 <= i < e ==> w[i] == w[..e][i];
    assert t[..|c| + e] == c + w[..e] && t[|c| + e] == w[e];
    RunTo(t, |c| + e);
    var i := |c| + e - j;
    assert t[j..][i] == t[|c| + e] && !IsSpace(w[i]);
  }

  lemma {:induction false} LitReads(p: seq<Item>, u: string, h: Hit)
    requires p != [] && p[0].Lit? && Match(p[1..], u) == Some(h)
    ensures Match(p, p[0].text + u) == Some(Hit(h.caps, |p[0].text| + h.len))
  {
    assert (p[0].text + u)[|p[0].text|..] == u;
  }

  lemma {:induction false} WordReads(p: seq<Item>, c: string, u: string, h: Hit)
    requires |p| > 1 && p[0].Word? && p[1].Lit? && NoSpace(c) && p[0].min <= |c|
    requires HasSpace(p[1].text) && p[1].text <= u && Match(p[1..], u) == Some(h)
    ensures Match(p, c + u) == Some(Hit([c] + h.caps, |c| + h.len))
  {
    var t, q, min := c + u, p[1..], p[0].min;
    assert t[|c|..] == u && t[..|c|] == c;
    RunReaches(t, |c|);
    forall j | |c| < j <= Run(t) ensures Take(q, t, j).None? {
      WordEnds(c, q[0].text, u, j);
    }
    ShrinkTo(q, t, Run(t), min, |c|);
  }

  lemma {:induction false} LazyReads(p: seq<Item>, c: string, u: string, h: Hit)
    requires |p| > 1 && p[0].Lazy? && p[1].Lit? && ClosedBy(c, p[1].text) && p[1].text <= u
    requires Match(p[1..], u) == Some(h)
    ensures Match(p, c + u) == Some(Hit([c] + h.caps, |c| + h.len))
  {
    var t, q, w := c + u, p[1..], p[1].text;
    assert t[|c|..] == u && t[..|c|] == c;
    forall j | 0 <= j < |c| ensures Take(q, t, j).None? {
      NotEarlier(c, w, u, j);
    }
    GrowTo(q, t, 0, |c|);
  }

  lemma {:induction false} NotEarlier(c: string, w: string, u: string, j: nat)
    requires ClosedBy(c, w) && w <= u && j < |c|
    ensures !(w <= (c + u)[j..])
  {
    assert !At(c + w, j, w);
    assert (c + w)[j..j + |w|] == (c + u)[j..][..|w|];
  }

  /** So the pattern reads them from their rendering, whatever follows. */
  lemma {:induction false} WellCutReads(p: seq<Item>, caps: seq<string>, tail: string)
    requires WellCut(p, caps) && (tail == "" || p == [] || !p[|p| - 1].Greedy?)
    ensures Match(p, Render(p, caps) + tail) == Some(Hit(caps, |Render(p, caps)|))
    decreases |p|
  {
    if p != [] {
      var q := p[1..];
      if p[0].Lit? {
        WellCutReads(q, caps, tail);
        LitReads(p, Render(q, caps) + tail, Hit(caps, |Render(q, caps)|));
        Regrouped(p[0].text, Render(q, caps), tail);
      } else if p[0].Greedy? {
        AllReads(p, caps);
      } else {
        var rest := caps[1..];
        WellCutReads(q, rest, tail);
        StartsWithLit(q, rest, tail);
        GroupReads(p, caps[0], Render(q, rest) + tail, Hit(rest, |Render(q, rest)|));
        Regrouped(caps[0], Render(q, rest), tail);
        assert [caps[0]] + rest == caps;
      }
    }
  }

  lemma Regrouped(a: string, b: string, c: string)
    ensures a + b + c == a + (b + c)
  {
  }

  lemma {:induction false} GroupReads(p: seq<Item>, c: string, u: string, h: Hit)
    requires |p| > 1 && p[1].Lit? && p[1].text <= u && Match(p[1..], u) == Some(h)
    requires (p[0].Word? && NoSpace(c) && p[0].min <= |c| && HasSpace(p[1].text))
          || (p[0].Lazy? && ClosedBy(c, p[1].text))
    ensures Match(p, c + u) == Some(Hit([c] + h.caps, |c| + h.len))
  {
    if p[0].Word? {
      WordReads(p, c, u, h);
    } else {
      LazyReads(p, c, u, h);
    }
  }

  lemma {:induction false} StartsWithLit(q: seq<Item>, caps: seq<string>, tail: string)
    requires q != [] && q[0].Lit?
    ensures q[0].text <= Render(q, caps) + tail
  {
  }

  lemma {:induction false} AllReads(p: seq<Item>, caps: seq<string>)
    requires |p| == 1 && p[0].Greedy? && |caps| == 1
    ensures Render(p, caps) + "" == caps[0] && Match(p, caps[0]) == Some(Hit(caps, |caps[0]|))
  {
    var t := caps[0];
    assert p[1..] == [] && Render([], caps[1..]) == "" && t + "" == t;
    assert t[..|t|] == t && [t] + [] == caps;
    assert Take([], t, |t|) == Some(Hit([t] + [], |t| + 0));
  }

  /** Two words with a literal between them that does not stand further to the right. */
  lemma {:induction false} WordsRead(m: string, z: string, a: string, b: string)
    requires NoSpace(m) && NoSpace(z) && NoSpace(a) && NoSpace(b) && z != ""
    requires forall j :: |a| < j <= |a + m + b + z| ==> !At(a + m + b + z, j, m)
    ensures Match([Word(0), Lit(m), Word(0), Lit(z)], a + m + b + z) == Some(Hit([a, b], |a + m + b + z|))
  {
    var p, q := [Word(0), Lit(m), Word(0), Lit(z)], [Lit(m), Word(0), Lit(z)];
    var v, u := a + m + b + z, m + b + z;
    assert p[1..] == q && v == a + u && v[|a|..] == u && v[..|a|] == a;
    RunTo(v, |v|);
    LastWordReads(m, z, b);
    assert Take(q, v, |a|) == Some(Hit([a] + [b], |v|));
    forall j | |a| < j <= |v| ensures Take(q, v, j).None? {
      NotThere(m, z, v, j);
    }
    ShrinkTo(q, v, |v|, 0, |a|);
    assert [a] + [b] == [a, b];
  }

  lemma {:induction false} NotThere(m: string, z: string, v: string, j: nat)
    requires j <= |v| && !At(v, j, m)
    ensures Take([Lit(m), Word(0), Lit(z)], v, j).None?
  {
    if j + |m| <= |v| {
      assert v[j..][..|m|] == v[j..j + |m|];
    }
  }

  lemma {:induction false} LastWordReads(m: string, z: string, b: string)
    requires NoSpace(z) && NoSpace(b) && z != ""
    ensures Match([Lit(m), Word(0), Lit(z)], m + b + z) == Some(Hit([b], |m + b + z|))
  {
    var q, w := [Word(0), Lit(z)], b + z;
    assert [Lit(m), Word(0), Lit(z)][1..] == q && q[1..] == [Lit(z)];
    assert m + b + z == m + w && (m + w)[|m|..] == w && w[|b|..] == z && w[..|b|] == b;
    RunTo(w, |w|);
    forall j | |b| < j <= |w| ensures Take([Lit(z)], w, j).None? {
      MatchLit(z, w[j..]);
    }
    MatchLit(z, z);
    assert [b] + [] == [b];
    assert Take([Lit(z)], w, |b|) == Some(Hit([b], |w|));
    ShrinkTo([Lit(z)], w, |w|, 0, |b|);
  }
}
