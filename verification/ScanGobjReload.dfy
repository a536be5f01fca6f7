/** From single blocks to whole files: what a printed database parses to. */
module ScanGobjReload {
  import opened Common
  import opened Regex
  import opened OrderedDict
  import opened ScanGobj
  import opened ScanGobjFixedPoint

  // ---- everything that was loaded prints as a block that can be loaded ----

  ghost predicate Good(g: Grammar, l: Line) {
    Printable(g, l) && Readable(g, l)
  }

  /** A property holds of every entry. */
  ghost predicate Every(db: Db, p: Line -> bool) {
    db.Valid() && forall o :: o in db.vals ==> EveryOf(o, db.vals[o], p)
  }

  ghost function GoodFor(g: Grammar): Line -> bool {
    l => Good(g, l)
  }

  ghost predicate AllGood(g: Grammar, db: Db) {
    Every(db, GoodFor(g))
  }

  lemma ApplyKeeps(db: Db, e: Event, p: Line -> bool)
    requires Every(db, p) && (e.Entry? ==> p(Line(e.obj, e.name, e.fields)))
    ensures Every(Apply(db, e), p)
  {
    match e
    case Skip =>
    case Touch(o) =>
    case Entry(o, n, f) => PutKeeps(Known(db, o), o, n, f, p);
  }

  ghost predicate EveryOf(o: string, d: Object, p: Line -> bool) {
    d.Valid() && forall n :: n in d.vals ==> p(Line(o, n, d.vals[n]))
  }

  lemma PutKeeps(d: Object, o: string, n: string, f: Fields, p: Line -> bool)
    requires EveryOf(o, d, p) && p(Line(o, n, f))
    ensures EveryOf(o, d.Put(n, f), p)
  {
  }

  lemma {:induction false} FoundAreClosed(p: seq<Item>, t: string, close: string)
    requires forall u :: Match(p, u).Some? ==>
               var h := Match(p, u).value; |h.caps| == 1 && h.len > 0 && ClosedBy(h.caps[0], close)
    ensures forall b :: b in FindAll(p, t) ==> ClosedBy(b, close)
    decreases |t|
  {
    var s := Search(p, t);
    if s.Some? {
      assert Match(p, t[s.value.at..]) == Some(s.value.hit);
      FoundAreClosed(p, t[s.value.at + s.value.hit.len..], close);
    }
  }

  lemma {:induction false} BlocksAreClosed(g: Grammar, t: string)
    requires g.open != ""
    ensures forall b :: b in FindAll(BlockPattern(g), t) ==> ClosedBy(b, g.close)
  {
    var p := BlockPattern(g);
    forall u | Match(p, u).Some?
      ensures var h := Match(p, u).value; |h.caps| == 1 && h.len > 0 && ClosedBy(h.caps[0], g.close)
    {
      LazyTookFirst(g.open, g.close, u);
    }
    FoundAreClosed(p, t, g.close);
  }

  lemma {:induction false} LoadedAllGood(g: Grammar, a: string, tag: string, close: string, db: Db, blocks: seq<string>)
    requires Shape(g, a, tag, close) && g.name == NamePattern()
    requires AllGood(g, db) && forall b :: b in blocks ==> ClosedBy(b, g.close)
    ensures AllGood(g, ApplyAll(g, db, blocks))
  {
    if blocks != [] {
      var b := blocks[|blocks| - 1];
      LoadedAllGood(g, a, tag, close, db, blocks[..|blocks| - 1]);
      var e := Classify(g, b);
      if e.Entry? {
        LoadedIsGood(g, a, tag, close, b, Line(e.obj, e.name, e.fields));
      }
      ApplyKeeps(ApplyAll(g, db, blocks[..|blocks| - 1]), e, GoodFor(g));
    }
  }

  lemma {:induction false} ParsedIsGood(g: Grammar, a: string, tag: string, close: string, db: Db, text: string)
    requires Shape(g, a, tag, close) && g.name == NamePattern() && AllGood(g, db)
    ensures AllGood(g, Load(g, db, text))
  {
    BlocksAreClosed(g, text);
    LoadedAllGood(g, a, tag, close, db, FindAll(BlockPattern(g), text));
  }

  // ---- the entries of a database in the order they are printed in ----

  function ObjectLines(o: string, d: Object, k: nat): (ls: seq<Line>)
    requires k <= |d.order| && d.Valid()
    ensures |ls| == k
  {
    seq(k, i requires 0 <= i < k => Line(o, d.order[i], d.vals[d.order[i]]))
  }

  function LinesUpTo(db: Db, i: nat): seq<Line>
    requires i <= |db.order| && ValidDb(db)
  {
    if i == 0 then []
    else
      var d := db.vals[db.order[i - 1]];
      LinesUpTo(db, i - 1) + ObjectLines(db.order[i - 1], d, |d.order|)
  }

  function Lines(db: Db): seq<Line>
    requires ValidDb(db)
  {
    LinesUpTo(db, |db.order|)
  }

  ghost predicate AllPrintable(g: Grammar, ls: seq<Line>) {
    forall i :: 0 <= i < |ls| ==> Printable(g, ls[i])
  }

  ghost predicate AllReadable(g: Grammar, ls: seq<Line>) {
    forall i :: 0 <= i < |ls| ==> Readable(g, ls[i])
  }

  lemma {:induction false} LinesGood(g: Grammar, db: Db, i: nat)
    requires i <= |db.order| && AllGood(g, db)
    ensures AllPrintable(g, LinesUpTo(db, i)) && AllReadable(g, LinesUpTo(db, i))
  {
    if i != 0 {
      LinesGood(g, db, i - 1);
    }
  }

  function Formats(g: Grammar, ls: seq<Line>): (r: seq<string>)
    ensures |r| == |ls|
  {
    seq(|ls|, i requires 0 <= i < |ls| => Format(g, ls[i]))
  }

  function Inners(g: Grammar, ls: seq<Line>): (r: seq<string>)
    ensures |r| == |ls|
  {
    seq(|ls|, i requires 0 <= i < |ls| => Inner(g, ls[i]))
  }

  lemma {:induction false} ObjectBlocksAreLines(g: Grammar, o: string, d: Object, k: nat)
    requires k <= |d.order| && d.Valid()
    ensures ObjectBlocks(g, o, d, k) == Formats(g, ObjectLines(o, d, k))
  {
    if k != 0 {
      ObjectBlocksAreLines(g, o, d, k - 1);
    }
  }

  lemma FormatsAppend(g: Grammar, a: seq<Line>, b: seq<Line>)
    ensures Formats(g, a + b) == Formats(g, a) + Formats(g, b)
  {
  }

  lemma {:induction false} BlocksAreLines(g: Grammar, db: Db, i: nat)
    requires i <= |db.order| && ValidDb(db)
    ensures Blocks(g, db, i) == Formats(g, LinesUpTo(db, i))
  {
    if i != 0 {
      var o := db.order[i - 1];
      var d := db.vals[o];
      BlocksAreLines(g, db, i - 1);
      ObjectBlocksAreLines(g, o, d, |d.order|);
      FormatsAppend(g, LinesUpTo(db, i - 1), ObjectLines(o, d, |d.order|));
    }
  }

  /** Printing depends on the entries alone; objects without entries leave no trace. */
  lemma {:induction false} PrintOfLines(g: Grammar, x: Db, y: Db)
    requires ValidDb(x) && ValidDb(y) && Lines(x) == Lines(y)
    ensures Print(g, x) == Print(g, y)
  {
    BlocksAreLines(g, x, |x.order|);
    BlocksAreLines(g, y, |y.order|);
  }

  // ---- findall on a printed file finds the inner texts ----

  function Terminated(lines: seq<string>): string {
    if lines == [] then "" else lines[0] + ("\n" + Terminated(lines[1..]))
  }

  lemma {:induction false} JoinTerminates(lines: seq<string>)
    ensures Join("\n", lines) + "\n" == if lines == [] then "\n" else Terminated(lines)
  {
    if |lines| > 1 {
      JoinTerminates(lines[1..]);
    } else if |lines| == 1 {
      assert Terminated(lines[1..]) == "";
    }
  }

  lemma {:induction false} SearchSkipsOne(p: seq<Item>, s: string)
    requires s != "" && Match(p, s).None?
    ensures var r := Search(p, s[1..]);
            Search(p, s) == if r.None? then None else Some(Found(r.value.at + 1, r.value.hit))
  {
  }

  lemma {:induction false} FindSkipsOne(p: seq<Item>, s: string)
    requires s != "" && Match(p, s).None?
    ensures FindAll(p, s) == FindAll(p, s[1..])
  {
    SearchSkipsOne(p, s);
    var r := Search(p, s[1..]);
    if r.Some? {
      var n := r.value.at + r.value.hit.len + (if r.value.hit.len == 0 then 1 else 0);
      assert n < |s| ==> s[1..][n..] == s[n + 1..];
    }
  }

  lemma {:induction false} FindAllStep(p: seq<Item>, t: string, h: Hit, rest: string)
    requires Match(p, t) == Some(h) && |h.caps| == 1 && h.len > 0 && t[h.len..] == rest
    ensures FindAll(p, t) == [h.caps[0]] + FindAll(p, rest)
  {
    assert t[0..] == t;
    SearchTo(p, t, 0);
  }

  lemma {:induction false} FindBlock(g: Grammar, b: string, rest: string)
    requires g.open != "" && ClosedBy(b, g.close)
    ensures FindAll(BlockPattern(g), g.open + b + g.close + rest) == [b] + FindAll(BlockPattern(g), rest)
  {
    forall j | 0 <= j < |b| ensures !At(b + g.close + rest, j, g.close) {
      assert !At(b + g.close, j, g.close);
      if j + |g.close| <= |b + g.close + rest| {
        assert (b + g.close + rest)[j..j + |g.close|] == (b + g.close)[j..j + |g.close|];
      }
    }
    LazyTakesFirst(g.open, g.close, b, rest);
    FindAllStep(BlockPattern(g), g.open + b + g.close + rest, Hit([b], |g.open| + |b| + |g.close|), rest);
  }

  lemma {:induction false} FindSkipsLineFeed(g: Grammar, t: string)
    requires g.open != "" && g.open[0] != '\n'
    ensures FindAll(BlockPattern(g), "\n" + t) == FindAll(BlockPattern(g), t)
  {
    var s := "\n" + t;
    assert !(g.open <= s) && s[1..] == t;
    FindSkipsOne(BlockPattern(g), s);
  }

  /** Blocks that are wrapped in the tags, one behind the other. */
  lemma {:induction false} FindWrapped(g: Grammar, fs: seq<string>, ins: seq<string>)
    requires g.open != "" && g.open[0] != '\n' && |fs| == |ins|
    requires forall i :: 0 <= i < |fs| ==> fs[i] == g.open + ins[i] + g.close && ClosedBy(ins[i], g.close)
    ensures FindAll(BlockPattern(g), Terminated(fs)) == ins
    decreases |fs|
  {
    if fs == [] {
      FindNothing(g);
    } else {
      var gs, more := fs[1..], ins[1..];
      assert forall i :: 0 <= i < |gs| ==> gs[i] == fs[i + 1] && more[i] == ins[i + 1];
      FindWrapped(g, gs, more);
      FindPrintedStep(g, ins[0], Terminated(gs));
      assert ins == [ins[0]] + more;
    }
  }

  lemma {:induction false} FindNothing(g: Grammar)
    requires g.open != ""
    ensures FindAll(BlockPattern(g), "") == []
  {
    assert !(g.open <= "");
    assert Match(BlockPattern(g), "").None?;
  }

  lemma {:induction false} FindPrinted(g: Grammar, ls: seq<Line>)
    requires g.open != "" && g.open[0] != '\n' && AllPrintable(g, ls)
    ensures FindAll(BlockPattern(g), Terminated(Formats(g, ls))) == Inners(g, ls)
  {
    forall i | 0 <= i < |ls|
      ensures Formats(g, ls)[i] == g.open + Inners(g, ls)[i] + g.close && ClosedBy(Inners(g, ls)[i], g.close)
    {
      assert Printable(g, ls[i]);
    }
    FindWrapped(g, Formats(g, ls), Inners(g, ls));
  }

  lemma {:induction false} FindPrintedStep(g: Grammar, b: string, rest: string)
    requires g.open != "" && g.open[0] != '\n' && ClosedBy(b, g.close)
    ensures FindAll(BlockPattern(g), (g.open + b + g.close) + ("\n" + rest)) == [b] + FindAll(BlockPattern(g), rest)
  {
    FindBlock(g, b, "\n" + rest);
    FindSkipsLineFeed(g, rest);
  }

  // ---- loading the entries again, in their order ----

  function ApplyLines(db: Db, ls: seq<Line>): Db {
    if ls == [] then db
    else
      var l := ls[|ls| - 1];
      Apply(ApplyLines(db, ls[..|ls| - 1]), Entry(l.obj, l.name, l.fields))
  }

  lemma {:induction false} ApplyInners(g: Grammar, db: Db, ls: seq<Line>)
    requires AllReadable(g, ls)
    ensures ApplyAll(g, db, Inners(g, ls)) == ApplyLines(db, ls)
  {
    if ls != [] {
      var k := |ls| - 1;
      ApplyInners(g, db, ls[..k]);
      assert Inners(g, ls)[..k] == Inners(g, ls[..k]);
      assert Readable(g, ls[k]);
    }
  }

  lemma {:induction false} ApplyAppend(db: Db, a: seq<Line>, b: seq<Line>)
    ensures ApplyLines(db, a + b) == ApplyLines(ApplyLines(db, a), b)
  {
    if b == [] {
      assert a + b == a;
    } else {
      assert (a + b)[..|a + b| - 1] == a + b[..|b| - 1];
      ApplyAppend(db, a, b[..|b| - 1]);
    }
  }

  /** The first k entries of an object. */
  function FirstEntries(d: Object, k: nat): Object
    requires k <= |d.order| && d.Valid()
  {
    Dict(d.order[..k], map n | n in d.order[..k] :: d.vals[n])
  }

  lemma {:induction false} FirstEntriesStep(d: Object, k: nat)
    requires k < |d.order| && d.Valid()
    ensures FirstEntries(d, k).Put(d.order[k], d.vals[d.order[k]]) == FirstEntries(d, k + 1)
  {
    var n := d.order[k];
    assert d.order[..k + 1] == d.order[..k] + [n];
    assert n !in d.order[..k];
    var x, y := FirstEntries(d, k), FirstEntries(d, k + 1);
    assert x.Put(n, d.vals[n]).vals == y.vals;
  }

  lemma {:induction false} AllEntries(d: Object)
    requires d.Valid()
    ensures FirstEntries(d, 0) == Empty() && FirstEntries(d, |d.order|) == d
  {
    assert d.order[..|d.order|] == d.order;
    assert FirstEntries(d, |d.order|).vals == d.vals;
  }

  lemma {:induction false} PutTwice(db: Db, o: string, x: Object, y: Object)
    ensures db.Put(o, x).Put(o, y) == db.Put(o, y)
  {
    assert db.vals[o := x][o := y] == db.vals[o := y];
  }

  lemma {:induction false} LoadEntry(db: Db, o: string, d: Object, k: nat)
    requires k < |d.order| && d.Valid() && o !in db.vals
    ensures Apply(if k == 0 then db else db.Put(o, FirstEntries(d, k)), Entry(o, d.order[k], d.vals[d.order[k]]))
         == db.Put(o, FirstEntries(d, k + 1))
  {
    FirstEntriesStep(d, k);
    PutTwice(db, o, FirstEntries(d, k), FirstEntries(d, k + 1));
  }

  lemma {:induction false} LoadObject(db: Db, o: string, d: Object, k: nat)
    requires k <= |d.order| && d.Valid() && o !in db.vals
    ensures ApplyLines(db, ObjectLines(o, d, k)) == if k == 0 then db else db.Put(o, FirstEntries(d, k))
  {
    if k != 0 {
      assert ObjectLines(o, d, k)[..k - 1] == ObjectLines(o, d, k - 1);
      LoadObject(db, o, d, k - 1);
      LoadEntry(db, o, d, k - 1);
    }
  }

  /** The first i objects without those that have no entry. */
  function CompactUpTo(db: Db, i: nat): (c: Db)
    requires i <= |db.order| && ValidDb(db)
    ensures ValidDb(c)
  {
    if i == 0 then Empty()
    else
      var o, c := db.order[i - 1], CompactUpTo(db, i - 1);
      if db.vals[o].order == [] then c else c.Put(o, db.vals[o])
  }

  function Compact(db: Db): Db
    requires ValidDb(db)
  {
    CompactUpTo(db, |db.order|)
  }

  lemma {:induction false} InPrefix(s: seq<string>, i: nat, o: string)
    requires 0 < i <= |s|
    ensures o in s[..i] <==> o in s[..i - 1] || o == s[i - 1]
  {
    assert s[..i] == s[..i - 1] + [s[i - 1]];
  }

  lemma {:induction false} CompactHas(db: Db, i: nat, o: string)
    requires i <= |db.order| && ValidDb(db)
    ensures o in CompactUpTo(db, i).vals <==> o in db.order[..i] && db.vals[o].order != []
    ensures o in CompactUpTo(db, i).vals ==> CompactUpTo(db, i).vals[o] == db.vals[o]
  {
    if i != 0 {
      var k, c := db.order[i - 1], CompactUpTo(db, i - 1);
      CompactHas(db, i - 1, o);
      InPrefix(db.order, i, o);
      if db.vals[k].order == [] {
        assert CompactUpTo(db, i) == c;
      } else {
        assert CompactUpTo(db, i).vals == c.vals[k := db.vals[k]];
      }
    }
  }

  lemma {:induction false} NotYetCompact(db: Db, i: nat)
    requires i < |db.order| && ValidDb(db)
    ensures db.order[i] !in CompactUpTo(db, i).vals
  {
    CompactHas(db, i, db.order[i]);
    assert db.order[i] !in db.order[..i];
  }

  lemma {:induction false} LoadLines(db: Db, i: nat)
    requires i <= |db.order| && ValidDb(db)
    ensures ApplyLines(Empty(), LinesUpTo(db, i)) == CompactUpTo(db, i)
  {
    if i != 0 {
      var k := i - 1;
      LoadLines(db, k);
      NotYetCompact(db, k);
      LoadLinesStep(CompactUpTo(db, k), LinesUpTo(db, k), db.order[k], db.vals[db.order[k]]);
    }
  }

  lemma {:induction false} LoadLinesStep(c: Db, ls: seq<Line>, o: string, d: Object)
    requires ApplyLines(Empty(), ls) == c && d.Valid() && o !in c.vals
    ensures ApplyLines(Empty(), ls + ObjectLines(o, d, |d.order|)) == if d.order == [] then c else c.Put(o, d)
  {
    ApplyAppend(Empty(), ls, ObjectLines(o, d, |d.order|));
    LoadObject(c, o, d, |d.order|);
    AllEntries(d);
  }

  lemma {:induction false} LinesUpToSame(x: Db, y: Db, i: nat)
    requires i <= |x.order| && i <= |y.order| && ValidDb(x) && ValidDb(y)
    requires x.order[..i] == y.order[..i]
    requires forall j :: 0 <= j < i ==> x.vals[x.order[j]] == y.vals[x.order[j]]
    ensures LinesUpTo(x, i) == LinesUpTo(y, i)
  {
    if i != 0 {
      assert x.order[i - 1] == x.order[..i][i - 1] == y.order[..i][i - 1];
      assert x.order[..i][..i - 1] == x.order[..i - 1] && y.order[..i][..i - 1] == y.order[..i - 1];
      LinesUpToSame(x, y, i - 1);
    }
  }

  lemma {:induction false} LinesOfPut(c: Db, o: string, d: Object)
    requires ValidDb(c) && d.Valid() && o !in c.vals
    ensures Lines(c.Put(o, d)) == Lines(c) + ObjectLines(o, d, |d.order|)
  {
    var p := c.Put(o, d);
    assert forall k :: k in c.order ==> p.vals[k] == c.vals[k];
    LinesOfOneMore(c, p, o, d);
  }

  lemma {:induction false} LinesOfOneMore(c: Db, p: Db, o: string, d: Object)
    requires ValidDb(c) && ValidDb(p) && d.Valid() && p.order == c.order + [o] && p.vals[o] == d
    requires forall k :: k in c.order ==> p.vals[k] == c.vals[k]
    ensures Lines(p) == Lines(c) + ObjectLines(o, d, |d.order|)
  {
    var n := |c.order|;
    assert p.order[..n] == c.order == c.order[..n];
    LinesUpToSame(p, c, n);
  }

  lemma {:induction false} LinesOfCompactStep(c: Db, ls: seq<Line>, o: string, d: Object)
    requires ValidDb(c) && Lines(c) == ls && o !in c.vals && d.Valid()
    ensures ValidDb(c.Put(o, d))
    ensures Lines(if d.order == [] then c else c.Put(o, d)) == ls + ObjectLines(o, d, |d.order|)
  {
    LinesOfPut(c, o, d);
    assert ObjectLines(o, d, 0) == [];
  }

  lemma {:induction false} LinesOfCompact(db: Db, i: nat)
    requires i <= |db.order| && ValidDb(db)
    ensures Lines(CompactUpTo(db, i)) == LinesUpTo(db, i)
  {
    if i != 0 {
      var o := db.order[i - 1];
      LinesOfCompact(db, i - 1);
      NotYetCompact(db, i - 1);
      LinesOfCompactStep(CompactUpTo(db, i - 1), LinesUpTo(db, i - 1), o, db.vals[o]);
    }
  }

  /** A printed database parses to the same objects and entries in the same order, only objects
      without entries are gone. */
  lemma {:induction false} ParseOfPrint(g: Grammar, a: string, tag: string, close: string, db: Db)
    requires Shape(g, a, tag, close) && AllGood(g, db)
    ensures Parse(g, Print(g, db)) == Compact(db)
    ensures Lines(Compact(db)) == Lines(db)
  {
    var ls := Lines(db);
    LinesGood(g, db, |db.order|);
    BlocksAreLines(g, db, |db.order|);
    JoinTerminates(Formats(g, ls));
    FindPrinted(g, ls);
    if ls == [] {
      FindSkipsLineFeed(g, "");
      assert "\n" == "\n" + "";
    }
    ApplyInners(g, Empty(), ls);
    LoadLines(db, |db.order|);
    LinesOfCompact(db, |db.order|);
  }
}
