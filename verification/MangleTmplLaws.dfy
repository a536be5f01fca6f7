/** When reading and printing a template gives the template back, and when running the tool
    twice is the same as running it once. */
module MangleTmplLaws {
  import opened Common
  import opened Regex
  import opened MangleTmpl

  // ---- lines ----

  ghost predicate IsLine(l: string) {
    l != "" && l[|l| - 1] == '\n' && forall i :: 0 <= i < |l| - 1 ==> l[i] != '\n'
  }

  ghost predicate AllLines(ls: seq<string>) {
    forall i :: 0 <= i < |ls| ==> IsLine(ls[i])
  }

  /** Empty or ending with a line feed. */
  predicate Terminated(t: string) {
    t == "" || t[|t| - 1] == '\n'
  }

  lemma {:induction false} ConcatCons(c: char, ls: seq<string>)
    requires ls != []
    ensures Concat([[c] + ls[0]] + ls[1..]) == [c] + Concat(ls)
  {
    var r := [[c] + ls[0]] + ls[1..];
    assert r[1..] == ls[1..];
  }

  lemma {:induction false} ConcatOfReadLines(t: string)
    ensures Concat(ReadLines(t)) == t
    decreases |t|
  {
    if t != "" {
      ConcatOfReadLines(t[1..]);
      var rest := ReadLines(t[1..]);
      if t[0] == '\n' {
        assert Concat(["\n"] + rest) == "\n" + Concat(rest) by {
          assert (["\n"] + rest)[1..] == rest;
        }
      } else if rest == [] {
        assert Concat([t]) == t + "";
      } else {
        ConcatCons(t[0], rest);
      }
    }
  }

  lemma {:induction false} LinesOfTerminated(t: string)
    requires Terminated(t)
    ensures AllLines(ReadLines(t))
    decreases |t|
  {
    if t != "" {
      LinesOfTerminated(t[1..]);
      var rest := ReadLines(t[1..]);
      if t[0] != '\n' && rest != [] {
        assert IsLine(rest[0]);
        assert IsLine([t[0]] + rest[0]);
      } else if t[0] != '\n' {
        ConcatOfReadLines(t[1..]);
      }
    }
  }

  lemma {:induction false} ReadLinesOfLine(l: string, t: string)
    requires IsLine(l)
    ensures ReadLines(l + t) == [l] + ReadLines(t)
    decreases |l|
  {
    assert (l + t)[1..] == l[1..] + t;
    if l[0] == '\n' {
      assert l == "\n" && l[1..] + t == t;
    } else {
      ReadLinesOfLine(l[1..], t);
      assert [l[0]] + l[1..] == l;
    }
  }

  lemma {:induction false} ReadLinesOfConcat(ls: seq<string>, t: string)
    requires AllLines(ls)
    ensures ReadLines(Concat(ls) + t) == ls + ReadLines(t)
    decreases |ls|
  {
    if ls == [] {
      assert "" + t == t;
    } else {
      ConcatThen(ls, t);
      ReadLinesOfLine(ls[0], Concat(ls[1..]) + t);
      ReadLinesOfConcat(ls[1..], t);
      FirstThen(ls, ReadLines(t));
    }
  }

  lemma {:induction false} ConcatThen(ls: seq<string>, t: string)
    requires ls != []
    ensures Concat(ls) + t == ls[0] + (Concat(ls[1..]) + t)
  {
  }

  lemma {:induction false} FirstThen(ls: seq<string>, more: seq<string>)
    requires ls != []
    ensures [ls[0]] + (ls[1..] + more) == ls + more
  {
  }

  // ---- the last line of a text, if it lacks its line feed ----

  /** What stands behind the last line feed. */
  function Tail(t: string): string {
    if Terminated(t) then "" else Tail(t[..|t| - 1]) + [t[|t| - 1]]
  }

  /** The lines in front of it. */
  function Body(t: string): seq<string> {
    ReadLines(Front(t))
  }

  function Front(t: string): (f: string)
    ensures Terminated(f) && f <= t
  {
    if Terminated(t) then t else Front(t[..|t| - 1])
  }

  function TailLine(x: string): seq<string> {
    if x == "" then [] else [x]
  }

  lemma {:induction false} FrontAndTail(t: string)
    ensures Front(t) + Tail(t) == t && '\n' !in Tail(t)
    ensures Terminated(t) <==> Tail(t) == ""
  {
    if !Terminated(t) {
      FrontAndTail(t[..|t| - 1]);
    }
  }

  lemma {:induction false} ReadLinesOfTail(x: string)
    requires '\n' !in x
    ensures ReadLines(x) == TailLine(x)
    decreases |x|
  {
    if x != "" {
      ReadLinesOfTail(x[1..]);
      assert [x[0]] + x[1..] == x;
    }
  }

  /** Complete lines and the rest. */
  lemma {:induction false} BodyAndTail(t: string)
    ensures AllLines(Body(t)) && Concat(Body(t)) == Front(t) && ReadLines(t) == Body(t) + TailLine(Tail(t))
  {
    FrontAndTail(t);
    LinesOfTerminated(Front(t));
    ConcatOfReadLines(Front(t));
    ReadLinesOfConcat(Body(t), Tail(t));
    ReadLinesOfTail(Tail(t));
  }

  /** A text and more behind it: the last line goes on. */
  lemma {:induction false} ReadLinesBehind(t: string, x: string)
    ensures ReadLines(t + x) == Body(t) + ReadLines(Tail(t) + x)
  {
    BodyAndTail(t);
    FrontAndTail(t);
    ReadLinesOfConcat(Body(t), Tail(t) + x);
    assert t + x == Front(t) + (Tail(t) + x);
  }

  lemma {:induction false} ConcatAppend(a: seq<string>, b: seq<string>)
    ensures Concat(a + b) == Concat(a) + Concat(b)
    decreases |a|
  {
    if a == [] {
      assert a + b == b;
    } else {
      assert (a + b)[1..] == a[1..] + b;
      ConcatAppend(a[1..], b);
    }
  }

  lemma {:induction false} ConcatOfChars(s: string)
    ensures Concat(Chars(s)) == s
    decreases |s|
  {
    if s != "" {
      assert Chars(s)[1..] == Chars(s[1..]);
      ConcatOfChars(s[1..]);
    }
  }

  // ---- headers ----

  predicate IsHeader(l: string) {
    HeaderId(l).Some?
  }

  ghost predicate IsId(id: string) {
    NoSpace(id) && id != ""
  }

  lemma {:induction false} HeaderCaps(t: string)
    requires Match(HeaderPattern(), t).Some?
    ensures var h := Match(HeaderPattern(), t).value; |h.caps| == 1 && IsId(h.caps[0])
  {
    var p := HeaderPattern();
    MatchRenders(p, t);
    var h := Match(p, t).value;
    assert p[1..][1..] == [Lit(" ##### -->\n")];
    assert Fits(p[1..], h.caps) && Fits(p[1..][1..], h.caps[1..]) && Fits(p[1..][1..][1..], h.caps[1..]);
  }

  lemma {:induction false} IdOfHeaderLine(l: string)
    requires IsHeader(l)
    ensures IsId(HeaderId(l).value)
  {
    HeaderCaps(l[Search(HeaderPattern(), l).value.at..]);
  }

  lemma {:induction false} MatchHeader(a: string, z: string, id: string)
    requires IsId(id) && z != "" && IsSpace(z[0])
    ensures Match([Lit(a), Word(1), Lit(z)], a + (id + z)) == Some(Hit([id], |a| + |id| + |z|))
  {
    var p, u := [Lit(a), Word(1), Lit(z)], id + z;
    assert (a + u)[|a|..] == u;
    assert p[1..] == [Word(1), Lit(z)] && p[1..][1..] == [Lit(z)];
    assert u[..|id|] == id && u[|id|..] == z;
    RunTo(u, |id|);
    MatchLit(z, z);
    assert [id] + [] == [id];
    assert Take([Lit(z)], u, |id|) == Some(Hit([id], |id| + |z|));
    ShrinkTo([Lit(z)], u, Run(u), 1, |id|);
  }

  /** A printed header is a line that is read as the header it was printed for. */
  lemma {:induction false} HeaderIsRead(id: string)
    requires IsId(id)
    ensures HeaderId(Header(id)) == Some(id)
  {
    var a, z := "<!-- ##### SECTION ", " ##### -->\n";
    MatchHeader(a, z, id);
    var t := a + (id + z);
    assert Header(id) == t && t[0..] == t;
    SearchTo(HeaderPattern(), t, 0);
  }

  /** The last word of a text. */
  lemma {:induction false} SameLastWord(p: string, v: string, q: string, w: string)
    requires p + v == q + w && NoSpace(v) && NoSpace(w)
    requires p != "" && IsSpace(p[|p| - 1]) && q != "" && IsSpace(q[|q| - 1])
    ensures v == w
  {
    var t := p + v;
    assert t[|p| - 1] == p[|p| - 1] && t[|q| - 1] == q[|q| - 1];
    assert forall i :: 0 <= i < |v| ==> t[|p| + i] == v[i];
    assert forall i :: 0 <= i < |w| ==> t[|q| + i] == w[i];
    assert |p| == |q|;
    assert t[|p|..] == v && t[|q|..] == w;
  }

  lemma {:induction false} WordCaps(a: string, z: string, t: string)
    requires Match([Lit(a), Word(1), Lit(z)], t).Some?
    ensures var h := Match([Lit(a), Word(1), Lit(z)], t).value;
            |h.caps| == 1 && NoSpace(h.caps[0]) && h.len <= |t| && t[..h.len] == a + h.caps[0] + z
  {
    var p := [Lit(a), Word(1), Lit(z)];
    var p1, p2, p3 := p[1..], p[2..], p[3..];
    assert p1[1..] == p2 && p2[1..] == p3;
    MatchRenders(p, t);
    var c := Match(p, t).value.caps;
    assert Fits(p1, c) && Fits(p2, c[1..]) && Fits(p3, c[1..]);
    assert Render(p2, c[1..]) == z + "";
    assert Render(p1, c) == c[0] + (z + "");
    assert Render(p, c) == a + (c[0] + (z + ""));
  }

  /** A match in a line, with a pattern that ends in a line feed, ends where the line does. */
  lemma {:induction false} GluedWord(a: string, z: string, x: string, id: string, at: nat)
    requires IsId(id) && a != "" && IsSpace(a[|a| - 1]) && z != "" && z[|z| - 1] == '\n'
    requires var l := x + a + id + z;
             IsLine(l) && at <= |l| && Match([Lit(a), Word(1), Lit(z)], l[at..]).Some?
    ensures Match([Lit(a), Word(1), Lit(z)], (x + a + id + z)[at..]).value.caps == [id]
  {
    var l := x + a + id + z;
    var t := l[at..];
    WordCaps(a, z, t);
    var h := Match([Lit(a), Word(1), Lit(z)], t).value;
    var w, n := h.caps[0], at + h.len;
    assert l[n - 1] == t[..h.len][h.len - 1] == z[|z| - 1];
    assert n == |l|;
    assert t[..h.len] == t;
    assert l == l[..at] + a + w + z;
    SameFront(l[..at] + a + w, x + a + id, z);
    SameLastWord(l[..at] + a, w, x + a, id);
  }

  /** A printed header is read as what it is also behind text that lacks its line feed. */
  lemma {:induction false} GluedHeader(x: string, id: string)
    requires '\n' !in x && IsId(id)
    ensures HeaderId(x + Header(id)) == Some(id) && IsLine(x + Header(id))
  {
    var a, z := "<!-- ##### SECTION ", " ##### -->\n";
    var l := x + Header(id);
    HeaderIsLine(id);
    assert l == x + a + id + z;
    assert l[|x|..] == a + (id + z);
    MatchHeader(a, z, id);
    assert l[|l| - 1] == '\n';
    GluedWord(a, z, x, id, Search(HeaderPattern(), l).value.at);
  }

  /** The rest of a text without its line feed is no header. */
  lemma {:induction false} TailIsNoHeader(x: string)
    requires '\n' !in x
    ensures HeaderId(x).None?
  {
    var a, z := "<!-- ##### SECTION ", " ##### -->\n";
    var f := Search(HeaderPattern(), x);
    if f.Some? {
      MatchHasLineFeed(a, z, x[f.value.at..]);
      assert false;
    }
  }

  lemma {:induction false} MatchHasLineFeed(a: string, z: string, t: string)
    requires z != "" && z[|z| - 1] == '\n' && Match([Lit(a), Word(1), Lit(z)], t).Some?
    ensures '\n' in t
  {
    WordCaps(a, z, t);
    var n := Match([Lit(a), Word(1), Lit(z)], t).value.len;
    assert t[n - 1] == t[..n][n - 1] == z[|z| - 1];
  }

  lemma {:induction false} HeaderIsLine(id: string)
    requires IsId(id)
    ensures IsLine(Header(id))
  {
    var a, z := "<!-- ##### SECTION ", " ##### -->";
    assert Header(id) == a + id + z + "\n";
    assert forall i :: 0 <= i < |id| ==> !IsSpace(id[i]);
  }

  // ---- a file as a sequence of sections ----

  /** One section as it stands in a file: its header line, its id and its other lines. */
  datatype Seg = Seg(raw: string, id: string, content: seq<string>)

  ghost predicate NoHeaders(h: Recogniser, ls: seq<string>) {
    forall i :: 0 <= i < |ls| ==> h(ls[i]).None?
  }

  ghost predicate IsSeg(h: Recogniser, s: Seg) {
    h(s.raw) == Some(s.id) && NoHeaders(h, s.content)
  }

  ghost predicate AllSegs(h: Recogniser, segs: seq<Seg>) {
    forall i :: 0 <= i < |segs| ==> IsSeg(h, segs[i])
  }

  function Flatten(segs: seq<Seg>): seq<string> {
    if segs == [] then []
    else Flatten(segs[..|segs| - 1]) + [segs[|segs| - 1].raw] + segs[|segs| - 1].content
  }

  /** The lines in front of the first header, and the sections. */
  datatype Parts = Parts(pre: seq<string>, segs: seq<Seg>)

  function AddLine(p: Parts, l: string, header: Option<string>): Parts {
    if header.Some? then Parts(p.pre, p.segs + [Seg(l, header.value, [])])
    else if p.segs == [] then Parts(p.pre + [l], [])
    else
      var k := |p.segs| - 1;
      Parts(p.pre, p.segs[..k] + [p.segs[k].(content := p.segs[k].content + [l])])
  }

  function Split(h: Recogniser, ls: seq<string>): Parts {
    if ls == [] then Parts([], [])
    else
      var l := ls[|ls| - 1];
      AddLine(Split(h, ls[..|ls| - 1]), l, h(l))
  }

  function Whole(p: Parts): seq<string> {
    p.pre + Flatten(p.segs)
  }

  ghost predicate IsParts(h: Recogniser, p: Parts) {
    NoHeaders(h, p.pre) && AllSegs(h, p.segs)
  }

  lemma {:induction false} FlattenSnoc(segs: seq<Seg>, s: Seg)
    ensures Flatten(segs + [s]) == Flatten(segs) + [s.raw] + s.content
  {
    assert (segs + [s])[..|segs|] == segs;
  }

  lemma {:induction false} AddLineWhole(h: Recogniser, p: Parts, l: string, header: Option<string>)
    requires IsParts(h, p) && header == h(l)
    ensures IsParts(h, AddLine(p, l, header)) && Whole(AddLine(p, l, header)) == Whole(p) + [l]
  {
    if header.Some? {
      FlattenSnoc(p.segs, Seg(l, header.value, []));
    } else if p.segs != [] {
      var k := |p.segs| - 1;
      FlattenSnoc(p.segs[..k], p.segs[k].(content := p.segs[k].content + [l]));
    }
  }

  lemma {:induction false} SplitWhole(h: Recogniser, ls: seq<string>)
    ensures IsParts(h, Split(h, ls)) && Whole(Split(h, ls)) == ls
  {
    if ls != [] {
      var k := |ls| - 1;
      SplitWhole(h, ls[..k]);
      AddLineWhole(h, Split(h, ls[..k]), ls[k], h(ls[k]));
      assert ls == ls[..k] + [ls[k]];
    }
  }

  lemma {:induction false} SplitSnoc(h: Recogniser, ls: seq<string>, l: string, header: Option<string>)
    requires header == h(l)
    ensures Split(h, ls + [l]) == AddLine(Split(h, ls), l, header)
  {
    assert (ls + [l])[..|ls|] == ls;
  }

  lemma {:induction false} AddContent(segs: seq<Seg>, s: Seg, l: string)
    ensures AddLine(Parts([], segs + [s]), l, None) == Parts([], segs + [s.(content := s.content + [l])])
  {
    assert (segs + [s])[..|segs|] == segs;
  }

  lemma {:induction false} SplitContent(h: Recogniser, ls: seq<string>, segs: seq<Seg>, s: Seg, c: seq<string>)
    requires Split(h, ls) == Parts([], segs + [s.(content := [])]) && NoHeaders(h, c)
    ensures Split(h, ls + c) == Parts([], segs + [s.(content := c)])
  {
    if c == [] {
      assert ls + c == ls;
    } else {
      var k := |c| - 1;
      SplitContent(h, ls, segs, s, c[..k]);
      SplitSnoc(h, ls + c[..k], c[k], None);
      AddContent(segs, s.(content := c[..k]), c[k]);
      assert ls + c == ls + c[..k] + [c[k]] && c == c[..k] + [c[k]];
    }
  }

  /** The sections of a file are determined by its lines. */
  lemma {:induction false} SplitOfFlatten(h: Recogniser, segs: seq<Seg>)
    requires AllSegs(h, segs)
    ensures Split(h, Flatten(segs)) == Parts([], segs)
  {
    if segs != [] {
      var k := |segs| - 1;
      SplitOfFlatten(h, segs[..k]);
      SplitSeg(h, Flatten(segs[..k]), segs[..k], segs[k]);
      assert segs == segs[..k] + [segs[k]];
    }
  }

  lemma {:induction false} SplitSeg(h: Recogniser, ls: seq<string>, segs: seq<Seg>, s: Seg)
    requires Split(h, ls) == Parts([], segs) && IsSeg(h, s)
    ensures Split(h, ls + [s.raw] + s.content) == Parts([], segs + [s])
  {
    SplitSnoc(h, ls, s.raw, Some(s.id));
    SplitContent(h, ls + [s.raw], segs, s, s.content);
  }

  // ---- what reading keeps of the sections ----

  function Ids(segs: seq<Seg>): (r: seq<string>)
    ensures |r| == |segs| && forall i :: 0 <= i < |r| ==> r[i] == segs[i].id
  {
    seq(|segs|, i requires 0 <= i < |segs| => segs[i].id)
  }

  /** The last content of every id. */
  function Final(segs: seq<Seg>): map<string, Content> {
    if segs == [] then map[]
    else Final(segs[..|segs| - 1])[segs[|segs| - 1].id := segs[|segs| - 1].content]
  }

  function StateOf(segs: seq<Seg>): State {
    State(Ids(segs), Final(segs), if segs == [] then None else Some(segs[|segs| - 1].id))
  }

  lemma {:induction false} AddLineState(p: Parts, l: string, header: Option<string>)
    ensures Step(StateOf(p.segs), l, header) == StateOf(AddLine(p, l, header).segs)
  {
    var segs := AddLine(p, l, header).segs;
    if header.Some? {
      assert segs[..|p.segs|] == p.segs;
    } else if p.segs != [] {
      var k := |p.segs| - 1;
      var s := p.segs[k];
      assert segs[..k] == p.segs[..k] && segs[k] == s.(content := s.content + [l]);
      assert Final(p.segs) == Final(p.segs[..k])[s.id := s.content];
      assert Final(p.segs)[s.id := s.content + [l]] == Final(p.segs[..k])[s.id := s.content + [l]];
    }
  }

  lemma {:induction false} ReadIsSplit(h: Recogniser, ls: seq<string>)
    ensures Read(h, ls) == StateOf(Split(h, ls).segs)
  {
    if ls != [] {
      var k := |ls| - 1;
      ReadIsSplit(h, ls[..k]);
      AddLineState(Split(h, ls[..k]), ls[k], h(ls[k]));
    }
  }

  lemma {:induction false} FinalIs(segs: seq<Seg>, id: string) returns (k: nat)
    ensures id in Final(segs) <==> id in Ids(segs)
    ensures id in Final(segs) ==> k < |segs| && segs[k].id == id && Final(segs)[id] == segs[k].content
    ensures segs != [] && segs[|segs| - 1].id == id ==> k == |segs| - 1
  {
    k := 0;
    if segs != [] {
      var n := |segs| - 1;
      assert Ids(segs) == Ids(segs[..n]) + [segs[n].id];
      if segs[n].id == id {
        k := n;
      } else {
        k := FinalIs(segs[..n], id);
      }
    }
  }

  // ---- reading a printed template ----

  /** Sections that can be printed and read again: proper ids and contents without header lines. Only
      the content of the last id may lack its line feed. */
  ghost predicate Tidy(ids: seq<string>, sections: map<string, Content>) {
    forall id :: id in ids ==> TidySection(ids, sections, id)
  }

  ghost predicate TidySection(ids: seq<string>, sections: map<string, Content>, id: string)
    requires id in ids
  {
    var c := Concat(Known(sections, id));
    IsId(id) && NoHeaders(HeaderId, ReadLines(c)) && (Terminated(c) || id == ids[|ids| - 1])
  }

  /** The text of section i, and what it leaves in front of the next header. */
  function TextOf(ids: seq<string>, sections: map<string, Content>, i: nat): string
    requires i < |ids|
  {
    Concat(Known(sections, ids[i]))
  }

  function Pending(ids: seq<string>, sections: map<string, Content>, i: nat): string
    requires i <= |ids|
  {
    if i == 0 then "" else Tail(TextOf(ids, sections, i - 1))
  }

  function CanonSeg(ids: seq<string>, sections: map<string, Content>, i: nat): Seg
    requires i < |ids|
  {
    var c := TextOf(ids, sections, i);
    Seg(Pending(ids, sections, i) + Header(ids[i]), ids[i], if i + 1 == |ids| then ReadLines(c) else Body(c))
  }

  /** The sections of a printed template, as they are read. */
  function Canon(ids: seq<string>, sections: map<string, Content>): (r: seq<Seg>)
    ensures |r| == |ids| && forall i :: 0 <= i < |r| ==> r[i] == CanonSeg(ids, sections, i)
  {
    seq(|ids|, i requires 0 <= i < |ids| => CanonSeg(ids, sections, i))
  }

  ghost predicate AllIds(ids: seq<string>) {
    forall id :: id in ids ==> IsId(id)
  }

  lemma {:induction false} PendingIsTail(ids: seq<string>, sections: map<string, Content>, i: nat)
    requires i <= |ids|
    ensures '\n' !in Pending(ids, sections, i)
  {
    if i > 0 {
      FrontAndTail(TextOf(ids, sections, i - 1));
    }
  }

  lemma {:induction false} LinesAppend(f: seq<string>, raw: string, g: seq<string>)
    requires AllLines(f) && IsLine(raw) && AllLines(g)
    ensures AllLines(f + [raw] + g) && Concat(f + [raw] + g) == Concat(f) + raw + Concat(g)
  {
    ConcatAppend(f + [raw], g);
    ConcatAppend(f, [raw]);
    assert [raw][1..] == [];
  }

  /** The complete lines of what is printed for the first k ids, and the rest of its last line. */
  lemma {:induction false} PrintedLines(ids: seq<string>, sections: map<string, Content>, k: nat)
    requires k < |ids| && AllIds(ids)
    ensures AllLines(Flatten(Canon(ids, sections)[..k]))
    ensures Concat(Flatten(Canon(ids, sections)[..k])) + Pending(ids, sections, k) == Text(ids, sections, k)
  {
    if k != 0 {
      var segs := Canon(ids, sections);
      var f, c, x := Flatten(segs[..k - 1]), TextOf(ids, sections, k - 1), Pending(ids, sections, k - 1);
      PrintedLines(ids, sections, k - 1);
      PendingIsTail(ids, sections, k - 1);
      GluedHeader(x, ids[k - 1]);
      BodyAndTail(c);
      FrontAndTail(c);
      LinesAppend(f, x + Header(ids[k - 1]), Body(c));
      FlattenOneMore(segs, k);
      Regroup(Concat(f), x, Header(ids[k - 1]), Front(c), Tail(c));
    }
  }

  lemma {:induction false} Regroup(f: string, x: string, h: string, c: string, t: string)
    ensures f + (x + h) + c + t == f + x + (h + (c + t))
  {
  }

  lemma {:induction false} FlattenOneMore(segs: seq<Seg>, k: nat)
    requires 0 < k <= |segs|
    ensures Flatten(segs[..k]) == Flatten(segs[..k - 1]) + [segs[k - 1].raw] + segs[k - 1].content
  {
    assert segs[..k] == segs[..k - 1] + [segs[k - 1]];
    FlattenSnoc(segs[..k - 1], segs[k - 1]);
  }

  lemma {:induction false} PrintedStep(ids: seq<string>, sections: map<string, Content>, k: nat)
    requires 0 < k <= |ids|
    ensures Concat(Printed(ids, sections, k))
         == Concat(Printed(ids, sections, k - 1)) + (Header(ids[k - 1]) + Concat(Known(sections, ids[k - 1])))
  {
    var a, x, c := Printed(ids, sections, k - 1), Header(ids[k - 1]), Known(sections, ids[k - 1]);
    assert a + [x] + c == a + ([x] + c) && ([x] + c)[1..] == c;
    ConcatAppend(a, [x] + c);
  }

  lemma {:induction false} OutputLines(ids: seq<string>, sections: map<string, Content>)
    requires AllIds(ids)
    ensures ReadLines(Output(ids, sections)) == Flatten(Canon(ids, sections))
  {
    PrintedText(ids, sections, |ids|);
    if ids != [] {
      var k, segs := |ids| - 1, Canon(ids, sections);
      var f, c, x := Flatten(segs[..k]), TextOf(ids, sections, k), Pending(ids, sections, k);
      PrintedLines(ids, sections, k);
      PendingIsTail(ids, sections, k);
      GluedHeader(x, ids[k]);
      LinesOfText(f, x, Header(ids[k]), c);
      FlattenOneMore(segs, |ids|);
      assert segs[..|ids|] == segs;
    }
  }

  lemma {:induction false} LinesOfText(f: seq<string>, x: string, h: string, c: string)
    requires AllLines(f) && IsLine(x + h)
    ensures ReadLines(Concat(f) + x + (h + c)) == f + [x + h] + ReadLines(c)
  {
    assert Concat(f) + x + (h + c) == Concat(f) + ((x + h) + c);
    ReadLinesOfConcat(f, (x + h) + c);
    ReadLinesOfLine(x + h, c);
  }

  lemma {:induction false} CanonSplits(ids: seq<string>, sections: map<string, Content>)
    requires Tidy(ids, sections)
    ensures Split(HeaderId, Flatten(Canon(ids, sections))) == Parts([], Canon(ids, sections))
  {
    var segs := Canon(ids, sections);
    forall i | 0 <= i < |segs| ensures IsSeg(HeaderId, segs[i]) {
      assert TidySection(ids, sections, ids[i]);
      PendingIsTail(ids, sections, i);
      GluedHeader(Pending(ids, sections, i), ids[i]);
      BodyAndTail(TextOf(ids, sections, i));
      NoHeadersInPart(HeaderId, Body(TextOf(ids, sections, i)), TailLine(Tail(TextOf(ids, sections, i))));
    }
    SplitOfFlatten(HeaderId, segs);
  }

  lemma NoHeadersInPart(h: Recogniser, a: seq<string>, b: seq<string>)
    requires NoHeaders(h, a + b)
    ensures NoHeaders(h, a)
  {
    assert forall i :: 0 <= i < |a| ==> (a + b)[i] == a[i];
  }

  lemma {:induction false} TidyIds(ids: seq<string>, sections: map<string, Content>)
    requires Tidy(ids, sections)
    ensures AllIds(ids)
  {
    forall id | id in ids ensures IsId(id) {
      assert TidySection(ids, sections, id);
    }
  }

  /** Reading a printed template gives the same ids and, line by line, the same contents. */
  lemma {:induction false} Reread(ids: seq<string>, sections: map<string, Content>)
    requires Tidy(ids, sections)
    ensures var s := Read(HeaderId, ReadLines(Output(ids, sections)));
            && s.ids == ids
            && (forall id :: id in s.sections <==> id in ids)
            && (forall id :: id in ids ==> Known(s.sections, id) == ReadLines(Concat(Known(sections, id))))
  {
    TidyIds(ids, sections);
    OutputLines(ids, sections);
    CanonSplits(ids, sections);
    ReadIsSplit(HeaderId, Flatten(Canon(ids, sections)));
    CanonIds(ids, sections);
    forall i | 0 <= i < |ids| && Decides(ids, i) ensures Keeps(Canon(ids, sections), sections, i) {
      TidyTerminates(ids, sections, ids[i]);
      CanonContentIs(ids, sections, i);
    }
    FinalKeeps(Canon(ids, sections), ids, sections);
  }

  /** Section i is the last one of all, or the last one has another id. */
  ghost predicate Decides(ids: seq<string>, i: nat)
    requires i < |ids|
  {
    i + 1 == |ids| || ids[|ids| - 1] != ids[i]
  }

  ghost predicate Keeps(segs: seq<Seg>, sections: map<string, Content>, i: nat)
    requires i < |segs|
  {
    segs[i].content == ReadLines(Concat(Known(sections, segs[i].id)))
  }

  lemma {:induction false} FinalKeeps(segs: seq<Seg>, ids: seq<string>, sections: map<string, Content>)
    requires Ids(segs) == ids && forall i :: 0 <= i < |ids| && Decides(ids, i) ==> Keeps(segs, sections, i)
    ensures forall id :: id in Final(segs) <==> id in ids
    ensures forall id :: id in ids ==> Known(Final(segs), id) == ReadLines(Concat(Known(sections, id)))
  {
    forall id: string
      ensures id in Final(segs) <==> id in ids
      ensures id in ids ==> Known(Final(segs), id) == ReadLines(Concat(Known(sections, id)))
    {
      var k := FinalIs(segs, id);
      if id in ids {
        assert Decides(ids, k);
        assert Keeps(segs, sections, k);
      }
    }
  }

  lemma {:induction false} CanonIds(ids: seq<string>, sections: map<string, Content>)
    ensures Ids(Canon(ids, sections)) == ids
  {
  }

  lemma {:induction false} TidyTerminates(ids: seq<string>, sections: map<string, Content>, id: string)
    requires Tidy(ids, sections) && id in ids
    ensures Terminated(Concat(Known(sections, id))) || id == ids[|ids| - 1]
  {
    assert TidySection(ids, sections, id);
  }

  lemma {:induction false} CanonContentIs(ids: seq<string>, sections: map<string, Content>, i: nat)
    requires i < |ids| && (i + 1 == |ids| || Terminated(Concat(Known(sections, ids[i]))))
    ensures Canon(ids, sections)[i].id == ids[i]
    ensures Canon(ids, sections)[i].content == ReadLines(Concat(Known(sections, ids[i])))
  {
    assert Canon(ids, sections)[i] == CanonSeg(ids, sections, i);
  }

  lemma {:induction false} PrintedSame(ids: seq<string>, s: map<string, Content>, s': map<string, Content>, k: nat)
    requires k <= |ids| && SameContents(ids, s, s')
    ensures Concat(Printed(ids, s, k)) == Concat(Printed(ids, s', k))
  {
    PrintedText(ids, s, k);
    PrintedText(ids, s', k);
    SameText(ids, s, s', k);
  }

  /** The printed text of the first k sections. */
  ghost function Text(ids: seq<string>, s: map<string, Content>, k: nat): string
    requires k <= |ids|
  {
    if k == 0 then "" else Text(ids, s, k - 1) + (Header(ids[k - 1]) + Concat(Known(s, ids[k - 1])))
  }

  lemma {:induction false} PrintedText(ids: seq<string>, s: map<string, Content>, k: nat)
    requires k <= |ids|
    ensures Concat(Printed(ids, s, k)) == Text(ids, s, k)
  {
    if k != 0 {
      PrintedText(ids, s, k - 1);
      PrintedStep(ids, s, k);
    }
  }

  lemma {:induction false} SameText(ids: seq<string>, s: map<string, Content>, s': map<string, Content>, k: nat)
    requires k <= |ids| && SameContents(ids, s, s')
    ensures Text(ids, s, k) == Text(ids, s', k)
  {
    if k != 0 {
      SameText(ids, s, s', k - 1);
      assert SameContent(s, s', ids[k - 1]);
    }
  }

  ghost predicate SameContent(s: map<string, Content>, s': map<string, Content>, id: string) {
    Concat(Known(s, id)) == Concat(Known(s', id))
  }

  ghost predicate SameContents(ids: seq<string>, s: map<string, Content>, s': map<string, Content>) {
    forall id :: id in ids ==> SameContent(s, s', id)
  }

  // ---- what was read from a file can be printed ----

  lemma {:induction false} SegLines(segs: seq<Seg>)
    requires AllLines(Flatten(segs))
    ensures forall i :: 0 <= i < |segs| ==> AllLines(segs[i].content)
  {
    if segs != [] {
      var k := |segs| - 1;
      var a, f := Flatten(segs[..k]), Flatten(segs);
      assert f == a + [segs[k].raw] + segs[k].content;
      assert forall j :: 0 <= j < |a| ==> a[j] == f[j];
      assert forall j :: 0 <= j < |segs[k].content| ==> segs[k].content[j] == f[|a| + 1 + j];
      SegLines(segs[..k]);
    }
  }

  lemma {:induction false} WholeLines(p: Parts)
    requires AllLines(Whole(p))
    ensures forall i :: 0 <= i < |p.segs| ==> AllLines(p.segs[i].content)
  {
    assert forall j :: 0 <= j < |Flatten(p.segs)| ==> Flatten(p.segs)[j] == Whole(p)[|p.pre| + j];
    SegLines(p.segs);
  }

  lemma {:induction false} LinesStay(c: seq<string>)
    requires AllLines(c)
    ensures ReadLines(Concat(c)) == c && Terminated(Concat(c))
  {
    ReadLinesOfConcat(c, "");
    assert Concat(c) + "" == Concat(c);
    assert c + ReadLines("") == c;
    LastOfConcat(c);
  }

  lemma {:induction false} LastOfConcat(c: seq<string>)
    requires AllLines(c)
    ensures Terminated(Concat(c))
    decreases |c|
  {
    if c != [] {
      LastOfConcat(c[1..]);
      assert IsLine(c[0]);
    }
  }

  /** The parts of a file that ends with a line feed. */
  lemma {:induction false} TerminatedParts(h: Recogniser, t: string)
    requires Terminated(t)
    ensures var p := Split(h, ReadLines(t));
            && IsParts(h, p) && Whole(p) == ReadLines(t)
            && forall i :: 0 <= i < |p.segs| ==> AllLines(p.segs[i].content)
  {
    SplitWhole(h, ReadLines(t));
    LinesOfTerminated(t);
    WholeLines(Split(h, ReadLines(t)));
  }

  /** A content is what its own text is read into. */
  ghost predicate Readable(c: seq<string>) {
    ReadLines(Concat(c)) == c
  }

  /** The sections of a file: each is made of lines, and all but the last of complete ones. */
  ghost predicate LineSegs(segs: seq<Seg>) {
    forall i :: 0 <= i < |segs| ==>
      Readable(segs[i].content) && (i + 1 < |segs| ==> Terminated(Concat(segs[i].content)))
  }

  lemma {:induction false} LinesAndTail(c: seq<string>, x: string)
    requires AllLines(c) && '\n' !in x
    ensures Readable(c + TailLine(x))
  {
    ReadLinesOfConcat(c, x);
    ReadLinesOfTail(x);
    ConcatAppend(c, TailLine(x));
    assert [x][1..] == [];
    assert Concat(TailLine(x)) == x;
  }

  lemma {:induction false} AddTailLine(segs: seq<Seg>, x: string)
    requires segs != [] && x != "" && '\n' !in x && forall i :: 0 <= i < |segs| ==> AllLines(segs[i].content)
    ensures LineSegs(AddLine(Parts([], segs), x, None).segs)
  {
    var k := |segs| - 1;
    forall i | 0 <= i < k ensures Readable(segs[i].content) && Terminated(Concat(segs[i].content)) {
      LinesStay(segs[i].content);
    }
    LinesAndTail(segs[k].content, x);
    assert TailLine(x) == [x];
  }

  /** The parts of any file. */
  lemma {:induction false} FileParts(t: string)
    ensures var p := Split(HeaderId, ReadLines(t));
            && IsParts(HeaderId, p) && Whole(p) == ReadLines(t) && LineSegs(p.segs)
            && (Terminated(t) ==> forall i :: 0 <= i < |p.segs| ==> Terminated(Concat(p.segs[i].content)))
            && Read(HeaderId, ReadLines(t)) == StateOf(p.segs)
  {
    SplitWhole(HeaderId, ReadLines(t));
    ReadIsSplit(HeaderId, ReadLines(t));
    if Terminated(t) {
      TerminatedParts(HeaderId, t);
      LinesAreSegs(Split(HeaderId, ReadLines(t)).segs);
    } else {
      TailParts(t);
    }
  }

  lemma {:induction false} LinesAreSegs(segs: seq<Seg>)
    requires forall i :: 0 <= i < |segs| ==> AllLines(segs[i].content)
    ensures LineSegs(segs) && forall i :: 0 <= i < |segs| ==> Terminated(Concat(segs[i].content))
  {
    forall i | 0 <= i < |segs| ensures Readable(segs[i].content) && Terminated(Concat(segs[i].content)) {
      LinesStay(segs[i].content);
    }
  }

  lemma {:induction false} TailParts(t: string)
    requires !Terminated(t)
    ensures LineSegs(Split(HeaderId, ReadLines(t)).segs)
  {
    var x := Tail(t);
    FrontAndTail(t);
    BodyAndTail(t);
    TerminatedParts(HeaderId, Front(t));
    TailIsNoHeader(x);
    SplitSnoc(HeaderId, Body(t), x, None);
    var q := Split(HeaderId, Body(t));
    if q.segs != [] {
      AddTailLine(q.segs, x);
      assert AddLine(q, x, None).segs == AddLine(Parts([], q.segs), x, None).segs;
    }
  }

  lemma {:induction false} ReadIsTidy(t: string, id: string)
    ensures var s := Read(HeaderId, ReadLines(t));
            && (id in s.sections <==> id in s.ids)
            && (id in s.ids ==>
                  && IsId(id) && Readable(s.sections[id]) && NoHeaders(HeaderId, s.sections[id])
                  && (Terminated(Concat(s.sections[id])) || (!Terminated(t) && id == s.ids[|s.ids| - 1])))
  {
    FileParts(t);
    var segs := Split(HeaderId, ReadLines(t)).segs;
    var k := FinalIs(segs, id);
    if id in Final(segs) {
      assert IsSeg(HeaderId, segs[k]);
      IdOfHeaderLine(segs[k].raw);
    }
  }

  lemma {:induction false} ReadTidies(t: string)
    ensures var s := Read(HeaderId, ReadLines(t));
            && Tidy(s.ids, s.sections)
            && forall id :: id in s.ids ==> Readable(Known(s.sections, id))
  {
    var s := Read(HeaderId, ReadLines(t));
    forall id | id in s.ids ensures TidySection(s.ids, s.sections, id) && Readable(Known(s.sections, id)) {
      ReadIsTidy(t, id);
    }
  }

  // ---- the laws ----

  function Normal(t: string): string {
    var s := Read(HeaderId, ReadLines(t));
    Output(s.ids, s.sections)
  }

  /** Printing what was read is a fixed point. */
  lemma {:induction false} OutputIsFixedPoint(t: string)
    ensures Normal(Normal(t)) == Normal(t)
  {
    ReadTidies(t);
    var s := Read(HeaderId, ReadLines(t));
    Reread(s.ids, s.sections);
    var s' := Read(HeaderId, ReadLines(Normal(t)));
    forall id | id in s.ids ensures SameContent(s.sections, s'.sections, id) {
      ConcatOfReadLines(Concat(Known(s.sections, id)));
    }
    PrintedSame(s.ids, s.sections, s'.sections, |s.ids|);
  }

  /** A file is already in printed form: nothing in front of the first header, every header line
      exact, and ids that occur again have the same lines each time. If the last line of the file
      lacks its line feed, it is printed with every section of the last id: elsewhere it stands in
      front of the next header line. */
  ghost predicate Exact(p: Parts) {
    && p.pre == []
    && (forall i :: 0 <= i < |p.segs| ==> p.segs[i].raw == Before(p.segs, i) + Header(p.segs[i].id))
    && SameLines(p.segs)
  }

  /** What stands in front of header i. */
  function Before(segs: seq<Seg>, i: nat): string
    requires i < |segs|
  {
    var n := |segs| - 1;
    if i > 0 && segs[i - 1].id == segs[n].id then Tail(Concat(segs[n].content)) else ""
  }

  /** The complete lines of a content. */
  function Complete(c: seq<string>): seq<string> {
    Body(Concat(c))
  }

  ghost predicate SameLines(segs: seq<Seg>) {
    forall i, j :: 0 <= i < |segs| && 0 <= j < |segs| && segs[i].id == segs[j].id ==>
      Complete(segs[i].content) == Complete(segs[j].content)
  }

  lemma {:induction false} LastContents(segs: seq<Seg>)
    ensures (forall i :: 0 <= i < |segs| ==> Complete(segs[i].content) == Complete(Known(Final(segs), segs[i].id)))
       <==> SameLines(segs)
  {
    forall i | 0 <= i < |segs| ensures LastOf(segs, i) {
      var k := FinalIs(segs, segs[i].id);
      assert Ids(segs)[i] == segs[i].id;
    }
    if SameLines(segs) {
      forall i | 0 <= i < |segs| ensures Complete(segs[i].content) == Complete(Known(Final(segs), segs[i].id)) {
        assert LastOf(segs, i);
      }
    }
  }

  /** The last segment with the id of segment i decides. */
  ghost predicate LastOf(segs: seq<Seg>, i: nat)
    requires i < |segs|
  {
    exists k :: 0 <= k < |segs| && segs[k].id == segs[i].id && Known(Final(segs), segs[i].id) == segs[k].content
  }

  /** What a printed section leaves in front of the next header. */
  lemma {:induction false} PendingIsBefore(segs: seq<Seg>, i: nat)
    requires LineSegs(segs) && i < |segs|
    ensures Pending(Ids(segs), Final(segs), i) == Before(segs, i)
  {
    if i > 0 {
      var id := segs[i - 1].id;
      var k := FinalIs(segs, id);
      assert Ids(segs)[i - 1] == id;
      assert k + 1 < |segs| ==> Tail(Concat(segs[k].content)) == "" by {
        FrontAndTail(Concat(segs[k].content));
      }
    }
  }

  lemma {:induction false} CanonContent(segs: seq<Seg>, i: nat)
    requires LineSegs(segs) && i < |segs|
    ensures segs[i].content == CanonSeg(Ids(segs), Final(segs), i).content
       <==> Complete(segs[i].content) == Complete(Known(Final(segs), segs[i].id))
  {
    if i + 1 == |segs| {
      var k := FinalIs(segs, segs[i].id);
      assert Ids(segs)[i] == segs[i].id;
    }
  }

  lemma {:induction false} CanonIsExact(segs: seq<Seg>)
    requires LineSegs(segs)
    ensures segs == Canon(Ids(segs), Final(segs)) <==> Exact(Parts([], segs))
  {
    var ids, f := Ids(segs), Final(segs);
    LastContents(segs);
    forall i | 0 <= i < |segs|
      ensures segs[i] == Canon(ids, f)[i]
         <==> segs[i].raw == Before(segs, i) + Header(segs[i].id)
              && Complete(segs[i].content) == Complete(Known(f, segs[i].id))
    {
      PendingIsBefore(segs, i);
      CanonContent(segs, i);
      assert Canon(ids, f)[i] == CanonSeg(ids, f, i);
    }
    assert segs == Canon(ids, f) <==> forall i :: 0 <= i < |segs| ==> segs[i] == Canon(ids, f)[i];
  }

  lemma {:induction false} SameParts(h: Recogniser, t: string, u: string, p: Parts, q: Parts)
    requires Split(h, ReadLines(t)) == p && Whole(p) == ReadLines(t)
    requires Split(h, ReadLines(u)) == q && Whole(q) == ReadLines(u)
    ensures t == u <==> p == q
  {
    ConcatOfReadLines(t);
    ConcatOfReadLines(u);
  }

  /** Printing a file gives the file itself exactly when it is in printed form already. */
  lemma {:induction false} UnchangedIffExact(t: string)
    ensures Normal(t) == t <==> Exact(Split(HeaderId, ReadLines(t)))
  {
    FileParts(t);
    ReadTidies(t);
    var p := Split(HeaderId, ReadLines(t));
    var ids, f := Ids(p.segs), Final(p.segs);
    TidyIds(ids, f);
    OutputLines(ids, f);
    CanonSplits(ids, f);
    var q := Parts([], Canon(ids, f));
    assert Whole(q) == Flatten(Canon(ids, f));
    SameParts(HeaderId, t, Normal(t), p, q);
    if p.pre == [] {
      CanonIsExact(p.segs);
    }
  }

  // ---- the per-file step, twice ----

  function DescriptionText(description: Option<string>): string {
    if description.Some? then description.value + "\n\n" else ""
  }

  /** The description would be read as more than the text of one section. */
  ghost predicate HoldsHeader(description: Option<string>) {
    !NoHeaders(HeaderId, ReadLines(DescriptionText(description)))
  }

  lemma {:induction false} FoundAtLineEnd(p: seq<Item>, w: string, l: string)
    requires p != [] && p[|p| - 1] == Lit(w) && w != "" && w[|w| - 1] == '\n'
    requires IsLine(l) && Search(p, l).Some?
    ensures |w| <= |l| && l[|l| - |w|..] == w
  {
    var f := Search(p, l).value;
    var t := l[f.at..];
    MatchRenders(p, t);
    LiteralEnds(p, f.hit.caps);
    var m := f.hit.len;
    assert t[..m][m - |w|..] == w;
    LineEndsAt(w, l, f.at, m);
  }

  lemma {:induction false} LineEndsAt(w: string, l: string, at: nat, m: nat)
    requires IsLine(l) && w != "" && w[|w| - 1] == '\n' && |w| <= m && at + m <= |l|
    requires l[at..][..m][m - |w|..] == w
    ensures |w| <= |l| && l[|l| - |w|..] == w
  {
    var n := at + m;
    assert l[n - |w|..n] == l[at..][..m][m - |w|..];
    assert l[n - 1] == l[n - |w|..n][|w| - 1];
    assert n == |l|;
  }

  lemma {:induction false} IncludeIsNoHeader(element: string)
    requires '\n' !in element
    ensures IsLine(IncludeLine(element)) && HeaderId(IncludeLine(element)).None?
  {
    var l := IncludeLine(element);
    var a, b, z := "<include xmlns=\"", "\" href=\"element-", "-details.xml\" />";
    assert '\n' !in a && '\n' !in XINCLUDE && '\n' !in b && '\n' !in z;
    var body := a + XINCLUDE + b + element + z;
    assert '\n' !in body;
    assert l == body + "\n";
    assert l[|l| - 3] == z[|z| - 2];
    NoHeaderAtEnd(l);
  }

  lemma {:induction false} NoHeaderAtEnd(l: string)
    requires IsLine(l) && |l| > 3 && l[|l| - 3] == '/'
    ensures HeaderId(l).None?
  {
    if Search(HeaderPattern(), l).Some? {
      FoundAtLineEnd(HeaderPattern(), " ##### -->\n", l);
      assert false;
    }
  }

  lemma {:induction false} MangledKnown(s: map<string, Content>, element: string, description: Option<string>,
                                        id: string)
    requires Mangled(s, element, description).Some?
    ensures var m, line := Mangled(s, element, description).value, IncludeLine(element);
            && LONG in s && m.Keys == s.Keys + (if description.Some? then {SHORT} else {})
            && Known(m, LONG) != [] && Known(m, LONG)[0] == line
            && Known(m, id) == (if id == SHORT && description.Some? then Chars(DescriptionText(description))
                                else if id == LONG && s[LONG][0] != line then [line] + s[LONG]
                                else Known(s, id))
  {
    assert SHORT[0] == 'S' && LONG[0] == 'L';
  }

  lemma {:induction false} LongContent(h: Recogniser, line: string, c: seq<string>)
    requires IsLine(line) && h(line).None? && Readable(c) && NoHeaders(h, c)
    ensures Readable([line] + c) && NoHeaders(h, [line] + c)
    ensures Terminated(Concat([line] + c)) <==> Terminated(Concat(c))
  {
    assert ([line] + c)[1..] == c;
    ReadLinesOfLine(line, Concat(c));
  }

  predicate StartsWith(c: seq<string>, line: string) {
    c != [] && c[0] == line
  }

  /** What the per-file step leaves in the sections of a file: the new short description, a long
      one that starts with the include line, and everything else as it was. Contents end with a line
      feed, except perhaps the last one of a file that does not. */
  lemma {:induction false} MangledContents(t: string, element: string, description: Option<string>, id: string)
    requires '\n' !in element
    requires var s := Read(HeaderId, ReadLines(t)); id in s.ids && Mangled(s.sections, element, description).Some?
    ensures var s := Read(HeaderId, ReadLines(t));
            var m := Mangled(s.sections, element, description).value;
            && IsId(id) && LONG in s.ids
            && (Terminated(Concat(Known(m, id))) || (!Terminated(t) && id == s.ids[|s.ids| - 1]))
            && (id == LONG ==> Known(m, id) != [] && Known(m, id)[0] == IncludeLine(element))
            && (if id == SHORT && description.Some?
                then Concat(Known(m, id)) == DescriptionText(description)
                else
                  && Readable(Known(m, id)) && NoHeaders(HeaderId, Known(m, id))
                  && Concat(Known(m, id)) ==
                     (if id == LONG && !StartsWith(Known(s.sections, id), IncludeLine(element))
                      then IncludeLine(element) else "") + Concat(Known(s.sections, id)))
  {
    var s := Read(HeaderId, ReadLines(t));
    var m := Mangled(s.sections, element, description).value;
    ReadIsTidy(t, id);
    ReadIsTidy(t, LONG);
    MangledKnown(s.sections, element, description, id);
    if id == SHORT && description.Some? {
      ConcatOfChars(DescriptionText(description));
    } else {
      IncludeIsNoHeader(element);
      LongContent(HeaderId, IncludeLine(element), s.sections[LONG]);
      assert ([IncludeLine(element)] + s.sections[LONG])[1..] == s.sections[LONG];
      assert "" + Concat(Known(s.sections, id)) == Concat(Known(s.sections, id));
    }
  }

  /** The ids a text is read into. */
  function IdsOf(t: string): seq<string> {
    Read(HeaderId, ReadLines(t)).ids
  }

  lemma {:induction false} ReadIdsAppend(h: Recogniser, a: seq<string>, b: seq<string>)
    ensures Read(h, a + b).ids == Read(h, a).ids + Read(h, b).ids
  {
    if b == [] {
      assert a + b == a;
    } else {
      assert (a + b)[..|a + b| - 1] == a + b[..|b| - 1];
      ReadIdsAppend(h, a, b[..|b| - 1]);
    }
  }

  /** A text, a printed header and more: also if the text lacks its last line feed. */
  lemma {:induction false} IdsOfPrintedStep(a: string, id: string, c: string)
    requires IsId(id)
    ensures IdsOf(a + (Header(id) + c)) == IdsOf(a) + [id] + IdsOf(c)
  {
    FrontAndTail(a);
    GluedHeader(Tail(a), id);
    LinesAroundHeader(a, Header(id), c);
    IdsOfBody(a);
    IdsOfLines(HeaderId, Body(a), Tail(a) + Header(id), ReadLines(c), id);
  }

  lemma {:induction false} LinesAroundHeader(a: string, header: string, c: string)
    requires IsLine(Tail(a) + header)
    ensures ReadLines(a + (header + c)) == Body(a) + ([Tail(a) + header] + ReadLines(c))
  {
    ReadLinesBehind(a, header + c);
    assert Tail(a) + (header + c) == Tail(a) + header + c;
    ReadLinesOfLine(Tail(a) + header, c);
  }

  lemma {:induction false} IdsOfBody(a: string)
    ensures Read(HeaderId, Body(a)).ids == IdsOf(a)
  {
    BodyAndTail(a);
    FrontAndTail(a);
    TailIsNoHeader(Tail(a));
    ReadIdsAppend(HeaderId, Body(a), TailLine(Tail(a)));
    HeaderIsCounted(HeaderId, TailLine(Tail(a)));
  }

  lemma {:induction false} IdsOfLines(h: Recogniser, a: seq<string>, l: string, c: seq<string>, id: string)
    requires h(l) == Some(id)
    ensures Read(h, a + ([l] + c)).ids == Read(h, a).ids + [id] + Read(h, c).ids
  {
    ReadIdsAppend(h, a, [l] + c);
    ReadIdsAppend(h, [l], c);
    assert [l][..0] == [];
    assert Read(h, [l]).ids == [] + [id];
  }

  /** r has room for the first k ids, and for more if it is rich. */
  ghost predicate Covers(ids: seq<string>, k: nat, r: seq<string>, rich: bool)
    requires k <= |ids|
  {
    |r| >= k && (forall i :: 0 <= i < k ==> ids[i] in r) && (rich ==> |r| > k)
  }

  lemma {:induction false} CoversStep(ids: seq<string>, k: nat, r: seq<string>, rich: bool,
                                      q: seq<string>, richer: bool)
    requires k < |ids| && Covers(ids, k, r, rich) && (richer ==> rich || q != [])
    ensures Covers(ids, k + 1, r + [ids[k]] + q, richer)
  {
  }

  /** The ids that the printed lines of the first k ids are read into. */
  function RereadIds(ids: seq<string>, sections: map<string, Content>, k: nat): seq<string>
    requires k <= |ids|
  {
    if k == 0 then []
    else RereadIds(ids, sections, k - 1) + [ids[k - 1]] + IdsOf(Concat(Known(sections, ids[k - 1])))
  }

  /** At least the ids themselves, and more if a content holds a header. */
  lemma {:induction false} RereadCovers(ids: seq<string>, sections: map<string, Content>, k: nat, w: nat)
    requires k <= |ids| && w < |ids|
    ensures Covers(ids, k, RereadIds(ids, sections, k), w < k && IdsOf(Concat(Known(sections, ids[w]))) != [])
  {
    if k != 0 {
      RereadCovers(ids, sections, k - 1, w);
      var rich := IdsOf(Concat(Known(sections, ids[w]))) != [];
      CoversStep(ids, k - 1, RereadIds(ids, sections, k - 1), w < k - 1 && rich,
                 IdsOf(Concat(Known(sections, ids[k - 1]))), w < k && rich);
    }
  }

  lemma {:induction false} IdsOfPrinted(ids: seq<string>, sections: map<string, Content>, k: nat)
    requires k <= |ids| && AllIds(ids)
    ensures IdsOf(Concat(Printed(ids, sections, k))) == RereadIds(ids, sections, k)
  {
    PrintedText(ids, sections, k);
    IdsOfText(ids, sections, k);
  }

  lemma {:induction false} IdsOfText(ids: seq<string>, sections: map<string, Content>, k: nat)
    requires k <= |ids| && AllIds(ids)
    ensures IdsOf(Text(ids, sections, k)) == RereadIds(ids, sections, k)
  {
    if k == 0 {
      assert IdsOf("") == [];
    } else {
      IdsOfText(ids, sections, k - 1);
      IdsOfTextStep(ids, sections, k);
    }
  }

  lemma {:induction false} IdsOfTextStep(ids: seq<string>, sections: map<string, Content>, k: nat)
    requires 0 < k <= |ids| && IsId(ids[k - 1])
    requires IdsOf(Text(ids, sections, k - 1)) == RereadIds(ids, sections, k - 1)
    ensures IdsOf(Text(ids, sections, k)) == RereadIds(ids, sections, k)
  {
    var a, c := Text(ids, sections, k - 1), Concat(Known(sections, ids[k - 1]));
    IdsOfPrintedStep(a, ids[k - 1], c);
    assert Text(ids, sections, k) == a + (Header(ids[k - 1]) + c);
  }

  lemma {:induction false} HeaderIsCounted(h: Recogniser, ls: seq<string>)
    ensures Read(h, ls).ids == [] <==> NoHeaders(h, ls)
  {
    if ls != [] {
      HeaderIsCounted(h, ls[..|ls| - 1]);
      assert ls == ls[..|ls| - 1] + [ls[|ls| - 1]];
    }
  }

  /** The second run on a file whose short description holds no header: the same ids, the same
      contents, the include line already there. */
  lemma {:induction false} SecondRunSame(t: string, element: string, description: Option<string>)
    requires '\n' !in element && Mangle(t, element, description).Some?
    requires !(description.Some? && SHORT in IdsOf(t) && HoldsHeader(description))
    ensures Mangle(Mangle(t, element, description).value, element, description) == Mangle(t, element, description)
  {
    var s := Read(HeaderId, ReadLines(t));
    var m := Mangled(s.sections, element, description).value;
    SecondRead(t, element, description);
    var s2 := Read(HeaderId, ReadLines(Output(s.ids, m)));
    SecondContents(t, element, description, s2.sections);
    PrintedSame(s.ids, m, Mangled(s2.sections, element, description).value, |s.ids|);
  }

  /** What the second run reads. */
  lemma {:induction false} SecondRead(t: string, element: string, description: Option<string>)
    requires '\n' !in element
    requires Mangled(Read(HeaderId, ReadLines(t)).sections, element, description).Some?
    requires !(description.Some? && SHORT in IdsOf(t) && HoldsHeader(description))
    ensures var s := Read(HeaderId, ReadLines(t));
            var m := Mangled(s.sections, element, description).value;
            var s2 := Read(HeaderId, ReadLines(Output(s.ids, m)));
            && s2.ids == s.ids
            && (forall id :: id in s.ids ==> Known(s2.sections, id) == ReadLines(Concat(Known(m, id))))
            && LONG in s2.sections && s2.sections[LONG] != [] && s2.sections[LONG][0] == IncludeLine(element)
            && Mangled(s2.sections, element, description).Some?
  {
    var s := Read(HeaderId, ReadLines(t));
    var m := Mangled(s.sections, element, description).value;
    MangledKnown(s.sections, element, description, LONG);
    forall id | id in s.ids ensures TidySection(s.ids, m, id) {
      MangledContents(t, element, description, id);
    }
    Reread(s.ids, m);
    ReadIsTidy(t, LONG);
    MangledContents(t, element, description, LONG);
    assert SHORT[0] == 'S' && LONG[0] == 'L';
  }

  lemma {:induction false} SecondContents(t: string, element: string, description: Option<string>,
                                          s2: map<string, Content>)
    requires '\n' !in element
    requires Mangled(Read(HeaderId, ReadLines(t)).sections, element, description).Some?
    requires Mangled(s2, element, description).Some?
    requires LONG in s2 && s2[LONG] != [] && s2[LONG][0] == IncludeLine(element)
    requires var s := Read(HeaderId, ReadLines(t));
             var m := Mangled(s.sections, element, description).value;
             forall id :: id in s.ids ==> Known(s2, id) == ReadLines(Concat(Known(m, id)))
    ensures var s := Read(HeaderId, ReadLines(t));
            var m, m2 := Mangled(s.sections, element, description).value, Mangled(s2, element, description).value;
            SameContents(s.ids, m, m2)
  {
    var s := Read(HeaderId, ReadLines(t));
    var m, m2 := Mangled(s.sections, element, description).value, Mangled(s2, element, description).value;
    forall id | id in s.ids ensures SameContent(m, m2, id) {
      MangledKnown(s.sections, element, description, id);
      MangledKnown(s2, element, description, id);
      ConcatOfReadLines(Concat(Known(m, id)));
    }
  }

  /** The second run on a file whose short description holds a header reads more sections than
      the first one printed. */
  lemma {:induction false} SecondRunGrows(t: string, element: string, description: Option<string>)
    requires '\n' !in element && Mangle(t, element, description).Some?
    requires description.Some? && SHORT in IdsOf(t) && HoldsHeader(description)
    ensures Mangle(Mangle(t, element, description).value, element, description) != Mangle(t, element, description)
  {
    var u := Mangle(t, element, description).value;
    var s := Read(HeaderId, ReadLines(t));
    var m := Mangled(s.sections, element, description).value;
    PrintedIds(t, element, description);
    var k :| 0 <= k < |s.ids| && s.ids[k] == SHORT;
    RereadCovers(s.ids, m, |s.ids|, k);
    assert SHORT in IdsOf(u);
    if Mangle(u, element, description) == Some(u) {
      var s2 := Read(HeaderId, ReadLines(u));
      var m2 := Mangled(s2.sections, element, description).value;
      PrintedIds(u, element, description);
      var k2 :| 0 <= k2 < |s2.ids| && s2.ids[k2] == SHORT;
      MangledContents(u, element, description, SHORT);
      HeaderIsCounted(HeaderId, ReadLines(DescriptionText(description)));
      RereadCovers(s2.ids, m2, |s2.ids|, k2);
      assert false;
    }
  }

  lemma {:induction false} PrintedIds(t: string, element: string, description: Option<string>)
    requires '\n' !in element && Mangle(t, element, description).Some?
    ensures var s := Read(HeaderId, ReadLines(t));
            var m := Mangled(s.sections, element, description).value;
            var u := Mangle(t, element, description).value;
            AllIds(s.ids) && IdsOf(u) == RereadIds(s.ids, m, |s.ids|)
  {
    var s := Read(HeaderId, ReadLines(t));
    var m := Mangled(s.sections, element, description).value;
    forall id | id in s.ids ensures IsId(id) {
      MangledContents(t, element, description, id);
    }
    IdsOfPrinted(s.ids, m, |s.ids|);
  }

  /** Running the tool twice on a file is the same as running it once, exactly unless it puts a
      description with a header line into the file. */
  lemma {:induction false} MangleTwiceIff(t: string, element: string, description: Option<string>)
    requires '\n' !in element && Mangle(t, element, description).Some?
    ensures Mangle(Mangle(t, element, description).value, element, description) == Mangle(t, element, description)
       <==> !(description.Some? && SHORT in IdsOf(t) && HoldsHeader(description))
  {
    if description.Some? && SHORT in IdsOf(t) && HoldsHeader(description) {
      SecondRunGrows(t, element, description);
    } else {
      SecondRunSame(t, element, description);
    }
  }
}
