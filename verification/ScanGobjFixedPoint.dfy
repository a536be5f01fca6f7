/** Printing what was parsed, parsing that and printing again gives the same text. */
module ScanGobjFixedPoint {
  import opened Common
  import opened Regex
  import opened OrderedDict
  import opened ScanGobj

  // ---- searching behind a line ----

  /** A body pattern starts with a tag, a word and the closing tag at the end of its line. */
  ghost predicate TagFirst(p: seq<Item>, a: string, tag: string) {
    && |p| >= 3 && p[0] == Lit(a) && p[1] == Word(0) && p[2].Lit? && tag + "\n" <= p[2].text
    && NoSpace(a) && NoSpace(tag) && |a| >= 1 && |tag| >= 3
  }

  lemma {:induction false} TagFirstStarts(p: seq<Item>, a: string, tag: string, t: string) returns (n: nat)
    requires TagFirst(p, a, tag) && Match(p, t).Some?
    ensures n < |t| && t[n] == '\n' && NoSpace(t[..n]) && |tag| <= n && t[n - |tag|..n] == tag
  {
    MatchRenders(p, t);
    var h := Match(p, t).value;
    var q, r := p[1..], p[2..];
    assert q[0] == p[1] && q[1..] == r && r[0] == p[2];
    assert Fits(q, h.caps);
    var c := h.caps[0];
    var w := p[2].text;
    assert Render(r, h.caps[1..]) == w + Render(r[1..], h.caps[1..]);
    assert Render(q, h.caps) == c + Render(r, h.caps[1..]);
    assert Render(p, h.caps) == a + (c + (w + Render(r[1..], h.caps[1..])));
    n := FirstLineOf(a, c, w, tag, Render(r[1..], h.caps[1..]), t, h.len);
  }

  lemma {:induction false} FirstLineOf(a: string, c: string, w: string, tag: string, z: string, t: string, len: nat)
    returns (n: nat)
    requires NoSpace(a) && NoSpace(c) && NoSpace(tag) && tag + "\n" <= w && len <= |t| && t[..len] == a + (c + (w + z))
    ensures n < |t| && t[n] == '\n' && NoSpace(t[..n]) && |tag| <= n && t[n - |tag|..n] == tag
  {
    var u := a + c + tag + "\n";
    assert w == tag + "\n" + w[|tag| + 1..];
    assert t[..len] == u + (w[|tag| + 1..] + z);
    n := |a| + |c| + |tag|;
    assert t[n] == t[..len][n] == u[n];
    assert t[..n] == t[..len][..n] == u[..n] == a + c + tag;
    assert t[n - |tag|..n] == t[..n][n - |tag|..] == tag;
  }

  /** If a suffix of a line, with more text behind it, starts with a word that ends in the tag
      and is followed by a line feed, then the line ends in the tag. */
  lemma {:induction false} LineEndsIn(tag: string, x: string, t: string, m: string, j: nat, n: nat)
    requires NoSpace(x) && j <= |x| && t == x[j..] + "\n" + m
    requires 3 <= |tag| <= n < |t| && t[n] == '\n' && NoSpace(t[..n]) && t[n - |tag|..n] == tag
    ensures |x| >= 3 && x[|x| - 3] == tag[|tag| - 3]
  {
    var e := |x| - j;
    assert t[e] == '\n';
    assert forall i :: 0 <= i < e ==> t[i] == x[j + i];
    assert forall i :: 0 <= i < n ==> t[i] == t[..n][i];
    assert n == e;
    assert t[n - 3] == t[n - |tag|..n][|tag| - 3];
  }

  /** It matches nowhere in front of the end of a line that ends with another tag. */
  lemma {:induction false} NotInLine(p: seq<Item>, a: string, tag: string, x: string, m: string, j: nat)
    requires TagFirst(p, a, tag) && NoSpace(x) && |x| >= 3 && x[|x| - 3] != tag[|tag| - 3]
    requires j <= |x|
    ensures Match(p, (x + "\n" + m)[j..]).None?
  {
    var t := (x + "\n" + m)[j..];
    assert t == x[j..] + "\n" + m;
    if Match(p, t).Some? {
      var n := TagFirstStarts(p, a, tag, t);
      LineEndsIn(tag, x, t, m, j, n);
      assert false;
    }
  }

  lemma {:induction false} NowhereInLine(p: seq<Item>, a: string, tag: string, x: string, m: string)
    requires TagFirst(p, a, tag) && NoSpace(x) && |x| >= 3 && x[|x| - 3] != tag[|tag| - 3]
    ensures forall j :: 0 <= j <= |x| ==> Match(p, (x + "\n" + m)[j..]).None?
  {
    forall j | 0 <= j <= |x| ensures Match(p, (x + "\n" + m)[j..]).None? {
      NotInLine(p, a, tag, x, m, j);
    }
  }

  /** So a search finds the pattern in the text behind the line, if it matches there. */
  lemma {:induction false} SearchBehindLine(p: seq<Item>, x: string, m: string)
    requires forall j :: 0 <= j <= |x| ==> Match(p, (x + "\n" + m)[j..]).None?
    requires Match(p, m).Some?
    ensures Search(p, x + "\n" + m) == Some(Found(|x| + 1, Match(p, m).value))
  {
    assert (x + "\n" + m)[|x| + 1..] == m;
    SearchTo(p, x + "\n" + m, |x| + 1);
  }

  // ---- one block ----

  lemma {:induction false} ClosedPart(pre: string, m: string, post: string, close: string)
    requires ClosedBy(pre + m + post, close)
    requires post == "" || (m != "" && m[|m| - 1] == '\n')
    requires close != "" && forall i :: 0 <= i < |close| - 1 ==> close[i] != '\n'
    ensures ClosedBy(m, close)
  {
    var b := pre + m + post;
    forall j | 0 <= j < |m| ensures !At(m + close, j, close) {
      var e := j + |close|;
      assert !At(b + close, |pre| + j, close);
      if post == "" {
        assert (b + close)[|pre| + j..|pre| + e] == (m + close)[j..e];
      } else if e <= |m| {
        assert (b + close)[|pre| + j..|pre| + e] == (m + close)[j..e];
      } else {
        assert (m + close)[j..e][|m| - 1 - j] == '\n' != close[|m| - 1 - j];
      }
    }
  }

  lemma {:induction false} ClosedBehindLine(x: string, m: string, tag: string)
    requires NoSpace(x) && NoSpace(tag) && |x| >= 3 && |tag| >= 3 && x[|x| - 3] != tag[|tag| - 3]
    requires ClosedBy(m, tag + "\n")
    ensures ClosedBy(x + "\n" + m, tag + "\n")
  {
    var close := tag + "\n";
    var s := x + "\n" + m + close;
    forall j | 0 <= j < |x| + 1 + |m| ensures !At(s, j, close) {
      if j > |x| {
        var i := j - |x| - 1;
        assert !At(m + close, i, close);
        assert i + |close| <= |m + close| ==> s[j..j + |close|] == (m + close)[i..i + |close|];
      } else if At(s, j, close) {
        var t := s[j..];
        assert t == x[j..] + "\n" + (m + close);
        assert t[..|close|] == close;
        assert t[|tag|] == close[|tag|] && t[..|tag|] == t[..|close|][..|tag|] == tag;
        LineEndsIn(tag, x, t, m + close, j, |tag|);
        assert false;
      }
    }
  }

  /** What a pattern of one line found in a block it finds again in front of a line feed. */
  lemma {:induction false} NameFoundAgain(p: seq<Item>, b: string, m: string)
    requires OneLine(p) && Search(p, b).Some?
    ensures var f := Search(p, b).value;
            Search(p, Render(p, f.hit.caps) + "\n" + m) == Some(Found(0, f.hit))
  {
    var f := Search(p, b).value;
    var t := b[f.at..];
    MatchRenders(p, t);
    MatchCut(p, t, f.hit.len);
    var x := Render(p, f.hit.caps);
    assert x + "\n" + m == x + ("\n" + m);
    OneLineStops(p, x, "\n" + m);
    assert (x + "\n" + m)[0..] == x + "\n" + m;
    SearchTo(p, x + "\n" + m, 0);
  }

  /** What a body pattern found in a block it finds again behind another line. */
  lemma {:induction false} BodyFoundAgain(p: seq<Item>, a: string, tag: string, b: string, x: string)
    requires TagFirst(p, a, tag) && NoSpace(x) && |x| >= 3 && x[|x| - 3] != tag[|tag| - 3]
    requires Search(p, b).Some?
    ensures var f := Search(p, b).value;
            Search(p, x + "\n" + Render(p, f.hit.caps)) == Some(Found(|x| + 1, f.hit))
  {
    var f := Search(p, b).value;
    var t := b[f.at..];
    MatchRenders(p, t);
    MatchCut(p, t, f.hit.len);
    NowhereInLine(p, a, tag, x, Render(p, f.hit.caps));
    SearchBehindLine(p, x, Render(p, f.hit.caps));
  }

  lemma {:induction false} BodyClosed(p: seq<Item>, close: string, b: string)
    requires ClosedBy(b, close) && Search(p, b).Some?
    requires var f := Search(p, b).value;
             f.at + f.hit.len == |b| || (f.hit.len > 0 && b[f.at + f.hit.len - 1] == '\n')
    requires close != "" && forall i :: 0 <= i < |close| - 1 ==> close[i] != '\n'
    ensures ClosedBy(Render(p, Search(p, b).value.hit.caps), close)
  {
    var f := Search(p, b).value;
    MatchRenders(p, b[f.at..]);
    ClosedCut(b, f.at, f.hit.len, close);
  }

  lemma {:induction false} ClosedCut(b: string, at: nat, len: nat, close: string)
    requires at + len <= |b| && ClosedBy(b, close)
    requires at + len == |b| || (len > 0 && b[at + len - 1] == '\n')
    requires close != "" && forall i :: 0 <= i < |close| - 1 ==> close[i] != '\n'
    ensures ClosedBy(b[at..][..len], close)
  {
    var t := b[at..];
    var m := t[..len];
    assert b == b[..at] + m + t[len..];
    assert len > 0 ==> m[|m| - 1] == b[at + len - 1];
    ClosedPart(b[..at], m, t[len..], close);
  }

  // ---- what the two grammars have in common ----

  /** What separates the three kinds of line of a block: the character two places before the
      last one of their closing tags. A name line ends in `</NAME>`. */
  ghost predicate NameLine(x: string) {
    NoSpace(x) && |x| >= 3 && x[|x| - 3] == 'M'
  }

  ghost predicate OtherTag(tag: string) {
    NoSpace(tag) && |tag| >= 3 && tag[|tag| - 3] != 'M'
  }

  ghost predicate Shape(g: Grammar, a: string, tag: string, close: string) {
    && g.open != "" && g.open[0] != '\n'
    && g.close == close + "\n" && OtherTag(close)
    && OneLine(g.name)
    && TagFirst(g.body, a, tag) && OtherTag(tag)
    && LineFeedOrAll(g.body[|g.body| - 1])
    && SameSkeleton(g.format, [Lit(g.open)] + (g.name + ([Lit("\n")] + (g.body + [Lit(g.close)]))))
  }

  /** The last item of a body pattern: it ends every match with a line feed or takes everything. */
  ghost predicate LineFeedOrAll(i: Item) {
    i.Greedy? || (i.Lit? && i.text != "" && i.text[|i.text| - 1] == '\n')
  }

  lemma ShapeOfSignals()
    ensures Shape(Signals(), "<RETURNS>", "</RETURNS>", "</SIGNAL>")
  {
  }

  lemma ArgsSkeleton()
    ensures var g := Args();
            SameSkeleton(g.format, [Lit(g.open)] + (g.name + ([Lit("\n")] + (g.body + [Lit(g.close)]))))
  {
  }

  lemma ShapeOfArgs()
    ensures Shape(Args(), "<TYPE>", "</TYPE>", "</ARG>")
  {
    ArgsSkeleton();
  }

  lemma {:induction false} NameRenders(caps: seq<string>)
    requires Fits(NamePattern(), caps)
    ensures |caps| == 2 && NameLine(Render(NamePattern(), caps))
    ensures Render(NamePattern(), caps) == "<NAME>" + caps[0] + "::" + caps[1] + "</NAME>"
  {
    var p := NamePattern();
    var p1, p2, p3, p4, p5 := p[1..], p[2..], p[3..], p[4..], p[5..];
    assert p1[1..] == p2 && p2[1..] == p3 && p3[1..] == p4 && p4[1..] == p5;
    assert Fits(p1, caps) && Fits(p2, caps[1..]) && Fits(p3, caps[1..]) && Fits(p4, caps[1..][1..]);
    assert Fits(p5, caps[1..][1..]);
    assert Render(p5, caps[1..][1..]) == "";
    assert Render(p4, caps[1..][1..]) == "</NAME>";
    assert Render(p3, caps[1..]) == caps[1] + "</NAME>";
    assert Render(p2, caps[1..]) == "::" + (caps[1] + "</NAME>");
    assert Render(p1, caps) == caps[0] + ("::" + (caps[1] + "</NAME>"));
    var head, mid, tail := "<NAME>", "::", "</NAME>";
    assert NoSpace(head) && NoSpace(mid) && NoSpace(tail);
    assert Render(p, caps) == head + caps[0] + mid + caps[1] + tail;
  }

  /** An object and an entry name are told apart at the last "::" of the name line. */
  lemma {:induction false} NameSplitsAtLast(t: string, j: nat)
    requires Match(NamePattern(), t).Some?
    ensures |Match(NamePattern(), t).value.caps| == 2
    ensures var c := Match(NamePattern(), t).value.caps;
            "<NAME>" + c[0] + "::" + c[1] + "</NAME>" <= t && (j < |c[1]| + 1 ==> !At(":" + c[1], j, "::"))
  {
    var head, mid, tail := "<NAME>", "::", "</NAME>";
    assert NoSpace(mid) && NoSpace(tail) && mid == ":" + ":";
    NameMatch(head, mid, tail, t);
    var c := Match(NamePattern(), t).value.caps;
    assert head + (c[0] + mid + c[1] + tail) == head + c[0] + mid + c[1] + tail;
    var y := ":" + c[1];
    if At(y, j, mid) {
      var x := c[0] + mid + c[1];
      assert x == c[0] + ":" + y;
      assert x[|c[0]| + 1 + j..|c[0]| + 1 + j + |mid|] == y[j..j + |mid|];
      SplitsAtLast(mid, tail, t[|head|..], |c[0]| + 1 + j);
    }
  }

  lemma {:induction false} NameMatch(head: string, mid: string, tail: string, t: string)
    requires Match([Lit(head), Word(0), Lit(mid), Word(0), Lit(tail)], t).Some?
    ensures var p := [Lit(head), Word(0), Lit(mid), Word(0), Lit(tail)];
            && head <= t && Match([Word(0), Lit(mid), Word(0), Lit(tail)], t[|head|..]).Some?
            && Match(p, t).value.caps == Match([Word(0), Lit(mid), Word(0), Lit(tail)], t[|head|..]).value.caps
            && |Match(p, t).value.caps| == 2
            && var c := Match(p, t).value.caps; head + (c[0] + mid + c[1] + tail) <= t
  {
    var p := [Lit(head), Word(0), Lit(mid), Word(0), Lit(tail)];
    assert p[1..] == [Word(0), Lit(mid), Word(0), Lit(tail)];
    TwoWords(mid, tail, t[|head|..]);
  }

  // ---- the block an entry is printed as ----

  /** The text between the opening and the closing tag of a printed block. */
  function Inner(g: Grammar, l: Line): string {
    Render(g.name, [l.obj, l.name]) + "\n" + Render(g.body, l.fields)
  }

  /** The block prints as its inner text between the two tags, and the closing tag behind the
      inner text is the first one. */
  ghost predicate Printable(g: Grammar, l: Line) {
    Format(g, l) == g.open + Inner(g, l) + g.close && ClosedBy(Inner(g, l), g.close)
  }

  /** The inner text parses back to the entry it was printed from. */
  ghost predicate Readable(g: Grammar, l: Line) {
    Classify(g, Inner(g, l)) == Entry(l.obj, l.name, l.fields)
  }

  lemma {:induction false} BodyEnds(p: seq<Item>, t: string)
    requires p != [] && LineFeedOrAll(p[|p| - 1]) && Match(p, t).Some?
    ensures var n := Match(p, t).value.len; n == |t| || (n > 0 && t[n - 1] == '\n')
  {
    var h := Match(p, t).value;
    if p[|p| - 1].Greedy? {
      GreedyTakesAll(p, t);
    } else {
      MatchRenders(p, t);
      LiteralEnds(p, h.caps);
      var w := p[|p| - 1].text;
      assert t[..h.len][h.len - |w|..] == w;
      assert t[h.len - 1] == w[|w| - 1];
    }
  }

  lemma {:induction false} ClassifiedAgain(g: Grammar, a: string, tag: string, close: string, b: string,
                                           x: string, m: string)
    requires Shape(g, a, tag, close)
    requires Classify(g, b).Entry?
    requires x == Render(g.name, Search(g.name, b).value.hit.caps) && NameLine(x)
    requires m == Render(g.body, Search(g.body, b).value.hit.caps)
    ensures Classify(g, x + "\n" + m) == Classify(g, b)
  {
    NameFoundAgain(g.name, b, m);
    BodyFoundAgain(g.body, a, tag, b, x);
  }

  lemma {:induction false} ClosedAgain(g: Grammar, a: string, tag: string, close: string, b: string,
                                       x: string, m: string)
    requires Shape(g, a, tag, close)
    requires ClosedBy(b, g.close) && Search(g.body, b).Some? && NameLine(x)
    requires m == Render(g.body, Search(g.body, b).value.hit.caps)
    ensures ClosedBy(x + "\n" + m, g.close)
  {
    BodyEnds(g.body, b[Search(g.body, b).value.at..]);
    BodyClosed(g.body, g.close, b);
    ClosedBehindLine(x, m, close);
  }

  /** The format string prints the opening tag, the inner text and the closing tag. */
  lemma {:induction false} FormatIsWrapped(g: Grammar, a: string, tag: string, close: string, l: Line)
    requires Shape(g, a, tag, close) && Fits(g.name, [l.obj, l.name]) && Fits(g.body, l.fields)
    ensures Format(g, l) == g.open + Inner(g, l) + g.close
  {
    var c, f := [l.obj, l.name], l.fields;
    var p4 := [Lit(g.close)];
    var p3, p2 := g.body + p4, [Lit("\n")] + (g.body + p4);
    var p1 := g.name + p2;
    SkeletonRenders(g.format, [Lit(g.open)] + p1, c + f);
    RenderAppend([Lit(g.open)], p1, [], c + f);
    assert [] + (c + f) == c + f;
    RenderAppend(g.name, p2, c, f);
    RenderAppend([Lit("\n")], p3, [], f);
    assert [] + f == f;
    RenderAppend(g.body, p4, f, []);
    assert f + [] == f;
    RenderOne(g.open);
    RenderOne("\n");
    RenderOne(g.close);
  }

  lemma {:induction false} RenderOne(w: string)
    ensures Render([Lit(w)], []) == w && Fits([Lit(w)], [])
  {
    assert [Lit(w)][1..] == [];
    assert w + "" == w;
  }

  /** Every block that is loaded into an entry prints as a block that loads into that entry. */
  lemma {:induction false} LoadedIsGood(g: Grammar, a: string, tag: string, close: string, b: string, l: Line)
    requires Shape(g, a, tag, close) && g.name == NamePattern()
    requires ClosedBy(b, g.close) && Classify(g, b) == Entry(l.obj, l.name, l.fields)
    ensures Printable(g, l) && Readable(g, l)
  {
    var name, body := Search(g.name, b).value, Search(g.body, b).value;
    MatchRenders(g.name, b[name.at..]);
    MatchRenders(g.body, b[body.at..]);
    NameRenders(name.hit.caps);
    assert name.hit.caps == [l.obj, l.name];
    var x, m := Render(g.name, name.hit.caps), Render(g.body, l.fields);
    ClassifiedAgain(g, a, tag, close, b, x, m);
    ClosedAgain(g, a, tag, close, b, x, m);
    FormatIsWrapped(g, a, tag, close, l);
  }
}
