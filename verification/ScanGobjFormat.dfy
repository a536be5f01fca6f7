/** The two file formats of the merge tool, written out: what such a file loads into. */
module ScanGobjFormat {
  import opened Common
  import opened Regex
  import opened OrderedDict
  import opened ScanGobj
  import opened ScanGobjFixedPoint
  import opened ScanGobjReload
  import opened ScanGobjMerge

  // ---- the formats ----

  function NameText(o: string, n: string): string {
    "<NAME>" + o + "::" + n + "</NAME>"
  }

  /** What follows the name line of a signal and of an argument. */
  function SignalBody(returns_: string, args: string): string {
    "<RETURNS>" + returns_ + "</RETURNS>\n" + args
  }

  function ArgBody(type_: string, range: string, flags: string, nick: string, blurb: string, default_: string): string {
    "<TYPE>" + type_ + "</TYPE>\n<RANGE>" + range + "</RANGE>\n<FLAGS>" + flags + "</FLAGS>\n<NICK>" + nick
    + "</NICK>\n<BLURB>" + blurb + "</BLURB>\n<DEFAULT>" + default_ + "</DEFAULT>\n"
  }

  function SignalText(o: string, n: string, returns_: string, args: string): string {
    "<SIGNAL>\n" + (NameText(o, n) + "\n" + SignalBody(returns_, args)) + "</SIGNAL>\n"
  }

  function ArgText(o: string, n: string, type_: string, range: string, flags: string, nick: string, blurb: string,
                   default_: string): string {
    "<ARG>\n" + (NameText(o, n) + "\n" + ArgBody(type_, range, flags, nick, blurb, default_)) + "</ARG>\n"
  }

  // ---- what can stand in them ----

  /** No white space, and no "::" at which the name line would be split further to the right. */
  ghost predicate IsName(o: string, n: string) {
    NoSpace(o) && NoSpace(n) && forall j :: 0 <= j <= |n| ==> !At(":" + n, j, "::")
  }

  ghost predicate IsSignal(o: string, n: string, returns_: string, args: string) {
    IsName(o, n) && NoSpace(returns_) && ClosedBy(SignalBody(returns_, args), "</SIGNAL>\n")
  }

  /** A type and flags are words; every other field ends at the first place of the two tags behind it. */
  ghost predicate IsArg(o: string, n: string, type_: string, range: string, flags: string, nick: string, blurb: string,
                        default_: string) {
    && IsName(o, n) && NoSpace(type_) && NoSpace(flags)
    && ClosedBy(range, "</RANGE>\n<FLAGS>") && ClosedBy(nick, "</NICK>\n<BLURB>")
    && ClosedBy(blurb, "</BLURB>\n<DEFAULT>") && ClosedBy(default_, "</DEFAULT>\n")
    && ClosedBy(ArgBody(type_, range, flags, nick, blurb, default_), "</ARG>\n")
  }

  // ---- the name line ----

  /** Behind the object name the "::" stands nowhere but between the names. */
  lemma {:induction false} NoColonsBehind(o: string, n: string, z: string, j: nat)
    requires z != "" && z[0] != ':' && (forall i :: 0 <= i < |z| - 1 ==> z[i] != ':' || z[i + 1] != ':')
    requires forall i :: 0 <= i <= |n| ==> !At(":" + n, i, "::")
    requires |o| < j <= |o + "::" + n + z|
    ensures !At(o + "::" + n + z, j, "::")
  {
    var t, y := o + "::" + n + z, ":" + n;
    var i := j - |o| - 1;
    assert t == o + ":" + y + z;
    if j + 2 <= |t| {
      if i + 2 <= |y| {
        assert !At(y, i, "::");
        assert y[i..i + 2] == t[j..j + 2];
      } else if i < |y| {
        assert t[j + 1] == z[0];
      } else {
        assert t[j] == z[i - |y|] && t[j + 1] == z[i - |y| + 1];
      }
      assert t[j..j + 2][0] == t[j] && t[j..j + 2][1] == t[j + 1];
    }
  }

  lemma {:induction false} NameReads(o: string, n: string, m: string)
    requires IsName(o, n)
    ensures var x := NameText(o, n);
            Search(NamePattern(), x + "\n" + m) == Some(Found(0, Hit([o, n], |x|)))
  {
    var x := NameText(o, n);
    NameMatches(o, n, "</NAME>");
    LineReads(NamePattern(), x, m);
  }

  lemma {:induction false} NameMatches(o: string, n: string, tail: string)
    requires IsName(o, n) && tail == "</NAME>"
    ensures OneLine(NamePattern()) && Match(NamePattern(), NameText(o, n)) == Some(Hit([o, n], |NameText(o, n)|))
  {
    var head, mid := "<NAME>", "::";
    var v := o + mid + n + tail;
    assert NoSpace(head) && NoSpace(mid) && NoSpace(tail);
    forall j | |o| < j <= |v| ensures !At(v, j, mid) {
      NoColonsBehind(o, n, tail, j);
    }
    WordsRead(mid, tail, o, n);
    var p := [Lit(head), Word(0), Lit(mid), Word(0), Lit(tail)];
    assert p == NamePattern() && p[1..] == [Word(0), Lit(mid), Word(0), Lit(tail)];
    LitReads(p, v, Hit([o, n], |v|));
    assert head + v == NameText(o, n);
  }

  /** A line that is matched as a whole is found at the start of a text. */
  lemma {:induction false} LineReads(p: seq<Item>, x: string, m: string)
    requires OneLine(p) && Match(p, x).Some?
    ensures Search(p, x + "\n" + m) == Some(Found(0, Match(p, x).value))
  {
    var t := x + "\n" + m;
    assert t == x + ("\n" + m) && t[0..] == t;
    OneLineStops(p, x, "\n" + m);
    SearchTo(p, t, 0);
  }

  // ---- the bodies ----

  /** The pattern of a signal with its two literals, and its captures. */
  lemma {:induction false} SignalCut(w0: string, w1: string, r: string, a: string)
    requires NoSpace(r) && HasSpace(w1)
    ensures var p := [Lit(w0), Word(0), Lit(w1), Greedy];
            WellCut(p, [r, a]) && Render(p, [r, a]) == w0 + r + w1 + a
  {
    var p := [Lit(w0), Word(0), Lit(w1), Greedy];
    var p1, p2, p3 := p[1..], p[2..], p[3..];
    assert p1[1..] == p2 && p2[1..] == p3 && p3[1..] == [];
    assert [r, a][1..] == [a] && [a][1..] == [];
    assert WellCut(p3, [a]) && Render(p3, [a]) == a + "";
    assert WellCut(p2, [a]) && Render(p2, [a]) == w1 + (a + "");
    assert WellCut(p1, [r, a]) && Render(p1, [r, a]) == r + (w1 + (a + ""));
  }

  /** A field between two literals, and what is known from the second one on. */
  lemma {:induction false} FieldCut(p: seq<Item>, c: seq<string>, i: nat, k: nat, text: string)
    requires i + 2 < |p| && k < |c| && p[i].Lit? && p[i + 2].Lit?
    requires (p[i + 1].Lazy? && ClosedBy(c[k], p[i + 2].text))
          || (p[i + 1] == Word(0) && NoSpace(c[k]) && HasSpace(p[i + 2].text))
    requires WellCut(p[i + 2..], c[k + 1..]) && Render(p[i + 2..], c[k + 1..]) == text
    ensures WellCut(p[i..], c[k..]) && Render(p[i..], c[k..]) == p[i].text + (c[k] + text)
  {
    var q, d := p[i..], c[k..];
    assert q[1..] == p[i + 1..] && q[1..][1..] == p[i + 2..] && d[1..] == c[k + 1..];
    assert p[i + 1..][1] == p[i + 2];
    assert WellCut(p[i + 1..], d) && Render(p[i + 1..], d) == c[k] + text;
  }

  /** Field k of a pattern that alternates between literals and groups. */
  ghost predicate FieldAt(p: seq<Item>, w: seq<string>, c: seq<string>, k: nat)
    requires |p| == 13 && |w| == 7 && |c| == 6 && k < 6
  {
    && p[2 * k] == Lit(w[k]) && p[2 * k + 2] == Lit(w[k + 1])
    && ((p[2 * k + 1].Lazy? && ClosedBy(c[k], w[k + 1]))
        || (p[2 * k + 1] == Word(0) && NoSpace(c[k]) && HasSpace(w[k + 1])))
  }

  /** The text from literal k on. */
  function TextFrom(w: seq<string>, c: seq<string>, k: nat): string
    requires |w| == 7 && |c| == 6 && k <= 6
    decreases 6 - k
  {
    if k == 6 then w[6] else w[k] + (c[k] + TextFrom(w, c, k + 1))
  }

  lemma {:induction false} CutFrom(p: seq<Item>, w: seq<string>, c: seq<string>, k: nat)
    requires |p| == 13 && |w| == 7 && |c| == 6 && k <= 6 && forall i :: 0 <= i < 6 ==> FieldAt(p, w, c, i)
    ensures WellCut(p[2 * k..], c[k..]) && Render(p[2 * k..], c[k..]) == TextFrom(w, c, k)
    decreases 6 - k
  {
    if k == 6 {
      assert FieldAt(p, w, c, 5);
      LastCut(p, c);
      assert w[6] + "" == w[6];
    } else {
      assert FieldAt(p, w, c, k);
      CutFrom(p, w, c, k + 1);
      FieldCut(p, c, 2 * k, k, TextFrom(w, c, k + 1));
    }
  }

  lemma {:induction false} LastCut(p: seq<Item>, c: seq<string>)
    requires |p| == 13 && |c| == 6 && p[12].Lit?
    ensures WellCut(p[12..], c[6..]) && Render(p[12..], c[6..]) == p[12].text + ""
  {
    assert p[12..] == [p[12]] && p[12..][1..] == [] && c[6..] == [];
  }

  lemma {:induction false} TextIs(w: seq<string>, c: seq<string>)
    requires |w| == 7 && |c| == 6
    ensures TextFrom(w, c, 0) == w[0] + c[0] + w[1] + c[1] + w[2] + c[2] + w[3] + c[3]
                                 + w[4] + c[4] + w[5] + c[5] + w[6]
  {
    var l1 := w[0] + c[0];
    var l2 := l1 + w[1] + c[1];
    var l3 := l2 + w[2] + c[2];
    var l4 := l3 + w[3] + c[3];
    var l5 := l4 + w[4] + c[4];
    assert w[0] + (c[0] + TextFrom(w, c, 1)) == l1 + TextFrom(w, c, 1);
    OneField(l1, w[1], c[1], TextFrom(w, c, 2));
    OneField(l2, w[2], c[2], TextFrom(w, c, 3));
    OneField(l3, w[3], c[3], TextFrom(w, c, 4));
    OneField(l4, w[4], c[4], TextFrom(w, c, 5));
    OneField(l5, w[5], c[5], TextFrom(w, c, 6));
  }

  lemma OneField(l: string, w: string, c: string, t: string)
    ensures l + (w + (c + t)) == l + w + c + t
  {
  }

  // ---- one entry ----

  /** An entry whose body text is closed and reads as its fields. */
  lemma {:induction false} EntryReads(g: Grammar, a: string, tag: string, close: string, l: Line, m: string)
    requires Shape(g, a, tag, close) && g.name == NamePattern() && tag[|tag| - 3] != 'M'
    requires IsName(l.obj, l.name) && WellCut(g.body, l.fields) && Render(g.body, l.fields) == m && ClosedBy(m, g.close)
    ensures Printable(g, l) && Readable(g, l)
    ensures Format(g, l) == g.open + (NameText(l.obj, l.name) + "\n" + m) + g.close
  {
    var x, c := NameText(l.obj, l.name), [l.obj, l.name];
    NameReads(l.obj, l.name, m);
    NameFits(l.obj, l.name);
    NameRenders(c);
    assert Inner(g, l) == x + "\n" + m;
    WellCutReads(g.body, l.fields, "");
    assert m + "" == m;
    NowhereInLine(g.body, a, tag, x, m);
    SearchBehindLine(g.body, x, m);
    WellCutFits(g.body, l.fields);
    FormatIsWrapped(g, a, tag, close, l);
    ClosedBehindLine(x, m, close);
  }

  lemma {:induction false} NameFits(o: string, n: string)
    requires NoSpace(o) && NoSpace(n)
    ensures Fits(NamePattern(), [o, n])
  {
    WordsFit("<NAME>", "::", "</NAME>", o, n);
  }

  lemma {:induction false} WordsFit(h: string, m: string, z: string, o: string, n: string)
    requires NoSpace(o) && NoSpace(n)
    ensures Fits([Lit(h), Word(0), Lit(m), Word(0), Lit(z)], [o, n])
  {
    var p, c := [Lit(h), Word(0), Lit(m), Word(0), Lit(z)], [o, n];
    var p1, p2, p3, p4, p5, c1, c2 := p[1..], p[2..], p[3..], p[4..], p[5..], c[1..], c[2..];
    assert p1[1..] == p2 && p2[1..] == p3 && p3[1..] == p4 && p4[1..] == p5 && p5 == [];
    assert c1[1..] == c2 && c2 == [];
    assert Fits(p5, c2);
    assert Fits(p4, c2);
    assert Fits(p3, c1);
    assert Fits(p2, c1);
    assert Fits(p1, c);
  }

  lemma {:induction false} SignalIsGood(o: string, n: string, r: string, a: string)
    requires IsSignal(o, n, r, a)
    ensures var l := Line(o, n, [r, a]);
            Printable(Signals(), l) && Readable(Signals(), l) && Format(Signals(), l) == SignalText(o, n, r, a)
  {
    var w0, w1 := "<RETURNS>", "</RETURNS>\n";
    assert w1[10] == '\n';
    SpaceAt(w1, 10);
    SignalCut(w0, w1, r, a);
    ShapeOfSignals();
    assert Signals().body == [Lit(w0), Word(0), Lit(w1), Greedy];
    EntryReads(Signals(), "<RETURNS>", "</RETURNS>", "</SIGNAL>", Line(o, n, [r, a]), SignalBody(r, a));
  }

  /** The literals of the body of an argument. */
  function ArgTags(): seq<string> {
    ["<TYPE>", "</TYPE>\n<RANGE>", "</RANGE>\n<FLAGS>", "</FLAGS>\n<NICK>", "</NICK>\n<BLURB>",
     "</BLURB>\n<DEFAULT>", "</DEFAULT>\n"]
  }

  lemma {:induction false} TagsHaveSpaces()
    ensures HasSpace(ArgTags()[1]) && HasSpace(ArgTags()[3])
  {
    var a, b := "</TYPE>\n<RANGE>", "</FLAGS>\n<NICK>";
    assert a[7] == '\n' && b[8] == '\n';
    SpaceAt(a, 7);
    SpaceAt(b, 8);
  }

  /** The body pattern is made of these literals, two words and four lazy groups. */
  ghost predicate IsArgPattern(p: seq<Item>, w: seq<string>) {
    && |p| == 13 && |w| == 7
    && p == [Lit(w[0]), Word(0), Lit(w[1]), Lazy, Lit(w[2]), Word(0), Lit(w[3]), Lazy, Lit(w[4]), Lazy, Lit(w[5]),
             Lazy, Lit(w[6])]
  }

  lemma {:induction false} BodyOfArgs()
    ensures IsArgPattern(Args().body, ArgTags())
  {
  }

  lemma {:induction false} ArgCut(p: seq<Item>, w: seq<string>, c: seq<string>)
    requires IsArgPattern(p, w) && |c| == 6 && NoSpace(c[0]) && NoSpace(c[2]) && HasSpace(w[1]) && HasSpace(w[3])
    requires ClosedBy(c[1], w[2]) && ClosedBy(c[3], w[4]) && ClosedBy(c[4], w[5]) && ClosedBy(c[5], w[6])
    ensures WellCut(p, c) && Render(p, c) == TextFrom(w, c, 0)
  {
    assert FieldAt(p, w, c, 0) && FieldAt(p, w, c, 1) && FieldAt(p, w, c, 2);
    assert FieldAt(p, w, c, 3) && FieldAt(p, w, c, 4) && FieldAt(p, w, c, 5);
    CutFrom(p, w, c, 0);
    assert p[0..] == p && c[0..] == c;
  }

  lemma {:induction false} ArgBodyCut(t: string, r: string, f: string, k: string, b: string, d: string)
    requires NoSpace(t) && NoSpace(f)
    requires ClosedBy(r, "</RANGE>\n<FLAGS>") && ClosedBy(k, "</NICK>\n<BLURB>")
    requires ClosedBy(b, "</BLURB>\n<DEFAULT>") && ClosedBy(d, "</DEFAULT>\n")
    ensures WellCut(Args().body, [t, r, f, k, b, d])
    ensures Render(Args().body, [t, r, f, k, b, d]) == ArgBody(t, r, f, k, b, d)
  {
    BodyOfArgs();
    TagsHaveSpaces();
    ArgCut(Args().body, ArgTags(), [t, r, f, k, b, d]);
    TextIs(ArgTags(), [t, r, f, k, b, d]);
  }

  lemma {:induction false} ArgIsGood(o: string, n: string, t: string, r: string, f: string, k: string, b: string,
                                     d: string)
    requires IsArg(o, n, t, r, f, k, b, d)
    ensures var l := Line(o, n, [t, r, f, k, b, d]);
            Printable(Args(), l) && Readable(Args(), l) && Format(Args(), l) == ArgText(o, n, t, r, f, k, b, d)
  {
    ArgBodyCut(t, r, f, k, b, d);
    ShapeOfArgs();
    EntryReads(Args(), "<TYPE>", "</TYPE>", "</ARG>", Line(o, n, [t, r, f, k, b, d]), ArgBody(t, r, f, k, b, d));
  }

  // ---- blocks that are no entries ----

  lemma {:induction false} NotFound(p: seq<Item>, t: string)
    requires forall j :: 0 <= j <= |t| ==> Match(p, t[j..]).None?
    ensures Search(p, t).None?
  {
  }

  /** A pattern that starts with a tag is not found in a text without one. */
  lemma {:induction false} NoTagNoMatch(p: seq<Item>, m: string, j: nat)
    requires p != [] && p[0].Lit? && p[0].text != "" && p[0].text[0] == '<' && '<' !in m && j <= |m|
    ensures Match(p, m[j..]).None?
  {
    if j < |m| {
      assert m[j..][0] == m[j] && m[j] in m;
    }
  }

  /** A block with a name line and no field makes its object known, at the end of the objects if it is new,
      and leaves all entries. */
  lemma {:induction false} NamedOnly(g: Grammar, db: Db, o: string, n: string, m: string)
    requires IsFormat(g) && IsName(o, n) && '<' !in m && ClosedBy(NameText(o, n) + "\n" + m, g.close)
    ensures Load(g, db, g.open + (NameText(o, n) + "\n" + m) + g.close)
         == if o in db.vals then db else db.Put(o, Empty())
  {
    var x, b := NameText(o, n), NameText(o, n) + "\n" + m;
    NameReads(o, n, m);
    NameFits(o, n);
    NameRenders([o, n]);
    ShapeOfSignals();
    ShapeOfArgs();
    if g == Signals() {
      NoFields(g.body, "<RETURNS>", "</RETURNS>", x, m);
    } else {
      NoFields(g.body, "<TYPE>", "</TYPE>", x, m);
    }
    assert Classify(g, b) == Touch(o);
    OneBlockLoads(g, db, b);
  }

  lemma {:induction false} NoFields(p: seq<Item>, a: string, tag: string, x: string, m: string)
    requires TagFirst(p, a, tag) && a[0] == '<' && NameLine(x) && tag[|tag| - 3] != 'M' && '<' !in m
    ensures Search(p, x + "\n" + m).None?
  {
    var t := x + "\n" + m;
    NowhereInLine(p, a, tag, x, m);
    forall j | 0 <= j <= |t| ensures Match(p, t[j..]).None? {
      if j > |x| {
        assert t[j..] == m[j - |x| - 1..];
        NoTagNoMatch(p, m, j - |x| - 1);
      }
    }
    NotFound(p, t);
  }

  /** A block without any tag in it changes nothing. */
  lemma {:induction false} NamelessBlock(g: Grammar, db: Db, m: string)
    requires IsFormat(g) && '<' !in m
    ensures Load(g, db, g.open + m + g.close) == db
  {
    var p := NamePattern();
    forall j | 0 <= j <= |m| ensures Match(p, m[j..]).None? {
      NoTagNoMatch(p, m, j);
    }
    NotFound(p, m);
    assert Classify(g, m) == Skip;
    forall j | 0 <= j < |m| ensures !At(m + g.close, j, g.close) {
      assert (m + g.close)[j] == m[j] && m[j] in m;
      assert j + |g.close| <= |m + g.close| ==> (m + g.close)[j..j + |g.close|][0] == m[j];
    }
    OneBlockLoads(g, db, m);
  }

  lemma {:induction false} OneBlockLoads(g: Grammar, db: Db, b: string)
    requires IsFormat(g) && ClosedBy(b, g.close)
    ensures Load(g, db, g.open + b + g.close) == Apply(db, Classify(g, b))
  {
    var t := g.open + b + g.close;
    assert t + "" == t;
    FindBlock(g, b, "");
    FindNothing(g);
    assert FindAll(BlockPattern(g), t) == [b];
    OneApply(g, db, b);
  }

  lemma {:induction false} OneApply(g: Grammar, db: Db, b: string)
    ensures ApplyAll(g, db, [b]) == Apply(db, Classify(g, b))
  {
    assert [b][..0] == [];
    assert ApplyAll(g, db, []) == db;
  }

  // ---- files ----

  /** Blocks with gaps between them that hold no tag: blank lines, or nothing. */
  function FileOf(blocks: seq<string>, gaps: seq<string>): string
    requires |gaps| == |blocks| + 1
  {
    gaps[0] + if blocks == [] then "" else blocks[0] + FileOf(blocks[1..], gaps[1..])
  }

  ghost predicate AreGaps(gaps: seq<string>) {
    forall i :: 0 <= i < |gaps| ==> '<' !in gaps[i]
  }

  lemma {:induction false} FindSkipsGap(g: Grammar, gap: string, t: string)
    requires g.open != "" && g.open[0] == '<' && '<' !in gap
    ensures FindAll(BlockPattern(g), gap + t) == FindAll(BlockPattern(g), t)
  {
    if gap == "" {
      assert gap + t == t;
    } else {
      var s := gap + t;
      assert s[0] == gap[0] != '<' && s[1..] == gap[1..] + t;
      assert !(g.open <= s);
      FindSkipsOne(BlockPattern(g), s);
      FindSkipsGap(g, gap[1..], t);
    }
  }

  lemma {:induction false} TailsOf(g: Grammar, ls: seq<Line>)
    requires ls != []
    ensures Formats(g, ls)[1..] == Formats(g, ls[1..]) && Inners(g, ls) == [Inner(g, ls[0])] + Inners(g, ls[1..])
    ensures Formats(g, ls)[0] == Format(g, ls[0])
  {
  }

  lemma {:induction false} FindInFile(g: Grammar, ls: seq<Line>, gaps: seq<string>)
    requires g.open != "" && g.open[0] == '<' && AllPrintable(g, ls) && |gaps| == |ls| + 1 && AreGaps(gaps)
    ensures FindAll(BlockPattern(g), FileOf(Formats(g, ls), gaps)) == Inners(g, ls)
  {
    if ls == [] {
      FindSkipsGap(g, gaps[0], "");
      FindNothing(g);
    } else {
      var rest := FileOf(Formats(g, ls[1..]), gaps[1..]);
      FindInFile(g, ls[1..], gaps[1..]);
      TailsOf(g, ls);
      assert Printable(g, ls[0]);
      FindBehindGap(g, gaps[0], Inner(g, ls[0]), rest);
    }
  }

  lemma {:induction false} FindBehindGap(g: Grammar, gap: string, b: string, rest: string)
    requires g.open != "" && g.open[0] == '<' && '<' !in gap && ClosedBy(b, g.close)
    ensures FindAll(BlockPattern(g), gap + (g.open + b + g.close + rest)) == [b] + FindAll(BlockPattern(g), rest)
  {
    FindSkipsGap(g, gap, g.open + b + g.close + rest);
    FindBlock(g, b, rest);
  }

  /** A file of blocks in the tool's format loads into exactly their entries, in their order, however the
      blocks are set apart. */
  lemma {:induction false} FileLoads(g: Grammar, db: Db, ls: seq<Line>, gaps: seq<string>)
    requires IsFormat(g) && AllPrintable(g, ls) && AllReadable(g, ls) && |gaps| == |ls| + 1 && AreGaps(gaps)
    ensures Load(g, db, FileOf(Formats(g, ls), gaps)) == ApplyLines(db, ls)
  {
    FindInFile(g, ls, gaps);
    ApplyInners(g, db, ls);
  }

  /** The text of a signal, as it is written out above. */
  ghost predicate IsSignalLine(l: Line) {
    |l.fields| == 2 && IsSignal(l.obj, l.name, l.fields[0], l.fields[1])
  }

  function SignalLine(l: Line): string {
    if |l.fields| == 2 then SignalText(l.obj, l.name, l.fields[0], l.fields[1]) else ""
  }

  ghost predicate IsArgLine(l: Line) {
    && |l.fields| == 6
    && IsArg(l.obj, l.name, l.fields[0], l.fields[1], l.fields[2], l.fields[3], l.fields[4], l.fields[5])
  }

  function ArgLine(l: Line): string {
    if |l.fields| == 6
    then ArgText(l.obj, l.name, l.fields[0], l.fields[1], l.fields[2], l.fields[3], l.fields[4], l.fields[5])
    else ""
  }

  function Texts(ls: seq<Line>, text: Line -> string): (r: seq<string>)
    ensures |r| == |ls| && forall i :: 0 <= i < |ls| ==> r[i] == text(ls[i])
  {
    seq(|ls|, i requires 0 <= i < |ls| => text(ls[i]))
  }

  /** Whatever has been loaded before: a file of signals sets exactly these entries with these fields. */
  lemma {:induction false} SignalsLoad(db: Db, ls: seq<Line>, gaps: seq<string>)
    requires (forall i :: 0 <= i < |ls| ==> IsSignalLine(ls[i])) && |gaps| == |ls| + 1 && AreGaps(gaps)
    ensures Load(Signals(), db, FileOf(Texts(ls, SignalLine), gaps)) == ApplyLines(db, ls)
  {
    forall i | 0 <= i < |ls|
      ensures Printable(Signals(), ls[i]) && Readable(Signals(), ls[i]) && Format(Signals(), ls[i]) == SignalLine(ls[i])
    {
      var l := ls[i];
      assert l.fields == [l.fields[0], l.fields[1]];
      SignalIsGood(l.obj, l.name, l.fields[0], l.fields[1]);
    }
    assert Texts(ls, SignalLine) == Formats(Signals(), ls);
    FileLoads(Signals(), db, ls, gaps);
  }

  /** And a file of arguments. */
  lemma {:induction false} ArgsLoad(db: Db, ls: seq<Line>, gaps: seq<string>)
    requires (forall i :: 0 <= i < |ls| ==> IsArgLine(ls[i])) && |gaps| == |ls| + 1 && AreGaps(gaps)
    ensures Load(Args(), db, FileOf(Texts(ls, ArgLine), gaps)) == ApplyLines(db, ls)
  {
    forall i | 0 <= i < |ls|
      ensures Printable(Args(), ls[i]) && Readable(Args(), ls[i]) && Format(Args(), ls[i]) == ArgLine(ls[i])
    {
      var l := ls[i];
      var f := l.fields;
      assert f == [f[0], f[1], f[2], f[3], f[4], f[5]];
      ArgIsGood(l.obj, l.name, f[0], f[1], f[2], f[3], f[4], f[5]);
    }
    assert Texts(ls, ArgLine) == Formats(Args(), ls);
    FileLoads(Args(), db, ls, gaps);
  }

  /** What the tool writes: every entry in its format, in order, each followed by an empty line but the last;
      a single line feed if there is none. */
  lemma {:induction false} PrintIs(g: Grammar, db: Db)
    requires ValidDb(db)
    ensures Print(g, db) == if Lines(db) == [] then "\n" else Terminated(Formats(g, Lines(db)))
  {
    BlocksAreLines(g, db, |db.order|);
    JoinTerminates(Formats(g, Lines(db)));
  }

  lemma {:induction false} OneText(l: Line, text: Line -> string)
    ensures Texts([l], text) == [text(l)]
  {
  }

  lemma {:induction false} OneApplied(db: Db, l: Line)
    ensures ApplyLines(db, [l]) == db.Put(l.obj, Known(db, l.obj).Put(l.name, l.fields))
  {
    assert [l][..0] == [];
  }

  /** One argument on its own. */
  lemma {:induction false} ArgLoads(db: Db, o: string, n: string, t: string, r: string, f: string, k: string,
                                    b: string, d: string)
    requires IsArg(o, n, t, r, f, k, b, d)
    ensures Load(Args(), db, ArgText(o, n, t, r, f, k, b, d)) == db.Put(o, Known(db, o).Put(n, [t, r, f, k, b, d]))
  {
    var l := Line(o, n, [t, r, f, k, b, d]);
    ArgsLoad(db, [l], ["", ""]);
    OneBlock(ArgLine(l));
    OneText(l, ArgLine);
    OneApplied(db, l);
  }

  lemma {:induction false} SignalLoads(db: Db, o: string, n: string, r: string, a: string)
    requires IsSignal(o, n, r, a)
    ensures Load(Signals(), db, SignalText(o, n, r, a)) == db.Put(o, Known(db, o).Put(n, [r, a]))
  {
    var l := Line(o, n, [r, a]);
    SignalsLoad(db, [l], ["", ""]);
    OneBlock(SignalLine(l));
    OneText(l, SignalLine);
    OneApplied(db, l);
  }

  lemma {:induction false} OneBlock(b: string)
    ensures FileOf([b], ["", ""]) == b
  {
    assert [b][1..] == [] && ["", ""][1..] == [""];
    assert FileOf([], [""]) == "";
  }
}
