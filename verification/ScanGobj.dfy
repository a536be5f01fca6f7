/** The .signals and .args merge tool: parse blocks into objects with entries, merge a second
    file over the first, print everything again. */
module ScanGobj {
  import opened Common
  import opened Regex
  import opened OrderedDict

  /** The captured texts of an entry in group order: returns and args for a signal; type,
      range, flags, nick, blurb and default for an argument. */
  type Fields = seq<string>
  type Object = Dict<Fields>
  type Db = Dict<Object>

  // ---- the two file formats ----

  /** The tags around a block, the two patterns that are searched in it, and the format string
      that prints a block: literal text around one slot (`Greedy`) for each attribute. */
  datatype Grammar = Grammar(open: string, close: string, name: seq<Item>, body: seq<Item>, format: seq<Item>)

  function NamePattern(): seq<Item> {
    [Lit("<NAME>"), Word(0), Lit("::"), Word(0), Lit("</NAME>")]
  }

  function Signals(): Grammar {
    Grammar(
      "<SIGNAL>\n", "</SIGNAL>\n", NamePattern(),
      [Lit("<RETURNS>"), Word(0), Lit("</RETURNS>\n"), Greedy],
      [Lit("<SIGNAL>\n"),
       Lit("<NAME>"), Greedy, Lit("::"), Greedy, Lit("</NAME>"), Lit("\n"),
       Lit("<RETURNS>"), Greedy, Lit("</RETURNS>\n"),
       Greedy, Lit("</SIGNAL>\n")])
  }

  function Args(): Grammar {
    Grammar(
      "<ARG>\n", "</ARG>\n", NamePattern(),
      [Lit("<TYPE>"), Word(0), Lit("</TYPE>\n<RANGE>"), Lazy, Lit("</RANGE>\n<FLAGS>"), Word(0),
       Lit("</FLAGS>\n<NICK>"), Lazy, Lit("</NICK>\n<BLURB>"), Lazy, Lit("</BLURB>\n<DEFAULT>"), Lazy,
       Lit("</DEFAULT>\n")],
      [Lit("<ARG>\n"),
       Lit("<NAME>"), Greedy, Lit("::"), Greedy, Lit("</NAME>"), Lit("\n"),
       Lit("<TYPE>"), Greedy, Lit("</TYPE>\n<RANGE>"), Greedy, Lit("</RANGE>\n<FLAGS>"), Greedy,
       Lit("</FLAGS>\n<NICK>"), Greedy, Lit("</NICK>\n<BLURB>"), Greedy, Lit("</BLURB>\n<DEFAULT>"), Greedy,
       Lit("</DEFAULT>\n"), Lit("</ARG>\n")])
  }

  function BlockPattern(g: Grammar): seq<Item> {
    [Lit(g.open), Lazy, Lit(g.close)]
  }

  // ---- loading ----

  /** What one block does: nothing, make its object known, or set an entry of its object. */
  datatype Event = Skip | Touch(obj: string) | Entry(obj: string, name: string, fields: Fields)

  /** Both searches, in the order of the loop body. The name pattern has two groups. */
  function Classify(g: Grammar, block: string): Event {
    var nmatch := Search(g.name, block);
    if nmatch.None? || |nmatch.value.hit.caps| != 2 then Skip
    else
      var caps := nmatch.value.hit.caps;
      match Search(g.body, block)
      case None => Touch(caps[0])
      case Some(rmatch) => Entry(caps[0], caps[1], rmatch.hit.caps)
  }

  function Known(db: Db, o: string): Object {
    if o in db.vals then db.vals[o] else Empty()
  }

  function Apply(db: Db, e: Event): Db {
    match e
    case Skip => db
    case Touch(o) => if o in db.vals then db else db.Put(o, Empty())
    case Entry(o, n, f) => db.Put(o, Known(db, o).Put(n, f))
  }

  function ApplyAll(g: Grammar, db: Db, blocks: seq<string>): Db {
    if blocks == [] then db
    else Apply(ApplyAll(g, db, blocks[..|blocks| - 1]), Classify(g, blocks[|blocks| - 1]))
  }

  function Load(g: Grammar, db: Db, text: string): Db {
    ApplyAll(g, db, FindAll(BlockPattern(g), text))
  }

  function Parse(g: Grammar, text: string): Db {
    Load(g, Empty(), text)
  }

  // ---- printing ----

  datatype Line = Line(obj: string, name: string, fields: Fields)

  /** `block % d`: the slots filled in order. */
  function Format(g: Grammar, l: Line): string {
    Render(g.format, [l.obj, l.name] + l.fields)
  }

  /** The printed blocks of the first k entries of an object. */
  function ObjectBlocks(g: Grammar, o: string, d: Object, k: nat): seq<string>
    requires k <= |d.order| && d.Valid()
  {
    if k == 0 then []
    else ObjectBlocks(g, o, d, k - 1) + [Format(g, Line(o, d.order[k - 1], d.vals[d.order[k - 1]]))]
  }

  ghost predicate ValidDb(db: Db) {
    db.Valid() && forall o :: o in db.vals ==> db.vals[o].Valid()
  }

  /** The printed blocks of the first i objects. */
  function Blocks(g: Grammar, db: Db, i: nat): seq<string>
    requires i <= |db.order| && ValidDb(db)
  {
    if i == 0 then []
    else
      var d := db.vals[db.order[i - 1]];
      Blocks(g, db, i - 1) + ObjectBlocks(g, db.order[i - 1], d, |d.order|)
  }

  /** `sep.join(lines)` */
  function Join(sep: string, lines: seq<string>): string {
    if lines == [] then ""
    else if |lines| == 1 then lines[0]
    else lines[0] + sep + Join(sep, lines[1..])
  }

  function Print(g: Grammar, db: Db): string
    requires ValidDb(db)
  {
    Join("\n", Blocks(g, db, |db.order|)) + "\n"
  }

  lemma {:induction false} OneMoreBlock(g: Grammar, before: seq<string>, o: string, d: Object, k: nat)
    requires k < |d.order| && d.Valid()
    ensures before + ObjectBlocks(g, o, d, k) + [Format(g, Line(o, d.order[k], d.vals[d.order[k]]))]
         == before + ObjectBlocks(g, o, d, k + 1)
  {
  }

  /** One of the tool's two document classes, with the dictionary its methods fill and read. */
  class GDoc {
    const g: Grammar
    var objects: Db

    constructor (g: Grammar)
      ensures this.g == g && objects == Empty()
    {
      this.g := g;
      objects := Empty();
    }

    /** The body of the loading loop behind the two searches. */
    method Record(e: Event)
      modifies this
      ensures objects == Apply(old(objects), e)
    {
      if !e.Skip? && e.obj !in objects.vals {
        objects := objects.Put(e.obj, Empty());
      }
      if e.Entry? {
        ghost var was := old(objects.vals);
        assert objects.vals[e.obj := objects.vals[e.obj].Put(e.name, e.fields)]
            == was[e.obj := Known(old(objects), e.obj).Put(e.name, e.fields)];
        objects := objects.Put(e.obj, objects.vals[e.obj].Put(e.name, e.fields));
      }
    }

    method LoadData(data: string)
      modifies this
      ensures objects == Load(g, old(objects), data)
    {
      var blocks := FindAll(BlockPattern(g), data);
      for i := 0 to |blocks|
        invariant objects == ApplyAll(g, old(objects), blocks[..i])
      {
        assert blocks[..i + 1][..i] == blocks[..i];
        var e := Classify(g, blocks[i]);
        Record(e);
      }
      assert blocks[..|blocks|] == blocks;
    }

    method GetData() returns (text: string)
      requires ValidDb(objects)
      ensures text == Print(g, objects)
    {
      var lines: seq<string> := [];
      for i := 0 to |objects.order|
        invariant lines == Blocks(g, objects, i)
      {
        var o := objects.order[i];
        var d := objects.vals[o];
        ghost var before := lines;
        for k := 0 to |d.order|
          invariant lines == before + ObjectBlocks(g, o, d, k)
        {
          OneMoreBlock(g, before, o, d, k);
          lines := lines + [Format(g, Line(o, d.order[k], d.vals[d.order[k]]))];
        }
      }
      text := Join("\n", lines) + "\n";
    }
  }
}
