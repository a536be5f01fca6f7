/** The tool as a whole: printing after parsing is a fixed point, loading a second file is a
    right-biased merge, and running the tool again changes nothing. */
module ScanGobjMerge {
  import opened Common
  import opened Regex
  import opened OrderedDict
  import opened ScanGobj
  import opened ScanGobjFixedPoint
  import opened ScanGobjReload

  // ---- the merge as an operation on databases ----

  /** Two objects of the same name: all entries, the second object's where both have one. */
  function MergeObject(x: Object, y: Object): Object {
    Dict(Extend(x.order, y.order), x.vals + y.vals)
  }

  function MergeVals(x: Db, y: Db): map<string, Object> {
    map o | o in x.vals.Keys + y.vals.Keys :: MergeObject(Known(x, o), Known(y, o))
  }

  function Merge(x: Db, y: Db): Db {
    Dict(Extend(x.order, y.order), MergeVals(x, y))
  }

  lemma {:induction false} MergeObjectPut(x: Object, y: Object, n: string, f: Fields)
    requires x.Valid() && y.Valid()
    ensures MergeObject(x, y.Put(n, f)) == MergeObject(x, y).Put(n, f)
  {
    ExtendSnoc(x.order, y.order, n);
    var l, r := x.vals + y.vals[n := f], (x.vals + y.vals)[n := f];
    assert l.Keys == r.Keys && l == r;
  }

  lemma {:induction false} MergeEmpty(x: Object)
    ensures MergeObject(x, Empty()) == x && MergeObject(Empty(), Empty()) == Empty()
  {
    assert x.vals + map[] == x.vals;
  }

  lemma {:induction false} MergeValsPut(x: Db, y: Db, o: string, d: Object)
    ensures MergeVals(x, y.Put(o, d)) == MergeVals(x, y)[o := MergeObject(Known(x, o), d)]
  {
    var l, r := MergeVals(x, y.Put(o, d)), MergeVals(x, y)[o := MergeObject(Known(x, o), d)];
    assert l.Keys == r.Keys;
  }

  lemma {:induction false} MergeKnown(x: Db, y: Db, o: string)
    ensures Known(Merge(x, y), o) == MergeObject(Known(x, o), Known(y, o))
  {
    MergeEmpty(Known(x, o));
  }

  lemma {:induction false} MergeThenPut(x: Db, y: Db, o: string, d: Object)
    requires x.Valid() && y.Valid()
    ensures Merge(x, y.Put(o, d)) == Merge(x, y).Put(o, MergeObject(Known(x, o), d))
  {
    MergeValsPut(x, y, o, d);
    ExtendSnoc(x.order, y.order, o);
    assert o in Extend(x.order, y.order) <==> o in Merge(x, y).vals;
  }

  lemma {:induction false} ApplyOnMerge(x: Db, y: Db, e: Event)
    requires ValidDb(x) && ValidDb(y)
    ensures Apply(Merge(x, y), e) == Merge(x, Apply(y, e))
  {
    match e {
      case Skip =>
      case Touch(o) =>
        MergeKnown(x, y, o);
        MergeEmpty(Known(x, o));
        MergeThenPut(x, y, o, Empty());
        if o in x.vals && o !in y.vals {
          PutBack(Merge(x, y), o);
        }
      case Entry(o, n, f) =>
        MergeKnown(x, y, o);
        MergeObjectPut(Known(x, o), Known(y, o), n, f);
        MergeThenPut(x, y, o, Known(y, o).Put(n, f));
    }
  }

  lemma {:induction false} PutBack(db: Db, o: string)
    requires o in db.vals
    ensures db.Put(o, db.vals[o]) == db
  {
  }

  lemma {:induction false} MergeValid(x: Db, y: Db)
    requires ValidDb(x) && ValidDb(y)
    ensures ValidDb(Merge(x, y))
  {
    ExtendDistinct(x.order, y.order);
    forall o | o in x.vals || o in y.vals ensures MergeObject(Known(x, o), Known(y, o)).Valid() {
      ExtendDistinct(Known(x, o).order, Known(y, o).order);
    }
  }

  lemma {:induction false} ApplyAllValid(g: Grammar, db: Db, blocks: seq<string>)
    requires ValidDb(db)
    ensures ValidDb(ApplyAll(g, db, blocks))
  {
    if blocks != [] {
      var k := |blocks| - 1;
      ApplyAllValid(g, db, blocks[..k]);
      ApplyKeeps(ApplyAll(g, db, blocks[..k]), Classify(g, blocks[k]), _ => true);
    }
  }

  /** Loading a file into a database merges the parsed file over the database. */
  lemma {:induction false} LoadIsMerge(g: Grammar, db: Db, blocks: seq<string>)
    requires ValidDb(db)
    ensures ApplyAll(g, db, blocks) == Merge(db, ApplyAll(g, Empty(), blocks))
  {
    if blocks == [] {
      forall o | o in db.vals ensures MergeObject(db.vals[o], Empty()) == db.vals[o] {
        MergeEmpty(db.vals[o]);
      }
    } else {
      var k := |blocks| - 1;
      LoadIsMerge(g, db, blocks[..k]);
      ApplyAllValid(g, Empty(), blocks[..k]);
      ApplyOnMerge(db, ApplyAll(g, Empty(), blocks[..k]), Classify(g, blocks[k]));
    }
  }

  // ---- laws of the merge ----

  lemma {:induction false} MergeObjectAssociates(x: Object, y: Object, z: Object)
    ensures MergeObject(x, MergeObject(y, z)) == MergeObject(MergeObject(x, y), z)
  {
    ExtendAssociates(x.order, y.order, z.order);
    assert x.vals + (y.vals + z.vals) == x.vals + y.vals + z.vals;
  }

  lemma {:induction false} MergeAssociatesAt(x: Db, y: Db, z: Db, o: string)
    ensures MergeObject(Known(x, o), Known(Merge(y, z), o)) == MergeObject(Known(Merge(x, y), o), Known(z, o))
  {
    MergeKnown(x, y, o);
    MergeKnown(y, z, o);
    MergeObjectAssociates(Known(x, o), Known(y, o), Known(z, o));
  }

  /** Two databases with the same keys and the same values. */
  lemma {:induction false} SameMerge(x: Db, y: Db, x': Db, y': Db)
    requires x.vals.Keys + y.vals.Keys == x'.vals.Keys + y'.vals.Keys
    requires forall o :: o in x.vals || o in y.vals ==>
               MergeObject(Known(x, o), Known(y, o)) == MergeObject(Known(x', o), Known(y', o))
    ensures MergeVals(x, y) == MergeVals(x', y')
  {
  }

  lemma {:induction false} MergeAssociates(x: Db, y: Db, z: Db)
    ensures Merge(x, Merge(y, z)) == Merge(Merge(x, y), z)
  {
    ExtendAssociates(x.order, y.order, z.order);
    MergeValsAssociate(x, y, z);
  }

  lemma {:induction false} KeysOfMerge(x: Db, y: Db)
    ensures Merge(x, y).vals.Keys == x.vals.Keys + y.vals.Keys
  {
  }

  lemma {:induction false} MergeValsAssociate(x: Db, y: Db, z: Db)
    ensures MergeVals(x, Merge(y, z)) == MergeVals(Merge(x, y), z)
  {
    var yz, xy := Merge(y, z), Merge(x, y);
    KeysOfMerge(y, z);
    KeysOfMerge(x, y);
    forall o | o in x.vals || o in yz.vals
      ensures MergeObject(Known(x, o), Known(yz, o)) == MergeObject(Known(xy, o), Known(z, o))
    {
      MergeAssociatesAt(x, y, z, o);
    }
    SameMerge(x, yz, xy, z);
  }

  lemma {:induction false} MergeObjectAgain(x: Object, y: Object)
    requires x.Valid() && y.Valid()
    ensures MergeObject(MergeObject(x, y), y) == MergeObject(x, y)
  {
    ExtendKnown(Extend(x.order, y.order), y.order);
    assert (x.vals + y.vals) + y.vals == x.vals + y.vals;
  }

  lemma {:induction false} MergeAgainAt(x: Db, y: Db, o: string)
    requires ValidDb(x) && ValidDb(y)
    ensures MergeObject(Known(Merge(x, y), o), Known(y, o)) == MergeObject(Known(x, o), Known(y, o))
  {
    MergeKnown(x, y, o);
    MergeObjectAgain(Known(x, o), Known(y, o));
  }

  /** Merging the same file once more changes nothing. */
  lemma {:induction false} MergeAgain(x: Db, y: Db)
    requires ValidDb(x) && ValidDb(y)
    ensures Merge(Merge(x, y), y) == Merge(x, y)
  {
    ExtendKnown(Extend(x.order, y.order), y.order);
    var xy := Merge(x, y);
    assert xy.vals.Keys == x.vals.Keys + y.vals.Keys;
    forall o | o in xy.vals || o in y.vals
      ensures MergeObject(Known(xy, o), Known(y, o)) == MergeObject(Known(x, o), Known(y, o))
    {
      MergeAgainAt(x, y, o);
    }
    SameMerge(xy, y, x, y);
  }

  // ---- the tool ----

  predicate IsFormat(g: Grammar) {
    g == Signals() || g == Args()
  }

  lemma {:induction false} LoadedByTool(g: Grammar, db: Db, text: string)
    requires IsFormat(g) && AllGood(g, db)
    ensures AllGood(g, Load(g, db, text))
  {
    if g == Signals() {
      ShapeOfSignals();
      ParsedIsGood(g, "<RETURNS>", "</RETURNS>", "</SIGNAL>", db, text);
    } else {
      ShapeOfArgs();
      ParsedIsGood(g, "<TYPE>", "</TYPE>", "</ARG>", db, text);
    }
  }

  lemma {:induction false} PrintedByTool(g: Grammar, db: Db)
    requires IsFormat(g) && AllGood(g, db)
    ensures Parse(g, Print(g, db)) == Compact(db) && Lines(Compact(db)) == Lines(db)
  {
    if g == Signals() {
      ShapeOfSignals();
      ParseOfPrint(g, "<RETURNS>", "</RETURNS>", "</SIGNAL>", db);
    } else {
      ShapeOfArgs();
      ParseOfPrint(g, "<TYPE>", "</TYPE>", "</ARG>", db);
    }
  }

  /** Whatever a file holds: what is printed after loading it parses and prints to itself. */
  lemma {:induction false} PrintIsFixedPoint(g: Grammar, text: string)
    requires IsFormat(g)
    ensures var db := Parse(g, text);
            && ValidDb(db) && ValidDb(Parse(g, Print(g, db)))
            && Print(g, Parse(g, Print(g, db))) == Print(g, db)
  {
    LoadedByTool(g, Empty(), text);
    var db := Parse(g, text);
    PrintedByTool(g, db);
    PrintOfLines(g, Compact(db), db);
  }

  /** Loading file b after file a: the objects of a in their order and then the new ones of b,
      in every object the entries of a and then the new ones of b, and b's fields where both
      files have the entry. */
  lemma {:induction false} SecondFileWins(g: Grammar, a: string, b: string, o: string, n: string)
    ensures var A, B, AB := Parse(g, a), Parse(g, b), Load(g, Parse(g, a), b);
            && AB.order == Extend(A.order, B.order)
            && Known(AB, o).order == Extend(Known(A, o).order, Known(B, o).order)
            && (n in Known(AB, o).vals <==> n in Known(A, o).vals || n in Known(B, o).vals)
            && (n in Known(AB, o).vals ==>
                  Known(AB, o).vals[n] == if n in Known(B, o).vals then Known(B, o).vals[n] else Known(A, o).vals[n])
  {
    ApplyAllValid(g, Empty(), FindAll(BlockPattern(g), a));
    LoadIsMerge(g, Parse(g, a), FindAll(BlockPattern(g), b));
    MergeKnown(Parse(g, a), Parse(g, b), o);
  }

  /** Loading the second file once more changes nothing, and three files may be grouped either way. */
  lemma {:induction false} LoadingLaws(g: Grammar, a: string, b: string, c: string)
    ensures Load(g, Load(g, Parse(g, a), b), b) == Load(g, Parse(g, a), b)
    ensures Load(g, Load(g, Parse(g, a), b), c) == Merge(Parse(g, a), Load(g, Parse(g, b), c))
  {
    var A, B, C := Parse(g, a), Parse(g, b), Parse(g, c);
    ApplyAllValid(g, Empty(), FindAll(BlockPattern(g), a));
    ApplyAllValid(g, Empty(), FindAll(BlockPattern(g), b));
    LoadIsMerge(g, A, FindAll(BlockPattern(g), b));
    MergeValid(A, B);
    LoadIsMerge(g, Merge(A, B), FindAll(BlockPattern(g), b));
    LoadIsMerge(g, Merge(A, B), FindAll(BlockPattern(g), c));
    LoadIsMerge(g, B, FindAll(BlockPattern(g), c));
    MergeAgain(A, B);
    MergeAssociates(A, B, C);
  }

  /** What `main` writes back: the old file with the new one loaded over it. */
  function Rewritten(g: Grammar, file: string, update: string): string
    requires ValidDb(Load(g, Parse(g, file), update))
  {
    Print(g, Load(g, Parse(g, file), update))
  }

  lemma {:induction false} EmptyObject(db: Db, i: nat)
    requires ValidDb(db) && 0 < i <= |db.order| && db.vals[db.order[i - 1]].order == []
    ensures LinesUpTo(db, i) == LinesUpTo(db, i - 1)
  {
    var o := db.order[i - 1];
    assert ObjectLines(o, db.vals[o], 0) == [];
  }

  /** Objects without entries at the end of a database print nothing. */
  lemma {:induction false} EmptyTail(c: Db, db: Db, i: nat)
    requires ValidDb(c) && ValidDb(db) && |c.order| <= i <= |db.order| && LinesUpTo(db, |c.order|) == Lines(c)
    requires forall j :: |c.order| <= j < |db.order| ==> db.vals[db.order[j]].order == []
    ensures LinesUpTo(db, i) == Lines(c)
  {
    if i != |c.order| {
      EmptyTail(c, db, i - 1);
      EmptyObject(db, i);
    }
  }

  lemma {:induction false} MergeOverCompact(x: Db, y: Db, o: string)
    requires ValidDb(x) && ValidDb(y) && ValidDb(Merge(x, y))
    ensures var c := Compact(Merge(x, y));
            && (o in c.vals ==> Known(Merge(c, y), o) == c.vals[o])
            && (o !in c.vals && o in y.vals ==> Known(Merge(c, y), o).order == [])
  {
    var xy := Merge(x, y);
    var c := Compact(xy);
    assert xy.order[..|xy.order|] == xy.order;
    CompactHas(xy, |xy.order|, o);
    MergeKnown(x, y, o);
    MergeKnown(c, y, o);
    MergeObjectAgain(Known(x, o), Known(y, o));
  }

  /** A longer database whose new objects are empty has the lines of the shorter one. */
  lemma {:induction false} LinesOfLonger(c: Db, m: Db)
    requires ValidDb(m) && ValidDb(c) && c.order <= m.order
    requires forall o :: o in m.vals ==> if o in c.vals then m.vals[o] == c.vals[o] else m.vals[o].order == []
    ensures Lines(m) == Lines(c)
  {
    forall j | |c.order| <= j < |m.order| ensures m.vals[m.order[j]].order == [] {
      assert m.order[j] !in c.order;
    }
    LinesUpToSame(m, c, |c.order|);
    EmptyTail(c, m, |m.order|);
  }

  lemma {:induction false} LinesOverCompact(x: Db, y: Db, c: Db, m: Db)
    requires ValidDb(x) && ValidDb(y) && ValidDb(Merge(x, y)) && ValidDb(m) && ValidDb(c)
    requires c == Compact(Merge(x, y)) && m == Merge(c, y)
    ensures Lines(m) == Lines(c)
  {
    forall o | o in m.vals
      ensures if o in c.vals then m.vals[o] == c.vals[o] else m.vals[o].order == []
    {
      MergeOverCompact(x, y, o);
    }
    LinesOfLonger(c, m);
  }

  /** Running the tool again with the same new file leaves the written file as it is. */
  lemma {:induction false} RerunChangesNothing(g: Grammar, a: string, b: string)
    requires IsFormat(g)
    ensures ValidDb(Load(g, Parse(g, a), b)) && ValidDb(Load(g, Parse(g, Rewritten(g, a, b)), b))
    ensures Rewritten(g, Rewritten(g, a, b), b) == Rewritten(g, a, b)
  {
    var A, B, blocks := Parse(g, a), Parse(g, b), FindAll(BlockPattern(g), b);
    LoadedByTool(g, Empty(), a);
    LoadedByTool(g, A, b);
    LoadedByTool(g, Empty(), b);
    var db := Load(g, A, b);
    LoadIsMerge(g, A, blocks);
    PrintedByTool(g, db);
    LoadIsMerge(g, Compact(db), blocks);
    MergeValid(Compact(db), B);
    LinesOverCompact(A, B, Compact(db), Merge(Compact(db), B));
    PrintOfLines(g, Merge(Compact(db), B), db);
  }
}
