/** The template tool: read the sections of an sgml template, replace the short description,
    put an include line into the long one, print the sections again. */
module MangleTmpl {
  import opened Common
  import opened Regex

  /** A section is a list of texts; Python prints a plain string there character by character. */
  type Content = seq<string>

  function HeaderPattern(): seq<Item> {
    [Lit("<!-- ##### SECTION "), Word(1), Lit(" ##### -->\n")]
  }

  /** The header line that is printed for a section. */
  function Header(id: string): string {
    "<!-- ##### SECTION " + id + " ##### -->\n"
  }

  /** The section id if the line is a header, possibly behind other text. */
  function HeaderId(line: string): Option<string> {
    match Search(HeaderPattern(), line)
    case None => None
    case Some(f) => if f.hit.caps == [] then None else Some(f.hit.caps[0])
  }

  /** `readlines`: every line keeps its line feed; the last one may lack it. */
  function ReadLines(t: string): seq<string> {
    if t == "" then []
    else if t[0] == '\n' then ["\n"] + ReadLines(t[1..])
    else
      var rest := ReadLines(t[1..]);
      if rest == [] then [t] else [[t[0]] + rest[0]] + rest[1..]
  }

  /** `"".join(lines)` */
  function Concat(lines: seq<string>): string {
    if lines == [] then "" else lines[0] + Concat(lines[1..])
  }

  /** What reading keeps: the ids in order, repeated where the file repeats them, the content
      of each id, and the id that is being read. */
  datatype State = State(ids: seq<string>, sections: map<string, Content>, cur: Option<string>)

  function Step(s: State, line: string, header: Option<string>): State {
    match header
    case Some(id) => State(s.ids + [id], s.sections[id := []], Some(id))
    case None =>
      if s.cur.Some? && s.cur.value in s.sections then
        s.(sections := s.sections[s.cur.value := s.sections[s.cur.value] + [line]])
      else s
  }

  /** How a line is told to be a header: `HeaderId` in the tool. */
  type Recogniser = string -> Option<string>

  function Read(h: Recogniser, lines: seq<string>): State {
    if lines == [] then State([], map[], None)
    else
      var line := lines[|lines| - 1];
      Step(Read(h, lines[..|lines| - 1]), line, h(line))
  }

  lemma {:induction false} ReadOneMore(h: Recogniser, lines: seq<string>, i: nat)
    requires i < |lines|
    ensures Read(h, lines[..i + 1]) == Step(Read(h, lines[..i]), lines[i], h(lines[i]))
  {
    assert lines[..i + 1][..i] == lines[..i];
  }

  function Known(sections: map<string, Content>, id: string): Content {
    if id in sections then sections[id] else []
  }

  /** The printed lines of the first k ids. */
  function Printed(ids: seq<string>, sections: map<string, Content>, k: nat): seq<string>
    requires k <= |ids|
  {
    if k == 0 then []
    else Printed(ids, sections, k - 1) + [Header(ids[k - 1])] + Known(sections, ids[k - 1])
  }

  function Output(ids: seq<string>, sections: map<string, Content>): string {
    Concat(Printed(ids, sections, |ids|))
  }

  /** A string used as a list of lines. */
  function Chars(s: string): Content {
    seq(|s|, i requires 0 <= i < |s| => [s[i]])
  }

  const XINCLUDE := "http://www.w3.org/2003/XInclude"

  function IncludeLine(element: string): string {
    "<include xmlns=\"" + XINCLUDE + "\" href=\"element-" + element + "-details.xml\" />\n"
  }

  const SHORT := "Short_Description"
  const LONG := "Long_Description"

  /** The sections after the per-file step. A file without a long description, or with an empty
      one, makes the script fail (KeyError, IndexError). */
  function Mangled(sections: map<string, Content>, element: string, description: Option<string>)
    : Option<map<string, Content>>
  {
    var s := if description.Some? then sections[SHORT := Chars(description.value + "\n\n")] else sections;
    if LONG !in s || s[LONG] == [] then None
    else if s[LONG][0] == IncludeLine(element) then Some(s)
    else Some(s[LONG := [IncludeLine(element)] + s[LONG]])
  }

  /** The text that is written back. */
  function Mangle(t: string, element: string, description: Option<string>): Option<string> {
    var s := Read(HeaderId, ReadLines(t));
    match Mangled(s.sections, element, description)
    case None => None
    case Some(m) => Some(Output(s.ids, m))
  }

  class Tmpl {
    var sectionids: seq<string>
    var sections: map<string, Content>

    constructor ()
      ensures sectionids == [] && sections == map[]
    {
      sectionids, sections := [], map[];
    }

    method ReadFile(text: string)
      requires sectionids == [] && sections == map[]
      modifies this
      ensures var s := Read(HeaderId, ReadLines(text)); sectionids == s.ids && sections == s.sections
    {
      var lines := ReadLines(text);
      var id: Option<string> := None;
      for i := 0 to |lines|
        invariant State(sectionids, sections, id) == Read(HeaderId, lines[..i])
        invariant id.Some? ==> id.value in sections
      {
        ReadOneMore(HeaderId, lines, i);
        var header := HeaderId(lines[i]);
        if header.Some? {
          id := header;
          sectionids := sectionids + [id.value];
          sections := sections[id.value := []];
        } else if id.Some? {
          sections := sections[id.value := sections[id.value] + [lines[i]]];
        }
      }
      assert lines[..|lines|] == lines;
    }

    method OutputText() returns (text: string)
      requires forall id :: id in sectionids ==> id in sections
      ensures text == Output(sectionids, sections)
    {
      var lines: seq<string> := [];
      for i := 0 to |sectionids|
        invariant lines == Printed(sectionids, sections, i)
      {
        var id := sectionids[i];
        lines := lines + [Header(id)];
        var section := sections[id];
        for j := 0 to |section|
          invariant lines == Printed(sectionids, sections, i) + [Header(id)] + section[..j]
        {
          lines := lines + [section[j]];
        }
        assert section[..|section|] == section;
      }
      text := Concat(lines);
    }

    /** The body of the file loop of `main`. */
    method MangleFile(element: string, description: Option<string>) returns (ok: bool)
      modifies this
      ensures sectionids == old(sectionids)
      ensures var m := Mangled(old(sections), element, description); ok == m.Some? && (ok ==> sections == m.value)
    {
      if description.Some? {
        sections := sections[SHORT := Chars(description.value + "\n\n")];
      }
      if LONG !in sections || sections[LONG] == [] {
        return false;
      }
      var section := sections[LONG];
      if section[0] != IncludeLine(element) {
        section := [IncludeLine(element)] + section;
      }
      ghost var was := sections;
      sections := sections[LONG := section];
      assert section == was[LONG] ==> sections == was;
      ok := true;
    }
  }
}
