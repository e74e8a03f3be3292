/** Reading the documented notes from a markdown file (hack/generate-notes/main.go). */
module NotesParser {
  import opened Common
  import opened Text

  datatype NoteEntry = NoteEntry(
    name: string, domain: string, description: string, example: string, keywords: seq<string>)

  // ----- Names in a heading -----

  /** How many characters come before the next backtick. */
  function Run(s: string): (n: nat)
    ensures n <= |s| && (n < |s| ==> s[n] == '`')
  {
    if s == "" || s[0] == '`' then 0 else Run(s[1..]) + 1
  }

  /** backtickRe.FindAllStringSubmatch: the nonempty pieces between two backticks. */
  function Quoted(s: string): seq<string> {
    if s == "" then []
    else if s[0] != '`' then Quoted(s[1..])
    else
      var n := Run(s[1..]);
      if n == 0 || n + 1 == |s| then Quoted(s[1..]) else [s[1..n + 1]] + Quoted(s[n + 2..])
  }

  const SPECIAL := " .{}()/\\"

  predicate FunctionName(name: string) {
    && (forall i | 0 <= i < |name| :: name[i] !in SPECIAL)
    && !(name != "" && 'A' <= name[0] <= 'Z')
  }

  function FunctionNames(names: seq<string>): seq<string> {
    if names == [] then []
    else
      var n := |names| - 1;
      FunctionNames(names[..n]) + if FunctionName(names[n]) then [names[n]] else []
  }

  /** What passes for the name of a function: no space, dot, bracket or slash anywhere, and no capital
      first. */
  lemma FunctionNameIs(name: string)
    ensures FunctionName(name)
       <==> && (forall i | 0 <= i < |name| ::
                  && name[i] != ' ' && name[i] != '.' && name[i] != '{' && name[i] != '}' && name[i] != '('
                  && name[i] != ')' && name[i] != '/' && name[i] != '\\')
            && (|name| > 0 ==> name[0] !in CAPITALS)
  {
    assert forall c: char ::
        c in SPECIAL <==> c == ' ' || c == '.' || c == '{' || c == '}' || c == '(' || c == ')' || c == '/' || c == '\\';
    if |name| > 0 { CapitalsAre(name[0]); }
  }

  lemma CapitalsAre(c: char)
    ensures c in CAPITALS <==> 'A' <= c <= 'Z'
  {
    if 'A' <= c <= 'Z' { assert CAPITALS[(c as int) - 65] == c; }
  }

  /** The function names among some pieces, in order. */
  lemma {:induction false} FunctionNamesInOrder(a: seq<string>, b: seq<string>)
    ensures FunctionNames(a + b) == FunctionNames(a) + FunctionNames(b)
    ensures forall name :: FunctionNames([name]) == if FunctionName(name) then [name] else []
  {
    hide FunctionName;
    forall name ensures FunctionNames([name]) == if FunctionName(name) then [name] else [] {
      assert [name][..0] == [];
    }
    if b == [] {
      assert a + b == a;
    } else {
      var n := |b| - 1;
      FunctionNamesInOrder(a, b[..n]);
      assert (a + b)[..|a + b| - 1] == a + b[..n] && (a + b)[|a + b| - 1] == b[n];
      var last := if FunctionName(b[n]) then [b[n]] else [];
      assert FunctionNames(a + b) == FunctionNames(a + b[..n]) + last;
      assert FunctionNames(b) == FunctionNames(b[..n]) + last;
      hide *;
      Regroup(FunctionNames(a), FunctionNames(b[..n]), last);
    }
  }

  method ExtractNoteNames(heading: string) returns (names: seq<string>)
    ensures names == FunctionNames(Quoted(heading))
  {
    var matches := Quoted(heading);
    names := [];
    for i := 0 to |matches|
      invariant names == FunctionNames(matches[..i])
    {
      var name := matches[i];
      assert matches[..i + 1][..i] == matches[..i];
      if exists k :: 0 <= k < |name| && name[k] in SPECIAL {
        continue;
      }
      if |name| > 0 && 'A' <= name[0] <= 'Z' {
        continue;
      }
      names := names + [name];
    }
    assert matches[..|matches|] == matches;
  }

  // ----- Headings -----

  /** \s of a Go regular expression. */
  predicate RegexSpace(c: char) { c in "\t\n\U{0C}\r " }

  function Spaces(s: string): (n: nat)
    ensures n <= |s|
  {
    if s != "" && RegexSpace(s[0]) then Spaces(s[1..]) + 1 else 0
  }

  /** headingRe: the text after ### and as much white space as leaves something. */
  function Heading(line: string): Option<string> {
    if !HasPrefix(line, "###") then None
    else
      var rest := line[3..];
      var n := Spaces(rest);
      if n == 0 then None
      else if n < |rest| then Some(rest[n..])
      else if n > 1 then Some(rest[n - 1..])
      else None
  }

  lemma RegexSpaceIs(c: char)
    ensures RegexSpace(c) <==> c == ' ' || c == '\t' || c == '\n' || c == '\r' || c == '\U{0C}'
  {
  }

  /** Three number signs, white space, and a text that begins with something else, unless there is
      nothing else: then the text is the last piece of white space. */
  ghost predicate HeadingOf(line: string, gap: string, text: string) {
    && line == "###" + gap + text && gap != "" && AllSpace(RegexSpace, gap)
    && text != "" && (RegexSpace(text[0]) ==> |text| == 1)
  }

  lemma {:induction false} SpacesAre(s: string)
    ensures AllSpace(RegexSpace, s[..Spaces(s)]) && (Spaces(s) < |s| ==> !RegexSpace(s[Spaces(s)]))
  {
    if s != "" && RegexSpace(s[0]) {
      SpacesAre(s[1..]);
      assert s[..Spaces(s)] == [s[0]] + s[1..][..Spaces(s[1..])];
      AllSpaceBoth(RegexSpace, [s[0]], s[1..][..Spaces(s[1..])]);
    }
  }

  lemma {:induction false} SpacesOver(gap: string, text: string)
    requires AllSpace(RegexSpace, gap)
    ensures Spaces(gap + text) == |gap| + Spaces(text)
  {
    if gap == "" {
      assert gap + text == text;
    } else {
      assert (gap + text)[1..] == gap[1..] + text;
      SpacesOver(gap[1..], text);
    }
  }

  /** The text of a heading line, and which lines are one. */
  lemma HeadingIs(line: string, text: string)
    ensures Heading(line) == Some(text) <==> exists gap :: HeadingOf(line, gap, text)
  {
    if Heading(line) == Some(text) {
      var rest := line[3..];
      var n := |rest| - |text|;
      SpacesAre(rest);
      var gap := rest[..n];
      assert line == "###" + rest && rest == gap + text;
      assert gap == rest[..Spaces(rest)][..n];
      AllSpaceBoth(RegexSpace, gap, rest[..Spaces(rest)][n..]);
      assert rest[..Spaces(rest)] == gap + rest[..Spaces(rest)][n..];
      assert HeadingOf(line, gap, text);
    }
    if exists gap :: HeadingOf(line, gap, text) {
      var gap :| HeadingOf(line, gap, text);
      SpacesOver(gap, text);
      assert line[3..] == gap + text;
    }
  }

  /** The names of a heading that starts an entry; none for any other line. */
  function NamesIn(line: string): seq<string> {
    var heading := Heading(line);
    if heading.Some? then FunctionNames(Quoted(heading.value)) else []
  }

  predicate StartsEntry(line: string) { NamesIn(line) != [] }

  // ----- A file as sections -----

  datatype Section = Section(heading: string, body: seq<string>)
  datatype Doc = Doc(preamble: seq<string>, sections: seq<Section>)

  function AddLine(doc: Doc, line: string): Doc {
    if StartsEntry(line) then Doc(doc.preamble, doc.sections + [Section(line, [])])
    else if doc.sections == [] then Doc(doc.preamble + [line], [])
    else
      var n := |doc.sections| - 1;
      Doc(doc.preamble, doc.sections[..n] + [Section(doc.sections[n].heading, doc.sections[n].body + [line])])
  }

  function Outline(lines: seq<string>): Doc {
    if lines == [] then Doc([], []) else AddLine(Outline(lines[..|lines| - 1]), lines[|lines| - 1])
  }

  function SectionLines(sections: seq<Section>): seq<string> {
    if sections == [] then []
    else
      var n := |sections| - 1;
      SectionLines(sections[..n]) + [sections[n].heading] + sections[n].body
  }

  predicate NoneStarts(lines: seq<string>) {
    forall i | 0 <= i < |lines| :: !StartsEntry(lines[i])
  }

  function TextOf(doc: Doc): seq<string> { doc.preamble + SectionLines(doc.sections) }

  /** Cut before every heading that starts an entry, and nowhere else. */
  predicate CutAtHeadings(doc: Doc) {
    && NoneStarts(doc.preamble)
    && forall i | 0 <= i < |doc.sections| :: StartsEntry(doc.sections[i].heading) && NoneStarts(doc.sections[i].body)
  }

  lemma AddLineAddsText(doc: Doc, line: string)
    ensures TextOf(AddLine(doc, line)) == TextOf(doc) + [line]
  {
    hide StartsEntry;
    var more := AddLine(doc, line);
    if StartsEntry(line) {
      assert more.sections[..|doc.sections|] == doc.sections;
    } else if doc.sections != [] {
      var n := |doc.sections| - 1;
      assert more.sections[..n] == doc.sections[..n];
    }
  }

  lemma AddLineKeepsCut(doc: Doc, line: string)
    requires CutAtHeadings(doc)
    ensures CutAtHeadings(AddLine(doc, line))
  {
    hide StartsEntry;
  }

  lemma NothingCut()
    ensures TextOf(Doc([], [])) == [] && CutAtHeadings(Doc([], []))
  {
  }

  /** The outline of a file is the file, cut at its headings. */
  lemma {:induction false} OutlineIsTheFile(lines: seq<string>)
    ensures TextOf(Outline(lines)) == lines && CutAtHeadings(Outline(lines))
  {
    hide AddLine, TextOf, CutAtHeadings;
    if lines == [] {
      NothingCut();
    } else {
      var before, line := lines[..|lines| - 1], lines[|lines| - 1];
      OutlineIsTheFile(before);
      AddLineAddsText(Outline(before), line);
      AddLineKeepsCut(Outline(before), line);
      assert lines == before + [line];
    }
  }

  // ----- What a section says -----

  predicate IsFence(line: string) { HasPrefix(line, "```") }

  function Fences(body: seq<string>): nat {
    if body == [] then 0 else Fences(body[..|body| - 1]) + if IsFence(body[|body| - 1]) then 1 else 0
  }

  predicate EndsDescription(space: char -> bool, line: string) {
    HasPrefix(line, "## ") || HasPrefix(line, "# ") || Trim(space, line) == "---"
  }

  predicate IsKeywords(space: char -> bool, line: string) {
    HasPrefix(Lower(Trim(space, line)), "keywords:")
  }

  /** What the marks of a section look like. */
  lemma MarksAre(space: char -> bool, line: string)
    ensures IsFence(line) <==> |line| >= 3 && line[0] == line[1] == line[2] == '`'
    ensures EndsDescription(space, line)
       <==> || (|line| >= 2 && line[0] == '#' && line[1] == ' ')
            || (|line| >= 3 && line[0] == line[1] == '#' && line[2] == ' ')
            || Trim(space, line) == "---"
    ensures IsKeywords(space, line)
       <==> |Trim(space, line)| >= 9 && Lower(Trim(space, line)[..9]) == "keywords:"
  {
    hide Trim;
    assert |line| >= 3 ==> (HasPrefix(line, "```") <==> line[..3] == "```");
    assert |line| >= 3 ==> (HasPrefix(line, "## ") <==> line[..3] == "## ");
    assert |line| >= 2 ==> (HasPrefix(line, "# ") <==> line[..2] == "# ");
    var t := Trim(space, line);
    if |t| >= 9 { assert Lower(t)[..9] == Lower(t[..9]); }
  }

  /** A title or separator met before any fence ends the section early. */
  predicate Closed(space: char -> bool, body: seq<string>) {
    body != [] &&
    var before, line := body[..|body| - 1], body[|body| - 1];
    Closed(space, before) || (Fences(before) == 0 && !IsFence(line) && EndsDescription(space, line))
  }

  /** The kind of text a line is, from the lines before it: description until the first fence,
      example inside fences, otherwise nothing. */
  datatype Part = Description | Example | Ignored

  function PartOf(space: char -> bool, before: seq<string>, line: string): Part {
    if Closed(space, before) || IsFence(line) then Ignored
    else if Fences(before) % 2 == 1 then Example
    else if Fences(before) == 0 && !EndsDescription(space, line) then Description
    else Ignored
  }

  function DescriptionLines(space: char -> bool, body: seq<string>): seq<string> {
    if body == [] then []
    else
      var before, line := body[..|body| - 1], body[|body| - 1];
      DescriptionLines(space, before) +
      if PartOf(space, before, line) == Description && Trim(space, line) != "" && !IsKeywords(space, line)
      then [Trim(space, line)] else []
  }

  function ExampleLines(space: char -> bool, body: seq<string>): seq<string> {
    if body == [] then []
    else
      var before, line := body[..|body| - 1], body[|body| - 1];
      ExampleLines(space, before) + if PartOf(space, before, line) == Example then [line] else []
  }

  function Words(space: char -> bool, parts: seq<string>): seq<string> {
    if parts == [] then []
    else
      var n := |parts| - 1;
      var word := Lower(Trim(space, parts[n]));
      Words(space, parts[..n]) + if word != "" then [word] else []
  }

  /** The words after "keywords:". */
  function LineKeywords(space: char -> bool, line: string): seq<string>
    requires IsKeywords(space, line)
  {
    Words(space, Split(Trim(space, line)[9..], ','))
  }

  function Keywords(space: char -> bool, body: seq<string>): seq<string> {
    if body == [] then []
    else
      var before, line := body[..|body| - 1], body[|body| - 1];
      Keywords(space, before) +
      if PartOf(space, before, line) == Description && IsKeywords(space, line) then LineKeywords(space, line) else []
  }

  /** The words of a keyword line: what stands between the commas after "keywords:", in order, without
      white space around it and in small letters, unless it is blank. */
  lemma KeywordLine(space: char -> bool, line: string, head: string, rest: string)
    requires Trim(space, line) == head + rest && Lower(head) == "keywords:"
    ensures IsKeywords(space, line) && LineKeywords(space, line) == Words(space, Split(rest, ','))
  {
    assert |head| == 9 && (head + rest)[9..] == rest && (head + rest)[..9] == head;
    MarksAre(space, line);
    hide Trim, Words, Split, Lower;
  }

  lemma {:induction false} WordsInOrder(space: char -> bool, a: seq<string>, b: seq<string>)
    ensures Words(space, a + b) == Words(space, a) + Words(space, b)
    ensures forall part ::
              Words(space, [part]) == if AllSpace(space, part) then [] else [Lower(Trim(space, part))]
  {
    hide Trim, Lower, AllSpace;
    forall part
      ensures Words(space, [part]) == if AllSpace(space, part) then [] else [Lower(Trim(space, part))]
    {
      assert [part][..0] == [];
      TrimIsBlankIff(space, part);
      LowerKeepsLength(Trim(space, part));
    }
    if b == [] {
      assert a + b == a;
    } else {
      var n := |b| - 1;
      WordsInOrder(space, a, b[..n]);
      assert (a + b)[..|a + b| - 1] == a + b[..n] && (a + b)[|a + b| - 1] == b[n];
      var word := Lower(Trim(space, b[n]));
      var last := if word != "" then [word] else [];
      assert Words(space, a + b) == Words(space, a + b[..n]) + last;
      assert Words(space, b) == Words(space, b[..n]) + last;
      hide *;
      Regroup(Words(space, a), Words(space, b[..n]), last);
    }
  }

  lemma LowerKeepsLength(s: string)
    ensures Lower(s) == "" <==> s == ""
  {
    assert |Lower(s)| == |s|;
  }

  function EntriesFor(names: seq<string>, domain: string, description: string, example: string,
      keywords: seq<string>): seq<NoteEntry> {
    seq(|names|, i requires 0 <= i < |names| => NoteEntry(names[i], domain, description, example, keywords))
  }

  function DescriptionOf(space: char -> bool, body: seq<string>): string {
    Trim(space, Join(DescriptionLines(space, body), " "))
  }

  function ExampleOf(space: char -> bool, body: seq<string>): string {
    Trim(space, Join(ExampleLines(space, body), "\n"))
  }

  /** One entry for each name of the heading, all with the text of the section's own body. */
  function SectionEntries(space: char -> bool, domain: string, s: Section): seq<NoteEntry> {
    EntriesFor(NamesIn(s.heading), domain, DescriptionOf(space, s.body), ExampleOf(space, s.body),
               Keywords(space, s.body))
  }

  function AllEntries(space: char -> bool, domain: string, sections: seq<Section>): seq<NoteEntry> {
    if sections == [] then []
    else
      var n := |sections| - 1;
      AllEntries(space, domain, sections[..n]) + SectionEntries(space, domain, sections[n])
  }

  function Notes(space: char -> bool, domain: string, lines: seq<string>): seq<NoteEntry> {
    AllEntries(space, domain, Outline(lines).sections)
  }

  // ----- What has been emitted after some lines -----

  function OpenSection(space: char -> bool, doc: Doc): Option<Section> {
    var n := |doc.sections|;
    if n == 0 || Closed(space, doc.sections[n - 1].body) then None else Some(doc.sections[n - 1])
  }

  function Emitted(space: char -> bool, domain: string, doc: Doc): seq<NoteEntry> {
    if OpenSection(space, doc).None? then AllEntries(space, domain, doc.sections)
    else AllEntries(space, domain, doc.sections[..|doc.sections| - 1])
  }

  lemma EmittedAtTheEnd(space: char -> bool, domain: string, doc: Doc)
    ensures AllEntries(space, domain, doc.sections)
         == Emitted(space, domain, doc) +
            match OpenSection(space, doc) case None => [] case Some(s) => SectionEntries(space, domain, s)
  {
    hide Closed, SectionEntries;
  }

  lemma HeadingOpens(space: char -> bool, domain: string, doc: Doc, line: string)
    requires StartsEntry(line)
    ensures OpenSection(space, AddLine(doc, line)) == Some(Section(line, []))
    ensures Emitted(space, domain, AddLine(doc, line)) == AllEntries(space, domain, doc.sections)
  {
    hide StartsEntry, SectionEntries;
    assert AddLine(doc, line).sections[..|doc.sections|] == doc.sections;
  }

  lemma OutsideStays(space: char -> bool, domain: string, doc: Doc, line: string)
    requires !StartsEntry(line) && OpenSection(space, doc).None?
    ensures OpenSection(space, AddLine(doc, line)).None?
    ensures Emitted(space, domain, AddLine(doc, line)) == Emitted(space, domain, doc)
  {
    hide StartsEntry;
    var more := AddLine(doc, line);
    if doc.sections != [] {
      var n := |doc.sections| - 1;
      assert more.sections[..n] == doc.sections[..n];
      ClosedStays(space, domain, doc.sections[n], line);
    }
  }

  /** Nothing after the line that closed a section belongs to it. */
  lemma ClosedStays(space: char -> bool, domain: string, s: Section, line: string)
    requires Closed(space, s.body)
    ensures Closed(space, s.body + [line])
    ensures SectionEntries(space, domain, Section(s.heading, s.body + [line])) == SectionEntries(space, domain, s)
  {
    BodyStep(space, s.body, line);
    hide Closed, DescriptionLines, ExampleLines, Keywords;
  }

  /** The texts of a body that is one line longer. */
  lemma BodyStep(space: char -> bool, body: seq<string>, line: string)
    ensures Fences(body + [line]) == Fences(body) + if IsFence(line) then 1 else 0
    ensures Closed(space, body + [line])
       <==> Closed(space, body) || (Fences(body) == 0 && !IsFence(line) && EndsDescription(space, line))
    ensures DescriptionLines(space, body + [line]) ==
              if PartOf(space, body, line) == Description && Trim(space, line) != "" && !IsKeywords(space, line)
              then DescriptionLines(space, body) + [Trim(space, line)] else DescriptionLines(space, body)
    ensures ExampleLines(space, body + [line]) ==
              if PartOf(space, body, line) == Example
                  then ExampleLines(space, body) + [line] else ExampleLines(space, body)
    ensures Keywords(space, body + [line]) ==
              if PartOf(space, body, line) == Description && IsKeywords(space, line)
              then Keywords(space, body) + LineKeywords(space, line) else Keywords(space, body)
  {
    assert (body + [line])[..|body|] == body;
    hide Trim, IsKeywords, LineKeywords, EndsDescription, IsFence, PartOf;
  }

  lemma LineContinues(space: char -> bool, domain: string, doc: Doc, line: string)
    requires !StartsEntry(line) && OpenSection(space, doc).Some?
    ensures var s := OpenSection(space, doc).value;
            var longer := Section(s.heading, s.body + [line]);
            if Closed(space, longer.body) then
              && OpenSection(space, AddLine(doc, line)).None?
              && Emitted(space, domain, AddLine(doc, line))
                  == Emitted(space, domain, doc) + SectionEntries(space, domain, longer)
            else
              && OpenSection(space, AddLine(doc, line)) == Some(longer)
              && Emitted(space, domain, AddLine(doc, line)) == Emitted(space, domain, doc)
  {
    hide StartsEntry, Closed, SectionEntries;
    var n := |doc.sections| - 1;
    assert AddLine(doc, line).sections[..n] == doc.sections[..n];
  }

  // ----- The parser -----

  datatype State = Scanning | Desc | Done

  lemma NothingRead(space: char -> bool)
    ensures !Closed(space, []) && Fences([]) == 0
    ensures DescriptionLines(space, []) == [] && ExampleLines(space, []) == [] && Keywords(space, []) == []
  {
  }

  class DocParser {
    const space: char -> bool
    const domain: string
    var entries: seq<NoteEntry>
    var names: seq<string>
    var descLines: seq<string>
    var exLines: seq<string>
    var keywords: seq<string>
    var inCodeBlock: bool
    var st: State

    constructor (space: char -> bool, domain: string)
      ensures this.space == space && this.domain == domain && entries == [] && Idle()
    {
      this.space, this.domain, entries := space, domain, [];
      names, descLines, exLines, keywords, inCodeBlock, st := [], [], [], [], false, Scanning;
    }

    /** No entry is open. */
    predicate Idle()
      reads this
    {
      names == [] && descLines == [] && exLines == [] && keywords == [] && !inCodeBlock && st == Scanning
    }

    /** The buffers hold what the body of the open section says so far. */
    ghost predicate Collecting(s: Section)
      reads this
    {
      && names == NamesIn(s.heading) != [] && !Closed(space, s.body)
      && descLines == DescriptionLines(space, s.body) && exLines == ExampleLines(space, s.body)
          && keywords == Keywords(space, s.body)
      && inCodeBlock == (Fences(s.body) % 2 == 1)
      && st == if Fences(s.body) < 2 then Desc else Done
    }

    /** What the fields hold after the lines of an outline. */
    ghost predicate Represents(doc: Doc)
      reads this
    {
      && entries == Emitted(space, domain, doc)
      && match OpenSection(space, doc) case None => Idle() case Some(s) => Collecting(s)
    }

    method Flush()
      modifies this
      ensures names == [] && (old(names) != [] ==> Idle())
      ensures old(names) == [] ==> unchanged(this)
      ensures entries == old(entries + EntriesFor(
                names, domain, Trim(space, Join(descLines, " ")), Trim(space, Join(exLines, "\n")), keywords))
    {
      if |names| == 0 {
        return;
      }
      var desc, ex := Trim(space, Join(descLines, " ")), Trim(space, Join(exLines, "\n"));
      ghost var all := EntriesFor(names, domain, desc, ex, keywords);
      ghost var before := entries;
      for i := 0 to |names|
        invariant entries == before + all[..i]
        invariant unchanged(this`names) && unchanged(this`keywords)
        modifies this`entries
      {
        entries := entries + [NoteEntry(names[i], domain, desc, ex, keywords)];
      }
      names, descLines, exLines, keywords, inCodeBlock, st := [], [], [], [], false, Scanning;
    }

    /** One iteration of the loop of parseDoc. */
    method Read(line: string, ghost doc: Doc)
      requires Represents(doc)
      modifies this
      ensures Represents(AddLine(doc, line))
    {
      hide Closed, SectionEntries, AddLine, Emitted, OpenSection, AllEntries, Heading, FunctionNames, Quoted;
      var heading := Heading(line);
      if heading.Some? {
        var extracted := ExtractNoteNames(heading.value);
        if |extracted| > 0 {
          HeadingOpens(space, domain, doc, line);
          Close(doc);
          names, st := extracted, Desc;
          NothingRead(space);
          return;
        }
      }
      assert !StartsEntry(line);
      if st == Scanning {
        OutsideStays(space, domain, doc, line);
        return;
      }
      LineContinues(space, domain, doc, line);
      ReadBody(line, OpenSection(space, doc).value);
    }

    /** flush, for the section the outline has open. */
    method Close(ghost doc: Doc)
      requires Represents(doc)
      modifies this
      ensures Idle() && entries == AllEntries(space, domain, doc.sections)
    {
      EmittedAtTheEnd(space, domain, doc);
      hide Closed, Emitted, OpenSection, AllEntries, NamesIn, DescriptionLines, ExampleLines, Keywords, EntriesFor;
      Flush();
    }

    /** A line of the body of the open section. */
    method ReadBody(line: string, ghost s: Section)
      requires Collecting(s)
      modifies this
      ensures if Closed(space, s.body + [line])
              then Idle() && entries == old(entries)
                  + SectionEntries(space, domain, Section(s.heading, s.body + [line]))
              else Collecting(Section(s.heading, s.body + [line])) && entries == old(entries)
    {
      BodyStep(space, s.body, line);
      hide Closed, DescriptionLines, ExampleLines, Keywords, NamesIn, Fences, Trim, Join, Lower, Words, EntriesFor;
      if HasPrefix(line, "```") {
        inCodeBlock := !inCodeBlock;
        if !inCodeBlock {
          st := Done;
        }
        return;
      }
      if inCodeBlock {
        exLines := exLines + [line];
        return;
      }
      if st == Desc {
        if HasPrefix(line, "## ") || HasPrefix(line, "# ") {
          Flush();
          return;
        }
        var trimmed := Trim(space, line);
        if trimmed == "" {
          return;
        }
        if trimmed == "---" {
          Flush();
          return;
        }
        if HasPrefix(Lower(trimmed), "keywords:") {
          AddKeywords(trimmed[9..]);
          return;
        }
        descLines := descLines + [trimmed];
      }
    }

    method AddKeywords(raw: string)
      modifies this`keywords
      ensures keywords == old(keywords) + Words(space, Split(raw, ','))
    {
      var parts := Split(raw, ',');
      for i := 0 to |parts|
        invariant keywords == old(keywords) + Words(space, parts[..i])
      {
        assert parts[..i + 1][..i] == parts[..i];
        var k := Lower(Trim(space, parts[i]));
        if k != "" {
          keywords := keywords + [k];
        }
      }
      assert parts[..|parts|] == parts;
    }
  }

  lemma OutlineOneMore(lines: seq<string>, i: nat)
    requires i < |lines|
    ensures Outline(lines[..i + 1]) == AddLine(Outline(lines[..i]), lines[i])
  {
    hide AddLine;
    assert lines[..i + 1][..i] == lines[..i];
  }

  lemma NothingEmitted(space: char -> bool, domain: string)
    ensures Emitted(space, domain, Outline([])) == [] && OpenSection(space, Outline([])).None?
  {
  }

  method ParseDoc(space: char -> bool, domain: string, lines: seq<string>) returns (entries: seq<NoteEntry>)
    ensures entries == Notes(space, domain, lines)
  {
    hide Outline, OpenSection, Emitted, AllEntries;
    var p := new DocParser(space, domain);
    NothingEmitted(space, domain);
    assert lines[..0] == [];
    assert p.Represents(Outline(lines[..0]));
    hide *;
    for i := 0 to |lines|
      invariant p.space == space && p.domain == domain && p.Represents(Outline(lines[..i]))
    {
      OutlineOneMore(lines, i);
      p.Read(lines[i], Outline(lines[..i]));
    }
    assert lines[..|lines|] == lines;
    p.Close(Outline(lines));
    entries := p.entries;
    NotesAre(space, domain, lines);
  }

  lemma NotesAre(space: char -> bool, domain: string, lines: seq<string>)
    ensures Notes(space, domain, lines) == AllEntries(space, domain, Outline(lines).sections)
  {
  }

  // ----- What the entries of a file are -----

  /** The names of all lines, in file order; only headings that start an entry have any. */
  function NamesOf(lines: seq<string>): seq<string> {
    if lines == [] then [] else NamesOf(lines[..|lines| - 1]) + NamesIn(lines[|lines| - 1])
  }

  function EntryNames(entries: seq<NoteEntry>): seq<string> {
    seq(|entries|, i requires 0 <= i < |entries| => entries[i].name)
  }

  lemma AddLineNames(space: char -> bool, domain: string, doc: Doc, line: string)
    ensures EntryNames(AllEntries(space, domain, AddLine(doc, line).sections))
         == EntryNames(AllEntries(space, domain, doc.sections)) + NamesIn(line)
  {
    hide NamesIn, Trim, Join, DescriptionLines, ExampleLines, Keywords;
    var more := AddLine(doc, line).sections;
    if StartsEntry(line) {
      assert more[..|doc.sections|] == doc.sections;
    } else if doc.sections != [] {
      var n := |doc.sections| - 1;
      assert more[..n] == doc.sections[..n];
    }
  }

  /** Every name of every accepted heading gets one entry, in file order, and nothing else does. */
  lemma {:induction false} OneEntryPerName(space: char -> bool, domain: string, lines: seq<string>)
    ensures EntryNames(Notes(space, domain, lines)) == NamesOf(lines)
  {
    if lines != [] {
      var before, line := lines[..|lines| - 1], lines[|lines| - 1];
      OneEntryPerName(space, domain, before);
      AddLineNames(space, domain, Outline(before), line);
    }
  }

  lemma AddLineAfter(first: Doc, doc: Doc, line: string)
    requires doc.sections != [] || StartsEntry(line)
    ensures AddLine(Doc(first.preamble, first.sections + doc.sections), line)
         == Doc(first.preamble, first.sections + AddLine(doc, line).sections)
    ensures AddLine(doc, line).sections != []
  {
    hide StartsEntry;
    if !StartsEntry(line) {
      var n := |doc.sections| - 1;
      assert (first.sections + doc.sections)[..|first.sections| + n] == first.sections + doc.sections[..n];
    }
  }

  lemma {:induction false} OutlineSplits(a: seq<string>, b: seq<string>)
    requires b != [] && StartsEntry(b[0])
    ensures Outline(a + b) == Doc(Outline(a).preamble, Outline(a).sections + Outline(b).sections)
    ensures Outline(b).sections != []
  {
    var before, line := b[..|b| - 1], b[|b| - 1];
    assert (a + b)[..|a + b| - 1] == a + before;
    hide StartsEntry, AddLine;
    if before == [] {
      assert a + before == a && Outline(before) == Doc([], []);
      assert Outline(a).sections + [] == Outline(a).sections;
    } else {
      OutlineSplits(a, before);
    }
    AddLineAfter(Outline(a), Outline(before), line);
  }

  lemma AllEntriesOneMore(space: char -> bool, domain: string, a: seq<Section>, s: Section)
    ensures AllEntries(space, domain, a + [s]) == AllEntries(space, domain, a) + SectionEntries(space, domain, s)
  {
    hide SectionEntries;
    assert (a + [s])[..|a|] == a;
  }

  lemma {:induction false} AllEntriesSplit(space: char -> bool, domain: string, a: seq<Section>, b: seq<Section>)
    ensures AllEntries(space, domain, a + b) == AllEntries(space, domain, a) + AllEntries(space, domain, b)
  {
    hide SectionEntries;
    if |b| == 0 {
      assert a + b == a;
    } else {
      hide *;
      var before, last := b[..|b| - 1], b[|b| - 1];
      AllEntriesSplit(space, domain, a, before);
      AllEntriesOneMore(space, domain, a + before, last);
      AllEntriesOneMore(space, domain, before, last);
      AllButLast(b);
      Regroup(a, before, [last]);
      Regroup(AllEntries(space, domain, a), AllEntries(space, domain, before), SectionEntries(space, domain, last));
    }
  }

  /** Locality: cutting a file before an accepted heading cuts its entries. No text on one side
      reaches an entry on the other. */
  lemma NotesSplitAtHeadings(space: char -> bool, domain: string, a: seq<string>, b: seq<string>)
    requires b != [] && StartsEntry(b[0])
    ensures Notes(space, domain, a + b) == Notes(space, domain, a) + Notes(space, domain, b)
  {
    hide StartsEntry, Outline;
    OutlineSplits(a, b);
    AllEntriesSplit(space, domain, Outline(a).sections, Outline(b).sections);
  }

  /** Once an example has begun, only the next accepted heading ends the entry: a later "## " title
      does not, and a code block below it still joins the example. */
  lemma {:induction false} OnlyHeadingsEndAnExample(space: char -> bool, body: seq<string>, more: seq<string>)
    requires Fences(body) > 0 && !Closed(space, body)
    ensures !Closed(space, body + more) && Fences(body + more) > 0
  {
    if more == [] {
      assert body + more == body;
    } else {
      var n := |more| - 1;
      OnlyHeadingsEndAnExample(space, body, more[..n]);
      assert body + more == (body + more[..n]) + [more[n]];
      BodyStep(space, body + more[..n], more[n]);
      hide Closed, Fences;
    }
  }

  lemma CodeUnderALaterTitleJoins(space: char -> bool, body: seq<string>, title: string, code: string)
    requires Fences(body) > 0 && Fences(body) % 2 == 0 && !Closed(space, body)
    requires HasPrefix(title, "## ") && !IsFence(code)
    ensures ExampleLines(space, body + [title] + ["```"] + [code]) == ExampleLines(space, body) + [code]
  {
    hide Closed, Fences, ExampleLines, DescriptionLines, Keywords, EndsDescription, IsKeywords, LineKeywords, Trim;
    BodyStep(space, body, title);
    BodyStep(space, body + [title], "```");
    BodyStep(space, body + [title] + ["```"], code);
    assert title[0] == '#';
  }

  // ----- The documented reading of a section: its first paragraph and its first code block -----

  /** The lines before the first fence, and those after it. */
  function UpToFence(lines: seq<string>): seq<string> {
    if lines == [] || IsFence(lines[0]) then [] else [lines[0]] + UpToFence(lines[1..])
  }

  function FromFence(lines: seq<string>): (r: seq<string>)
    ensures lines != [] ==> |r| < |lines|
  {
    if lines == [] then [] else if IsFence(lines[0]) then lines[1..] else FromFence(lines[1..])
  }

  /** The lines inside fences. */
  function Code(lines: seq<string>, inside: bool): seq<string> {
    if lines == [] then []
    else if IsFence(lines[0]) then Code(lines[1..], !inside)
    else (if inside then [lines[0]] else []) + Code(lines[1..], inside)
  }

  function FirstBlock(body: seq<string>): seq<string> { UpToFence(FromFence(body)) }

  function LaterCode(body: seq<string>): seq<string> { Code(FromFence(FromFence(body)), false) }

  /** The lines before the first title or separator. */
  function Head(space: char -> bool, lines: seq<string>): seq<string> {
    if lines == [] || EndsDescription(space, lines[0]) then [] else [lines[0]] + Head(space, lines[1..])
  }

  predicate IsBlank(space: char -> bool, line: string) { Trim(space, line) == "" }

  predicate IsText(space: char -> bool, line: string) { !IsBlank(space, line) && !IsKeywords(space, line) }

  function Texts(space: char -> bool, lines: seq<string>): seq<string> {
    if lines == [] then []
    else (if IsText(space, lines[0]) then [Trim(space, lines[0])] else []) + Texts(space, lines[1..])
  }

  /** The text up to a fence, title, separator or blank line. */
  function TextRun(space: char -> bool, lines: seq<string>): seq<string> {
    if lines == [] || IsFence(lines[0]) || EndsDescription(space, lines[0]) || IsBlank(space, lines[0]) then []
    else (if IsText(space, lines[0]) then [Trim(space, lines[0])] else []) + TextRun(space, lines[1..])
  }

  /** The first paragraph of a section: the first run of text outside fences. Titles, separators and
      keyword lines are no text. */
  function FirstParagraph(space: char -> bool, lines: seq<string>, inside: bool): seq<string> {
    if lines == [] then []
    else if IsFence(lines[0]) then FirstParagraph(space, lines[1..], !inside)
    else if inside || EndsDescription(space, lines[0]) || !IsText(space, lines[0]) then
      FirstParagraph(space, lines[1..], inside)
    else TextRun(space, lines)
  }

  /** What is said before any fence, title or separator. */
  function Prose(space: char -> bool, body: seq<string>): seq<string> { Head(space, UpToFence(body)) }

  function FromText(space: char -> bool, lines: seq<string>): seq<string> {
    if lines == [] || IsText(space, lines[0]) then lines else FromText(space, lines[1..])
  }

  function FromBlank(space: char -> bool, lines: seq<string>): seq<string> {
    if lines == [] || IsBlank(space, lines[0]) then lines else FromBlank(space, lines[1..])
  }

  /** The prose after its first paragraph. */
  function LaterProse(space: char -> bool, body: seq<string>): seq<string> {
    FromBlank(space, FromText(space, Prose(space, body)))
  }

  lemma {:induction false} FencesFirst(line: string, rest: seq<string>)
    ensures Fences([line] + rest) == (if IsFence(line) then 1 else 0) + Fences(rest)
  {
    if rest == [] {
      assert [line] + [] == [line] && [line][..0] == [];
    } else {
      var n := |rest| - 1;
      FencesFirst(line, rest[..n]);
      assert ([line] + rest)[..n + 1] == [line] + rest[..n];
    }
  }

  /** Reading one line of code or one fence. */
  lemma CodeFirst(first: string, rest: seq<string>, inside: bool)
    ensures Code([first] + rest, inside)
         == if IsFence(first) then Code(rest, !inside) else (if inside then [first] else []) + Code(rest, inside)
  {
    assert ([first] + rest)[1..] == rest;
  }

  lemma {:induction false} CodeOneMore(lines: seq<string>, line: string, inside: bool)
    ensures Code(lines + [line], inside)
         == Code(lines, inside) + if !IsFence(line) && (inside <==> Fences(lines) % 2 == 0) then [line] else []
  {
    hide IsFence;
    if lines == [] {
      assert [] + [line] == [line] + [] && Fences(lines) == 0 && Code([], inside) == [] && Code([], !inside) == [];
      CodeFirst(line, [], inside);
    } else {
      var first, rest := lines[0], lines[1..];
      var still := if IsFence(first) then !inside else inside;
      var more := if !IsFence(line) && (inside <==> Fences(lines) % 2 == 0) then [line] else [];
      assert lines == [first] + rest && lines + [line] == [first] + (rest + [line]);
      CodeFirst(first, rest, inside);
      CodeFirst(first, rest + [line], inside);
      FencesFirst(first, rest);
      CodeOneMore(rest, line, still);
      hide *;
      assert Code(rest + [line], still) == Code(rest, still) + more;
      if !IsFence(first) { Regroup(if inside then [first] else [], Code(rest, inside), more); }
    }
  }

  lemma {:induction false} UpToFenceOneMore(lines: seq<string>, line: string)
    ensures UpToFence(lines + [line])
         == if Fences(lines) == 0 && !IsFence(line) then lines + [line] else UpToFence(lines)
    ensures Fences(lines) == 0 ==> UpToFence(lines) == lines
  {
    hide IsFence;
    if lines == [] {
      assert [] + [line] == [line] && [line][1..] == [];
    } else {
      var first, rest := lines[0], lines[1..];
      assert lines == [first] + rest && (lines + [line])[1..] == rest + [line];
      FencesFirst(first, rest);
      UpToFenceOneMore(rest, line);
    }
  }

  lemma {:induction false} HeadOneMore(space: char -> bool, lines: seq<string>, line: string)
    ensures Head(space, lines + [line])
         == if Head(space, lines) == lines && !EndsDescription(space, line) then lines + [line] else Head(space, lines)
    ensures |Head(space, lines)| <= |lines|
  {
    hide EndsDescription;
    if lines == [] {
      assert [] + [line] == [line] && [line][1..] == [];
    } else {
      var first, rest := lines[0], lines[1..];
      assert lines == [first] + rest && (lines + [line])[1..] == rest + [line];
      HeadOneMore(space, rest, line);
      assert Head(space, lines) == lines && !EndsDescription(space, first) ==> Head(space, rest) == lines[1..];
    }
  }

  lemma {:induction false} TextsJoin(space: char -> bool, a: seq<string>, b: seq<string>)
    ensures Texts(space, a + b) == Texts(space, a) + Texts(space, b)
  {
    hide IsText;
    if a == [] {
      assert a + b == b;
    } else {
      var first := if IsText(space, a[0]) then [Trim(space, a[0])] else [];
      TextsJoin(space, a[1..], b);
      assert (a + b)[1..] == a[1..] + b && (a + b)[0] == a[0];
      assert Texts(space, a + b) == first + Texts(space, a[1..] + b);
      assert Texts(space, a) == first + Texts(space, a[1..]);
      hide Texts;
      Regroup(first, Texts(space, a[1..]), Texts(space, b));
    }
  }

  /** A section is closed exactly when a title or separator comes before its first fence. */
  lemma {:induction false} ClosedIff(space: char -> bool, body: seq<string>)
    ensures Closed(space, body) <==> Prose(space, body) != UpToFence(body)
  {
    if body != [] {
      var before, line := body[..|body| - 1], body[|body| - 1];
      ClosedIff(space, before);
      assert body == before + [line];
      BodyStep(space, before, line);
      hide Closed, Fences, IsFence, EndsDescription, Head, UpToFence;
      UpToFenceOneMore(before, line);
      HeadOneMore(space, before, line);
    }
  }

  lemma {:induction false} NoFenceNoCode(lines: seq<string>)
    requires Fences(lines) == 0
    ensures Code(lines, false) == []
  {
    if lines != [] {
      assert lines == [lines[0]] + lines[1..];
      FencesFirst(lines[0], lines[1..]);
      NoFenceNoCode(lines[1..]);
    }
  }

  /** The example is all the code of a section that is not closed early. */
  lemma {:induction false} ExampleIsCode(space: char -> bool, body: seq<string>)
    ensures ExampleLines(space, body) == if Closed(space, body) then [] else Code(body, false)
  {
    if body != [] {
      var before, line := body[..|body| - 1], body[|body| - 1];
      ExampleIsCode(space, before);
      assert body == before + [line];
      BodyStep(space, before, line);
      if Fences(before) == 0 { NoFenceNoCode(before); }
      CodeOneMore(before, line, false);
      hide Closed, Fences, IsFence, EndsDescription, ExampleLines, Code;
    }
  }

  /** The description is all the prose of a section. */
  lemma {:induction false} DescriptionIsProse(space: char -> bool, body: seq<string>)
    ensures DescriptionLines(space, body) == Texts(space, Prose(space, body))
  {
    if body != [] {
      var before, line := body[..|body| - 1], body[|body| - 1];
      DescriptionIsProse(space, before);
      ClosedIff(space, before);
      assert body == before + [line];
      BodyStep(space, before, line);
      UpToFenceOneMore(before, line);
      HeadOneMore(space, before, line);
      TextsJoin(space, before, [line]);
      OneText(space, line);
      hide Closed, Fences, IsFence, EndsDescription, DescriptionLines, Texts, Head, UpToFence, Trim, IsKeywords;
    }
  }

  /** The words of all keyword lines, in order. */
  function KeywordsIn(space: char -> bool, lines: seq<string>): seq<string> {
    if lines == [] then []
    else (if IsKeywords(space, lines[0]) then LineKeywords(space, lines[0]) else []) + KeywordsIn(space, lines[1..])
  }

  lemma {:induction false} KeywordsInOneMore(space: char -> bool, lines: seq<string>, line: string)
    ensures KeywordsIn(space, lines + [line])
         == KeywordsIn(space, lines) + if IsKeywords(space, line) then LineKeywords(space, line) else []
  {
    hide IsKeywords, LineKeywords;
    if lines == [] {
      assert [] + [line] == [line] && [line][1..] == [];
    } else {
      KeywordsInOneMore(space, lines[1..], line);
      assert (lines + [line])[1..] == lines[1..] + [line] && (lines + [line])[0] == lines[0];
      var first := if IsKeywords(space, lines[0]) then LineKeywords(space, lines[0]) else [];
      var last := if IsKeywords(space, line) then LineKeywords(space, line) else [];
      assert KeywordsIn(space, lines + [line]) == first + KeywordsIn(space, lines[1..] + [line]);
      assert KeywordsIn(space, lines) == first + KeywordsIn(space, lines[1..]);
      hide *;
      Regroup(first, KeywordsIn(space, lines[1..]), last);
    }
  }

  /** The keywords of an entry are those of the prose of its section. */
  lemma {:induction false} KeywordsAreOfProse(space: char -> bool, body: seq<string>)
    ensures Keywords(space, body) == KeywordsIn(space, Prose(space, body))
  {
    if body != [] {
      var before, line := body[..|body| - 1], body[|body| - 1];
      KeywordsAreOfProse(space, before);
      ClosedIff(space, before);
      assert body == before + [line];
      BodyStep(space, before, line);
      UpToFenceOneMore(before, line);
      HeadOneMore(space, before, line);
      KeywordsInOneMore(space, before, line);
      hide Closed, Fences, IsFence, EndsDescription, Keywords, KeywordsIn, Head, UpToFence, IsKeywords, LineKeywords;
    }
  }

  lemma OneText(space: char -> bool, line: string)
    ensures Texts(space, [line])
         == if Trim(space, line) != "" && !IsKeywords(space, line) then [Trim(space, line)] else []
  {
    assert [line][1..] == [];
  }

  lemma {:induction false} BlockThenRest(lines: seq<string>)
    ensures Code(lines, true) == UpToFence(lines) + Code(FromFence(lines), false)
  {
    hide IsFence;
    if lines == [] {
    } else if IsFence(lines[0]) {
      assert UpToFence(lines) == [] && FromFence(lines) == lines[1..];
      assert Code(lines, true) == Code(lines[1..], false);
    } else {
      var rest := lines[1..];
      BlockThenRest(rest);
      assert Code(lines, true) == [lines[0]] + Code(rest, true);
      assert UpToFence(lines) == [lines[0]] + UpToFence(rest) && FromFence(lines) == FromFence(rest);
      hide Code, UpToFence, FromFence;
      Regroup([lines[0]], UpToFence(rest), Code(FromFence(rest), false));
    }
  }

  lemma {:induction false} CodeStartsAtFence(lines: seq<string>)
    ensures Code(lines, false) == Code(FromFence(lines), true)
  {
    hide IsFence;
    if lines != [] && !IsFence(lines[0]) { CodeStartsAtFence(lines[1..]); }
  }

  // ----- The first paragraph of the prose is the first paragraph of the section -----

  predicate Plain(space: char -> bool, lines: seq<string>) {
    forall i | 0 <= i < |lines| :: !IsFence(lines[i]) && !EndsDescription(space, lines[i])
  }

  /** Nothing that could continue a paragraph comes first. */
  predicate Breaks(space: char -> bool, rest: seq<string>) {
    rest != [] ==> IsFence(rest[0]) || EndsDescription(space, rest[0])
  }

  lemma {:induction false} UpToFenceSplits(lines: seq<string>) returns (rest: seq<string>)
    ensures lines == UpToFence(lines) + rest && (rest != [] ==> IsFence(rest[0]))
    ensures forall i | 0 <= i < |UpToFence(lines)| :: !IsFence(UpToFence(lines)[i])
  {
    hide IsFence;
    if lines == [] || IsFence(lines[0]) {
      rest := lines;
    } else {
      rest := UpToFenceSplits(lines[1..]);
      assert lines == [lines[0]] + lines[1..];
    }
  }

  lemma {:induction false} HeadSplits(space: char -> bool, lines: seq<string>) returns (rest: seq<string>)
    ensures lines == Head(space, lines) + rest && (rest != [] ==> EndsDescription(space, rest[0]))
    ensures forall i | 0 <= i < |Head(space, lines)| :: !EndsDescription(space, Head(space, lines)[i])
  {
    hide EndsDescription;
    if lines == [] || EndsDescription(space, lines[0]) {
      rest := lines;
    } else {
      rest := HeadSplits(space, lines[1..]);
      assert lines == [lines[0]] + lines[1..];
    }
  }

  /** The prose of a section, and what comes after it. */
  lemma ProseSplits(space: char -> bool, body: seq<string>) returns (rest: seq<string>)
    ensures body == Prose(space, body) + rest && Plain(space, Prose(space, body)) && Breaks(space, rest)
  {
    hide IsFence, EndsDescription, Head, UpToFence;
    var fenced := UpToFenceSplits(body);
    var titled := HeadSplits(space, UpToFence(body));
    rest := titled + fenced;
    var prose := Prose(space, body);
    forall i | 0 <= i < |prose| ensures !IsFence(prose[i]) { assert prose[i] == UpToFence(body)[i]; }
  }

  lemma {:induction false} RunBreaks(space: char -> bool, prose: seq<string>, rest: seq<string>)
    requires Plain(space, prose) && Breaks(space, rest)
    ensures TextRun(space, prose + rest) == TextRun(space, prose)
  {
    hide IsFence, EndsDescription, IsText, IsBlank;
    if prose == [] {
      assert prose + rest == rest;
    } else {
      assert (prose + rest)[1..] == prose[1..] + rest && (prose + rest)[0] == prose[0];
      RunBreaks(space, prose[1..], rest);
    }
  }

  /** What follows the prose counts only if the prose has no text. */
  lemma {:induction false} ParagraphOfProse(space: char -> bool, prose: seq<string>, rest: seq<string>)
    requires Plain(space, prose) && Breaks(space, rest)
    requires Texts(space, prose) != []
    ensures FirstParagraph(space, prose + rest, false) == FirstParagraph(space, prose, false)
  {
    hide IsFence, EndsDescription, IsText, TextRun;
    assert (prose + rest)[1..] == prose[1..] + rest && (prose + rest)[0] == prose[0];
    if IsText(space, prose[0]) {
      RunBreaks(space, prose, rest);
    } else {
      ParagraphOfProse(space, prose[1..], rest);
    }
  }

  lemma RunFirst(space: char -> bool, prose: seq<string>)
    requires prose != [] && Plain(space, prose) && !IsBlank(space, prose[0])
    ensures var first := if IsText(space, prose[0]) then [Trim(space, prose[0])] else [];
            && Plain(space, prose[1..])
            && Texts(space, prose) == first + Texts(space, prose[1..])
            && TextRun(space, prose) == first + TextRun(space, prose[1..])
            && FromBlank(space, prose) == FromBlank(space, prose[1..])
  {
    hide IsFence, EndsDescription, IsText, IsBlank, Trim;
  }

  lemma {:induction false} RunThenRest(space: char -> bool, prose: seq<string>)
    requires Plain(space, prose)
    ensures Texts(space, prose) == TextRun(space, prose) + Texts(space, FromBlank(space, prose))
  {
    if prose != [] && !IsBlank(space, prose[0]) {
      hide *;
      RunFirst(space, prose);
      RunThenRest(space, prose[1..]);
      var first := if IsText(space, prose[0]) then [Trim(space, prose[0])] else [];
      Regroup(first, TextRun(space, prose[1..]), Texts(space, FromBlank(space, prose[1..])));
    }
  }

  /** The texts of the prose are its first paragraph, which it has if it has any text, and the rest. */
  lemma {:induction false} ParagraphThenRest(space: char -> bool, prose: seq<string>)
    requires Plain(space, prose)
    ensures Texts(space, prose)
         == FirstParagraph(space, prose, false) + Texts(space, FromBlank(space, FromText(space, prose)))
    ensures Texts(space, prose) != [] ==> FirstParagraph(space, prose, false) != []
  {
    hide IsFence, EndsDescription, IsText, TextRun, Trim;
    if prose != [] && IsText(space, prose[0]) {
      RunThenRest(space, prose);
      RunHasText(space, prose);
    } else if prose != [] {
      ParagraphThenRest(space, prose[1..]);
    }
  }

  lemma RunHasText(space: char -> bool, lines: seq<string>)
    requires lines != [] && IsText(space, lines[0]) && !IsFence(lines[0]) && !EndsDescription(space, lines[0])
    ensures TextRun(space, lines) != [] && TextRun(space, lines)[0] == Trim(space, lines[0])
  {
  }

  /** Every text is a trimmed line that is not blank. */
  predicate Solid(space: char -> bool, texts: seq<string>) {
    forall i | 0 <= i < |texts| :: !AllSpace(space, texts[i])
  }

  lemma TextIsSolid(space: char -> bool, line: string)
    requires IsText(space, line)
    ensures !AllSpace(space, Trim(space, line))
  {
    TrimIsBlankIff(space, line);
  }

  lemma {:induction false} TextsAreSolid(space: char -> bool, lines: seq<string>)
    ensures Solid(space, Texts(space, lines)) && Solid(space, TextRun(space, lines))
  {
    hide IsFence, EndsDescription, IsText, IsBlank, AllSpace, Trim;
    if lines != [] {
      TextsAreSolid(space, lines[1..]);
      if IsText(space, lines[0]) { TextIsSolid(space, lines[0]); }
    }
  }

  lemma {:induction false} ParagraphIsSolid(space: char -> bool, lines: seq<string>, inside: bool)
    ensures Solid(space, FirstParagraph(space, lines, inside))
  {
    hide IsFence, EndsDescription, IsText, TextRun, AllSpace;
    TextsAreSolid(space, lines);
    if lines != [] {
      ParagraphIsSolid(space, lines[1..], inside);
      ParagraphIsSolid(space, lines[1..], !inside);
    }
  }

  // ----- Against the documentation -----

  /** The joined lines of an entry, trimmed. */
  function Trimmed(space: char -> bool, lines: seq<string>, sep: string): string { Trim(space, Join(lines, sep)) }

  /** More lines show in the joined and trimmed text exactly when they hold more than white space. */
  lemma MoreLinesShow(space: char -> bool, a: seq<string>, b: seq<string>, sep: string)
    ensures Trimmed(space, a + b, sep) == Trimmed(space, a, sep) ==> AllBlank(space, b)
    ensures AllSpace(space, sep) && AllBlank(space, b) ==> Trimmed(space, a + b, sep) == Trimmed(space, a, sep)
    ensures b == [] ==> Trimmed(space, a + b, sep) == Trimmed(space, a, sep)
  {
    hide AllSpace;
    JoinIsBlankIff(space, b, sep);
    if b == [] {
      assert a + b == a;
    } else if a == [] {
      assert a + b == b;
      TrimIsBlankIff(space, Join(b, sep));
      assert Trimmed(space, a, sep) == "";
    } else {
      JoinBoth(a, b, sep);
      assert Join(a + b, sep) == Join(a, sep) + (sep + Join(b, sep));
      TrimOver(space, Join(a, sep), sep + Join(b, sep));
      AllSpaceBoth(space, sep, Join(b, sep));
    }
  }

  lemma EntryTexts(space: char -> bool, domain: string, s: Section, k: nat)
    requires k < |SectionEntries(space, domain, s)|
    ensures SectionEntries(space, domain, s)[k].description == Trimmed(space, DescriptionLines(space, s.body), " ")
    ensures SectionEntries(space, domain, s)[k].example == Trimmed(space, ExampleLines(space, s.body), "\n")
  {
  }

  /** The other fields of the k-th entry of a section. */
  lemma EntryRest(space: char -> bool, domain: string, s: Section, k: nat)
    requires k < |SectionEntries(space, domain, s)|
    ensures |SectionEntries(space, domain, s)| == |NamesIn(s.heading)|
    ensures SectionEntries(space, domain, s)[k].name == NamesIn(s.heading)[k]
    ensures SectionEntries(space, domain, s)[k].domain == domain
    ensures SectionEntries(space, domain, s)[k].keywords == KeywordsIn(space, Prose(space, s.body))
  {
    KeywordsAreOfProse(space, s.body);
    hide KeywordsIn, Prose, Keywords, NamesIn, DescriptionOf, ExampleOf;
  }

  /** The documentation promises the first code block as the example. That is what the entry holds
      exactly when no code after the block is more than blank, or, if the section is closed early,
      when the block itself is not. */
  lemma ExampleIsFirstBlockIff(space: char -> bool, domain: string, s: Section, k: nat)
    requires k < |SectionEntries(space, domain, s)| && space('\n')
    ensures SectionEntries(space, domain, s)[k].example == Trimmed(space, FirstBlock(s.body), "\n")
       <==> AllBlank(space, if Closed(space, s.body) then FirstBlock(s.body) else LaterCode(s.body))
  {
    assert AllSpace(space, "\n");
    hide *;
    var body := s.body;
    EntryTexts(space, domain, s, k);
    ExampleIsCode(space, body);
    if Closed(space, body) {
      MoreLinesShow(space, [], FirstBlock(body), "\n");
      assert [] + FirstBlock(body) == FirstBlock(body);
    } else {
      CodeIsBlocks(body);
      MoreLinesShow(space, FirstBlock(body), LaterCode(body), "\n");
    }
  }

  lemma CodeIsBlocks(body: seq<string>)
    ensures Code(body, false) == FirstBlock(body) + LaterCode(body)
  {
    CodeStartsAtFence(body);
    BlockThenRest(FromFence(body));
  }

  lemma SolidIsNotBlank(space: char -> bool, texts: seq<string>)
    requires Solid(space, texts)
    ensures AllBlank(space, texts) <==> texts == []
  {
    hide AllSpace;
    if texts != [] { assert !AllSpace(space, texts[0]); }
  }

  /** It promises the first paragraph as the description. If there is text before any fence, title or
      separator, that is what the entry holds exactly when that text is one paragraph: later ones are
      joined to it. Otherwise the entry's description is empty, so it is what is promised exactly when
      the section has no paragraph anywhere. */
  lemma DescriptionIsFirstParagraphIff(space: char -> bool, domain: string, s: Section, k: nat)
    requires k < |SectionEntries(space, domain, s)|
    ensures SectionEntries(space, domain, s)[k].description == Trimmed(space, FirstParagraph(space, s.body, false), " ")
       <==> if Texts(space, Prose(space, s.body)) != [] then Texts(space, LaterProse(space, s.body)) == []
            else FirstParagraph(space, s.body, false) == []
  {
    hide *;
    var body, prose, first := s.body, Prose(space, s.body), FirstParagraph(space, s.body, false);
    EntryTexts(space, domain, s, k);
    DescriptionIsProse(space, body);
    var rest := ProseSplits(space, body);
    if Texts(space, prose) != [] {
      ParagraphOfProse(space, prose, rest);
      ParagraphThenRest(space, prose);
      LaterProseIs(space, body);
      TextsAreSolid(space, LaterProse(space, body));
      SolidIsNotBlank(space, Texts(space, LaterProse(space, body)));
      MoreLinesShow(space, first, Texts(space, LaterProse(space, body)), " ");
    } else {
      ParagraphIsSolid(space, body, false);
      SolidIsNotBlank(space, first);
      MoreLinesShow(space, [], first, " ");
      assert [] + first == first;
    }
  }

  lemma LaterProseIs(space: char -> bool, body: seq<string>)
    ensures LaterProse(space, body) == FromBlank(space, FromText(space, Prose(space, body)))
  {
  }

  /** The section of `cronValid`: a title comes before the paragraph, and neither the paragraph nor any
      code gets into the entry. */
  lemma TextUnderATitleIsLost(space: char -> bool, domain: string, heading: string, title: string, text: string,
                              rest: seq<string>, k: nat)
    requires HasPrefix(title, "## ")
    requires IsText(space, text) && !IsFence(text) && !EndsDescription(space, text)
    requires k < |SectionEntries(space, domain, Section(heading, ["", title, "", text] + rest))|
    ensures var body := ["", title, "", text] + rest;
            var entry := SectionEntries(space, domain, Section(heading, body))[k];
            && entry.description == "" && entry.example == ""
            && FirstParagraph(space, body, false) != []
            && entry.description != Trimmed(space, FirstParagraph(space, body, false), " ")
  {
    var body := ["", title, "", text] + rest;
    var s := Section(heading, body);
    assert Trim(space, "") == "" && Trimmed(space, [], " ") == "" && Trimmed(space, [], "\n") == "";
    assert !IsFence("") && !EndsDescription(space, "") && !IsText(space, "");
    assert title[0] == '#' && !IsFence(title) && EndsDescription(space, title);
    EntryTexts(space, domain, s, k);
    ExampleIsCode(space, body);
    DescriptionIsProse(space, body);
    ClosedIff(space, body);
    DescriptionIsFirstParagraphIff(space, domain, s, k);
    hide *;
    TitledBody(space, title, text, rest);
  }

  lemma TitledBody(space: char -> bool, title: string, text: string, rest: seq<string>)
    requires !IsFence("") && !EndsDescription(space, "") && !IsText(space, "")
    requires !IsFence(title) && EndsDescription(space, title)
    requires IsText(space, text) && !IsFence(text) && !EndsDescription(space, text)
    ensures var body := ["", title, "", text] + rest;
            && Prose(space, body) == [""] && Texts(space, [""]) == [] && UpToFence(body) != [""]
            && FirstParagraph(space, body, false) != []
  {
    hide IsFence, EndsDescription, IsText, TextRun, Trim;
    var body := ["", title, "", text] + rest;
    var three, two, one := [title, "", text] + rest, ["", text] + rest, [text] + rest;
    assert body[1..] == three && three[1..] == two && two[1..] == one;
    assert UpToFence(three) == [title] + UpToFence(two);
    assert UpToFence(body) == [""] + UpToFence(three);
    assert Head(space, UpToFence(three)) == [];
    assert UpToFence(body)[1..] == UpToFence(three);
    assert Head(space, UpToFence(body)) == [""] + [];
    assert [""][1..] == [];
    RunHasText(space, one);
    assert FirstParagraph(space, two, false) == TextRun(space, one);
    assert FirstParagraph(space, three, false) == TextRun(space, one);
  }

  /** Text below the code, and none above it: the entry has no description. */
  lemma TextBelowTheCodeIsLost(space: char -> bool, domain: string, heading: string, code: string, text: string,
                               rest: seq<string>, k: nat)
    requires !IsFence(code)
    requires IsText(space, text) && !IsFence(text) && !EndsDescription(space, text)
    requires k < |SectionEntries(space, domain, Section(heading, ["```", code, "```", text] + rest))|
    ensures var body := ["```", code, "```", text] + rest;
            var entry := SectionEntries(space, domain, Section(heading, body))[k];
            && entry.description == "" && FirstParagraph(space, body, false) != []
            && entry.description != Trimmed(space, FirstParagraph(space, body, false), " ")
  {
    var body := ["```", code, "```", text] + rest;
    var s := Section(heading, body);
    assert Trim(space, "") == "" && Trimmed(space, [], " ") == "";
    assert IsFence("```");
    hide *;
    EntryTexts(space, domain, s, k);
    DescriptionIsProse(space, body);
    DescriptionIsFirstParagraphIff(space, domain, s, k);
    FencedBody(space, code, text, rest);
  }

  lemma FencedBody(space: char -> bool, code: string, text: string, rest: seq<string>)
    requires IsFence("```") && !IsFence(code)
    requires IsText(space, text) && !IsFence(text) && !EndsDescription(space, text)
    ensures var body := ["```", code, "```", text] + rest;
            && Prose(space, body) == [] && Texts(space, []) == [] && FirstParagraph(space, body, false) != []
  {
    hide IsFence, EndsDescription, IsText, TextRun, Trim;
    var body := ["```", code, "```", text] + rest;
    var three, two, one := [code, "```", text] + rest, ["```", text] + rest, [text] + rest;
    assert body[1..] == three && three[1..] == two && two[1..] == one;
    assert UpToFence(body) == [];
    RunHasText(space, one);
    assert FirstParagraph(space, two, true) == TextRun(space, one);
    assert FirstParagraph(space, three, true) == TextRun(space, one);
  }

  /** Two paragraphs become one description. */
  lemma SecondParagraphJoins(space: char -> bool, a: string, b: string)
    requires IsText(space, a) && IsText(space, b) && !IsFence(a) && !IsFence(b)
    requires !EndsDescription(space, a) && !EndsDescription(space, b)
    ensures DescriptionLines(space, [a] + [""] + [b]) == [Trim(space, a), Trim(space, b)]
  {
    var body := [a] + [""] + [b];
    DescriptionIsProse(space, body);
    assert Trim(space, "") == "" && !IsFence("") && !EndsDescription(space, "") && !IsText(space, "");
    OneText(space, b);
    hide IsFence, EndsDescription, IsText, Trim;
    assert body[1..] == [""] + [b] && body[1..][1..] == [b] && [b][1..] == [];
    assert UpToFence([b]) == [b] && Head(space, [b]) == [b] && Texts(space, [b]) == [Trim(space, b)];
    assert UpToFence(body[1..]) == body[1..] && Head(space, body[1..]) == body[1..]
             && Texts(space, body[1..]) == [Trim(space, b)];
    assert UpToFence(body) == body && Head(space, body) == body;
  }

  // ----- Quoting names in a heading -----

  predicate Quotable(names: seq<string>) {
    forall i | 0 <= i < |names| :: names[i] != "" && '`' !in names[i]
  }

  /** A heading that quotes names one after the other. */
  function Quote(names: seq<string>, sep: string): string {
    if names == [] then "" else "`" + names[0] + "`" + sep + Quote(names[1..], sep)
  }

  lemma {:induction false} RunOverName(name: string, rest: string)
    requires '`' !in name
    ensures Run(name + "`" + rest) == |name|
  {
    if name != "" {
      RunOverName(name[1..], rest);
      assert (name + "`" + rest)[1..] == name[1..] + "`" + rest;
    }
  }

  lemma {:induction false} SkipSeparator(sep: string, rest: string)
    requires '`' !in sep
    ensures Quoted(sep + rest) == Quoted(rest)
  {
    if sep == "" {
      assert sep + rest == rest;
    } else {
      SkipSeparator(sep[1..], rest);
      assert (sep + rest)[1..] == sep[1..] + rest;
    }
  }

  lemma QuotedPiece(name: string, rest: string)
    requires name != "" && '`' !in name
    ensures Quoted("`" + name + "`" + rest) == [name] + Quoted(rest)
  {
    RunOverName(name, rest);
    hide Run;
    var s := "`" + name + "`" + rest;
    assert s[1..] == name + "`" + rest;
    assert s[1..|name| + 1] == name && s[|name| + 2..] == rest;
  }

  /** The pieces found are the pieces quoted. */
  lemma {:induction false} QuotedUndoesQuote(names: seq<string>, sep: string)
    requires Quotable(names) && '`' !in sep
    ensures Quoted(Quote(names, sep)) == names
  {
    if names != [] {
      var rest := Quote(names[1..], sep);
      QuotedUndoesQuote(names[1..], sep);
      assert Quote(names, sep) == "`" + names[0] + "`" + (sep + rest);
      hide Quoted, Quote;
      SkipSeparator(sep, rest);
      QuotedPiece(names[0], sep + rest);
    }
  }

  lemma {:induction false} AllFunctionNames(names: seq<string>)
    requires forall i | 0 <= i < |names| :: FunctionName(names[i])
    ensures FunctionNames(names) == names
  {
    hide FunctionName;
    if names != [] {
      AllFunctionNames(names[..|names| - 1]);
    }
  }

  lemma HeadingText(text: string)
    requires text != "" && !RegexSpace(text[0])
    ensures Heading("### " + text) == Some(text)
  {
    var line := "### " + text;
    assert line[3..] == " " + text && (" " + text)[1..] == text;
    assert Spaces(text) == 0;
    assert Spaces(" " + text) == 1;
  }

  /** A heading that documents function names, each in backticks, yields exactly these names. */
  lemma HeadingNamesRoundTrip(names: seq<string>, sep: string)
    requires Quotable(names) && '`' !in sep && forall i | 0 <= i < |names| :: FunctionName(names[i])
    ensures names != [] ==> NamesIn("### " + Quote(names, sep)) == names
  {
    if names != [] {
      assert Quote(names, sep)[0] == '`';
      QuotedUndoesQuote(names, sep);
      AllFunctionNames(names);
      hide Quoted, Quote, FunctionNames, Heading;
      HeadingText(Quote(names, sep));
    }
  }
}
