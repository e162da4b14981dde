/** The parts of services/document_service.py that decide what a document
    says: the text preview, the title cleaning of the file name, how section
    content becomes paragraphs, and the section and table-of-contents
    numbering. The Word document is modelled by the sequence of items the
    source adds to it, in order. */
module DocumentService {
  import opened Text
  import opened OrderedDict
  import opened Options

  /** The paragraph styles the source uses. */
  datatype Style = Plain | ListBullet | ListNumber

  /** What `add_heading`, `add_paragraph` and `add_page_break` add. */
  datatype Item =
    | Heading(text: string, level: nat)
    | Paragraph(text: string, style: Style)
    | PageBreak

  const Placeholder: string := "[Content to be developed]"

  // ---------------------------------------------------------------------------
  // get_document_preview

  const PreviewTitle: string := "=== BRD DOCUMENT PREVIEW ===\n"

  /** `c * n` for one character. */
  function Repeat(c: char, n: nat): (r: string)
    ensures |r| == n
    ensures forall i {:trigger r[i]} :: 0 <= i < n ==> r[i] == c
  {
    seq(n, _ => c)
  }

  /** `"\n" + "-" * 50 + "\n"` */
  const Rule: string := "\n" + Repeat('-', 50) + "\n"

  /** The shown content: the placeholder for an empty section, otherwise the
      first 200 characters followed by `...` when there are more. */
  function PreviewContent(content: string): (r: string)
    ensures content == "" ==> r == Placeholder
    ensures 0 < |content| <= 200 ==> r == content
    ensures |content| > 200 ==> |r| == 203 && r[..200] == content[..200] && r[200..] == "..."
    ensures |r| <= 203
  {
    if content == "" then Placeholder
    else if |content| > 200 then content[..200] + "..."
    else content
  }

  /** The three preview lines of one section. */
  function PreviewBlock(name: string, content: string): seq<string> {
    ["## " + name, PreviewContent(content), Rule]
  }

  /** `preview_lines`: the title, then three lines per section in order. */
  function PreviewLines(sections: Dict<string>): (r: seq<string>)
    ensures |r| == 1 + 3 * |sections|
    ensures r[0] == PreviewTitle
    ensures forall i {:trigger sections[i]} :: 0 <= i < |sections| ==>
      r[3 * i + 1] == "## " + sections[i].0 &&
      r[3 * i + 2] == PreviewContent(sections[i].1) &&
      r[3 * i + 3] == Rule
    decreases |sections|
  {
    if sections == [] then [PreviewTitle]
    else
      var init := sections[..|sections| - 1];
      var last := sections[|sections| - 1];
      PreviewLines(init) + PreviewBlock(last.0, last.1)
  }

  /** `get_document_preview` */
  method GetDocumentPreview(sections: Dict<string>) returns (preview: string)
    ensures preview == Join(PreviewLines(sections), "\n")
  {
    var lines := [PreviewTitle];
    var i := 0;
    while i < |sections|
      invariant i <= |sections|
      invariant lines == PreviewLines(sections[..i])
    {
      var (name, content) := sections[i];
      lines := lines + ["## " + name];
      var shown;
      if content != "" {
        shown := if |content| > 200 then content[..200] + "..." else content;
      } else {
        shown := Placeholder;
      }
      lines := lines + [shown];
      lines := lines + [Rule];
      assert sections[..i + 1][..i] == sections[..i];
      i := i + 1;
    }
    assert sections[..i] == sections;
    preview := Join(lines, "\n");
  }

  // ---------------------------------------------------------------------------
  // _generate_filename

  /** The characters the title keeps: alphanumerics, space, `-` and `_`. */
  predicate TitleChar(c: char) {
    IsAlnum(c) || c == ' ' || c == '-' || c == '_'
  }

  function KeepTitleChars(s: string): (r: string)
    ensures |r| <= |s|
    ensures forall c :: c in r <==> c in s && TitleChar(c)
    decreases |s|
  {
    if s == [] then []
    else
      assert forall c :: c in s <==> c == s[0] || c in s[1..];
      (if TitleChar(s[0]) then [s[0]] else []) + KeepTitleChars(s[1..])
  }

  /** The cleaned title: other characters dropped, trailing spaces removed,
      the remaining spaces turned into `_`. */
  function CleanTitle(title: string): (r: string)
    ensures |r| <= |title|
    ensures forall c :: c in r ==> IsAlnum(c) || c == '-' || c == '_'
    ensures forall c :: c in r ==> c in title || c == '_'
  {
    var kept := KeepTitleChars(title);
    var trimmed := RStrip(kept);
    var r := ReplaceChar(trimmed, ' ', '_');
    forall c | c in r ensures (IsAlnum(c) || c == '-' || c == '_') && (c in title || c == '_') {
      var i :| 0 <= i < |r| && r[i] == c;
      assert trimmed[i] in kept;
    }
    r
  }

  /** Keeping the title characters of a string made only of them changes nothing. */
  lemma {:induction false} KeepAllTitleChars(s: string)
    requires forall c :: c in s ==> TitleChar(c)
    ensures KeepTitleChars(s) == s
    decreases |s|
  {
    if s != [] {
      assert forall c :: c in s[1..] ==> c in s;
      KeepAllTitleChars(s[1..]);
    }
  }

  /** Cleaning a cleaned title changes nothing. */
  lemma CleanTitleIdempotent(title: string)
    ensures CleanTitle(CleanTitle(title)) == CleanTitle(title)
  {
    CleanTitleFixed(CleanTitle(title));
  }

  /** A string of letters, digits, `-` and `_` is its own cleaned title. */
  lemma CleanTitleFixed(t: string)
    requires forall c :: c in t ==> IsAlnum(c) || c == '-' || c == '_'
    ensures CleanTitle(t) == t
  {
    KeepAllTitleChars(t);
    assert t == [] || !IsSpace(t[|t| - 1]) by {
      if t != [] {
        assert t[|t| - 1] in t;
      }
    }
    assert RStrip(t) == t;
    assert ReplaceChar(t, ' ', '_') == t by {
      forall i | 0 <= i < |t| ensures t[i] != ' ' {
        assert t[i] in t;
      }
    }
  }

  /** `f"BRD_{domain}_{clean_title}_{timestamp}.docx"`; the clock reading is
      the `timestamp` parameter. */
  function Filename(title: string, domain: string, timestamp: string): (r: string)
    ensures |r| >= 10 && r[..4] == "BRD_" && r[|r| - 5..] == ".docx"
    ensures ' ' !in domain && ' ' !in timestamp ==> ' ' !in r
  {
    var r := "BRD_" + domain + "_" + CleanTitle(title) + "_" + timestamp + ".docx";
    assert r[..4] == "BRD_";
    assert r[|r| - 5..] == ".docx";
    r
  }

  // ---------------------------------------------------------------------------
  // _add_brd_sections: content lines

  predicate IsBulletMark(c: char) {
    c == '-' || c == '*'
  }

  /** A digit first and a `.` among the first three characters. */
  predicate NumberedLine(line: string) {
    line != "" && IsDigit(line[0]) && '.' in Take(line, 3)
  }

  /** The paragraph one content line becomes, if any: blank lines are skipped,
      a `-` or `*` line is a bullet without its mark, a numbered line keeps
      its number. */
  function ClassifyLine(raw: string): (r: Option<Item>)
    ensures r == None <==> Strip(raw) == ""
    ensures r.Some? ==> r.value.Paragraph?
    ensures (r.Some? && r.value.style == ListBullet) <==>
      (Strip(raw) != "" && IsBulletMark(Strip(raw)[0]))
    ensures (r.Some? && r.value.style == ListNumber) <==>
      (NumberedLine(Strip(raw)) && !IsBulletMark(Strip(raw)[0]))
    ensures r.Some? && r.value.style == ListBullet ==> r.value.text == Strip(Strip(raw)[1..])
    ensures r.Some? && r.value.style != ListBullet ==> r.value.text == Strip(raw)
  {
    var line := Strip(raw);
    if line == "" then None
    else if IsBulletMark(line[0]) then Some(Paragraph(Strip(line[1..]), ListBullet))
    else if IsDigit(line[0]) && '.' in Take(line, 3) then Some(Paragraph(line, ListNumber))
    else Some(Paragraph(line, Plain))
  }

  /** Every paragraph made from a line is stripped; only a bullet can be empty,
      and its text is shorter than the line. */
  lemma ClassifiedIsStripped(raw: string)
    requires ClassifyLine(raw).Some?
    ensures Strip(ClassifyLine(raw).value.text) == ClassifyLine(raw).value.text
    ensures ClassifyLine(raw).value.text == "" ==> ClassifyLine(raw).value.style == ListBullet
    ensures |ClassifyLine(raw).value.text| <= |Strip(raw)|
  {
    var line := Strip(raw);
    if IsBulletMark(line[0]) {
      StripIdempotent(line[1..]);
      assert ClassifyLine(raw).value == Paragraph(Strip(line[1..]), ListBullet);
    } else {
      StripIdempotent(raw);
      assert ClassifyLine(raw).value.text == line;
    }
  }

  lemma StripIdempotent(s: string)
    ensures Strip(Strip(s)) == Strip(s)
  {
    StripNoOp(Strip(s));
  }

  /** The paragraph of one line, as a sequence of zero or one items. */
  function LineItems(raw: string): (r: seq<Item>)
    ensures |r| <= 1
  {
    match ClassifyLine(raw)
    case None => []
    case Some(p) => [p]
  }

  /** The paragraphs of the non-blank lines, in order. */
  function Classified(lines: seq<string>): (r: seq<Item>)
    ensures |r| <= |lines|
    ensures forall i {:trigger r[i]} :: 0 <= i < |r| ==> r[i].Paragraph?
    decreases |lines|
  {
    if lines == [] then []
    else Classified(lines[..|lines| - 1]) + LineItems(lines[|lines| - 1])
  }

  /** The paragraphs of one section's content: one placeholder when it is empty. */
  function ContentItems(content: string): (r: seq<Item>)
    ensures content == "" ==> r == [Paragraph(Placeholder, Plain)]
    ensures forall i {:trigger r[i]} :: 0 <= i < |r| ==> r[i].Paragraph?
  {
    if content == "" then [Paragraph(Placeholder, Plain)] else Classified(Split(content, '\n'))
  }

  /** Lines that are all blank make no paragraph. */
  lemma {:induction false} BlankLinesClassifyEmpty(lines: seq<string>)
    requires forall l :: l in lines ==> Strip(l) == ""
    ensures Classified(lines) == []
    decreases |lines|
  {
    if lines != [] {
      assert lines[|lines| - 1] in lines;
      BlankLinesClassifyEmpty(lines[..|lines| - 1]);
    }
  }

  /** Content made only of whitespace is not empty, so it gets no placeholder,
      and each of its lines is blank, so it gets no paragraph at all. */
  lemma WhitespaceContentHasNoParagraph(content: string)
    requires content != "" && Strip(content) == ""
    ensures ContentItems(content) == []
  {
    var lines := Split(content, '\n');
    SplitChars(content, '\n');
    forall l | l in lines ensures Strip(l) == "" {
      forall i | 0 <= i < |l| ensures IsSpace(l[i]) {
        assert l[i] in l;
        assert l[i] in content;
        var j :| 0 <= j < |content| && content[j] == l[i];
      }
    }
    BlankLinesClassifyEmpty(lines);
  }

  // ---------------------------------------------------------------------------
  // _add_brd_sections: numbering

  /** `f"{n}. {name}"` */
  function NumberedName(n: nat, name: string): string {
    NatToString(n) + ". " + name
  }

  /** The items of section number `n`: its heading, its paragraphs and an
      empty spacing paragraph. */
  function SectionBlock(n: nat, name: string, content: string): seq<Item> {
    [Heading(NumberedName(n, name), 1)] + ContentItems(content) + [Paragraph("", Plain)]
  }

  /** The items `_add_brd_sections` adds, sections numbered from 1 in order. */
  function SectionItems(sections: Dict<string>): seq<Item>
    decreases |sections|
  {
    if sections == [] then []
    else
      var last := sections[|sections| - 1];
      SectionItems(sections[..|sections| - 1]) + SectionBlock(|sections|, last.0, last.1)
  }

  /** The texts of the headings among `items`, in order. */
  function Headings(items: seq<Item>): seq<string>
    decreases |items|
  {
    if items == [] then []
    else
      var last := items[|items| - 1];
      Headings(items[..|items| - 1]) + (if last.Heading? then [last.text] else [])
  }

  lemma {:induction false} HeadingsAppend(a: seq<Item>, b: seq<Item>)
    ensures Headings(a + b) == Headings(a) + Headings(b)
    decreases |b|
  {
    if b == [] {
      assert a + b == a;
    } else {
      var ab := a + b;
      var b' := b[..|b| - 1];
      assert ab[..|ab| - 1] == a + b';
      assert ab[|ab| - 1] == b[|b| - 1];
      HeadingsAppend(a, b');
    }
  }

  lemma {:induction false} NoHeadings(items: seq<Item>)
    requires forall i {:trigger items[i]} :: 0 <= i < |items| ==> items[i].Paragraph?
    ensures Headings(items) == []
    decreases |items|
  {
    if items != [] {
      var init := items[..|items| - 1];
      assert forall i {:trigger init[i]} :: 0 <= i < |init| ==> init[i] == items[i];
      NoHeadings(init);
    }
  }

  /** `f"{i}. {name}"` for every name, numbered from 1. */
  function NumberedNames(names: seq<string>): (r: seq<string>)
    ensures |r| == |names|
    ensures forall i {:trigger r[i]} :: 0 <= i < |names| ==> r[i] == NumberedName(i + 1, names[i])
  {
    seq(|names|, i requires 0 <= i < |names| => NumberedName(i + 1, names[i]))
  }

  /** The section headings are the section names numbered 1 to n in
      dictionary order, and no content line ever becomes a heading. */
  lemma {:induction false} SectionHeadingsNumbered(sections: Dict<string>)
    ensures Headings(SectionItems(sections)) == NumberedNames(Keys(sections))
    decreases |sections|
  {
    if sections != [] {
      var init := sections[..|sections| - 1];
      var last := sections[|sections| - 1];
      SectionHeadingsNumbered(init);
      BlockHeadings(|sections|, last.0, last.1);
      HeadingsAppend(SectionItems(init), SectionBlock(|sections|, last.0, last.1));
      KeysInit(sections);
      NumberedNamesAppend(Keys(init), last.0);
    }
  }

  /** A section block has exactly one heading. */
  lemma BlockHeadings(n: nat, name: string, content: string)
    ensures Headings(SectionBlock(n, name, content)) == [NumberedName(n, name)]
  {
    var h := [Heading(NumberedName(n, name), 1)];
    var c := ContentItems(content);
    NoHeadings(c);
    HeadingsAppend(h, c);
    HeadingsAppend(h + c, [Paragraph("", Plain)]);
    assert Headings(h) == [NumberedName(n, name)] by {
      assert h[..0] == [];
    }
    assert Headings([Paragraph("", Plain)]) == [];
  }

  lemma KeysInit(d: Dict<string>)
    requires d != []
    ensures Keys(d) == Keys(d[..|d| - 1]) + [d[|d| - 1].0]
  {
  }

  lemma NumberedNamesAppend(names: seq<string>, name: string)
    ensures NumberedNames(names + [name]) == NumberedNames(names) + [NumberedName(|names| + 1, name)]
  {
  }

  /** The paragraphs of a section are those of its content and one spacer. */
  lemma SectionBlockSize(n: nat, name: string, content: string)
    ensures |SectionBlock(n, name, content)| == |ContentItems(content)| + 2
    ensures content == "" ==> SectionBlock(n, name, content)[1] == Paragraph(Placeholder, Plain)
  {
  }

  /** `_add_brd_sections`: the running `section_number` is the position of
      the section plus one. */
  method AddBrdSections(sections: Dict<string>) returns (items: seq<Item>)
    ensures items == SectionItems(sections)
  {
    items := [];
    var sectionNumber := 1;
    var i := 0;
    while i < |sections|
      invariant i <= |sections|
      invariant sectionNumber == i + 1
      invariant items == SectionItems(sections[..i])
    {
      var block := AddSection(sectionNumber, sections[i].0, sections[i].1);
      items := items + block;
      assert sections[..i + 1][..i] == sections[..i];
      sectionNumber := sectionNumber + 1;
      i := i + 1;
    }
    assert sections[..i] == sections;
  }

  /** The paragraphs of one section's content, line by line. */
  method AddContent(content: string) returns (items: seq<Item>)
    ensures items == ContentItems(content)
  {
    if content == "" {
      return [Paragraph(Placeholder, Plain)];
    }
    var paragraphs := Split(content, '\n');
    items := [];
    var i := 0;
    while i < |paragraphs|
      invariant i <= |paragraphs|
      invariant items == Classified(paragraphs[..i])
    {
      var added := AddLine(paragraphs[i]);
      items := items + added;
      ClassifiedNext(paragraphs, i);
      i := i + 1;
    }
    WholePrefix(paragraphs);
  }

  /** The paragraph one content line adds, if any. */
  method AddLine(raw: string) returns (added: seq<Item>)
    ensures added == LineItems(raw)
  {
    var line := Strip(raw);
    added := [];
    if line != "" {
      if IsBulletMark(line[0]) {
        added := [Paragraph(Strip(line[1..]), ListBullet)];
      } else if IsDigit(line[0]) && '.' in Take(line, 3) {
        added := [Paragraph(line, ListNumber)];
      } else {
        added := [Paragraph(line, Plain)];
      }
    }
  }

  /** The items of one section: heading, content paragraphs and spacer. */
  method AddSection(sectionNumber: nat, name: string, content: string) returns (block: seq<Item>)
    ensures block == SectionBlock(sectionNumber, name, content)
  {
    block := [Heading(NumberedName(sectionNumber, name), 1)];
    var body := AddContent(content);
    block := block + body;
    block := block + [Paragraph("", Plain)];
  }

  lemma ClassifiedNext(lines: seq<string>, i: nat)
    requires i < |lines|
    ensures Classified(lines[..i + 1]) == Classified(lines[..i]) + LineItems(lines[i])
  {
    assert lines[..i + 1][..i] == lines[..i];
  }

  lemma WholePrefix<T>(xs: seq<T>)
    ensures xs[..|xs|] == xs
  {
  }

  // ---------------------------------------------------------------------------
  // _add_table_of_contents

  /** The numbered entries of the table of contents. */
  function TocEntries(names: seq<string>): (r: seq<Item>)
    ensures |r| == |names|
    ensures forall i {:trigger r[i]} :: 0 <= i < |names| ==> r[i] == Paragraph(NumberedName(i + 1, names[i]), ListNumber)
  {
    seq(|names|, i requires 0 <= i < |names| => Paragraph(NumberedName(i + 1, names[i]), ListNumber))
  }

  /** The items `_add_table_of_contents` adds. */
  function TocItems(names: seq<string>): seq<Item> {
    [Heading("Table of Contents", 1)] + TocEntries(names) + [PageBreak]
  }

  /** `_add_table_of_contents`, numbering with `enumerate(sections, 1)`. */
  method AddTableOfContents(names: seq<string>) returns (items: seq<Item>)
    ensures items == TocItems(names)
  {
    items := [Heading("Table of Contents", 1)];
    var i := 1;
    while i <= |names|
      invariant 1 <= i <= |names| + 1
      invariant items == [Heading("Table of Contents", 1)] + TocEntries(names[..i - 1])
    {
      items := items + [Paragraph(NumberedName(i, names[i - 1]), ListNumber)];
      assert TocEntries(names[..i]) == TocEntries(names[..i - 1]) + [Paragraph(NumberedName(i, names[i - 1]), ListNumber)];
      i := i + 1;
    }
    assert names[..i - 1] == names;
    items := items + [PageBreak];
  }

  /** Entry i of the table of contents reads exactly like the heading of
      section i: both are numbered from 1 in dictionary order. */
  lemma TocMatchesHeadings(sections: Dict<string>)
    ensures |TocEntries(Keys(sections))| == |Headings(SectionItems(sections))| == |sections|
    ensures forall i :: 0 <= i < |sections| ==>
      TocEntries(Keys(sections))[i].text == Headings(SectionItems(sections))[i]
  {
    SectionHeadingsNumbered(sections);
  }

  // ---------------------------------------------------------------------------
  // export_to_pdf

  /** PDF export is not implemented: the path comes back as given. */
  function ExportToPdf(docxPath: string): (r: string)
    ensures r == docxPath
  {
    docxPath
  }
}
