/** The section parser of the AI service (services/ai_service.py): one pass over
    the lines of a generated text with a "current section" cursor and a body
    buffer, then reconciliation against the required section names. */
module SectionParser {
  import opened Text
  import opened OrderedDict
  import opened Options
  import Config

  /** The fixed keywords that make a line a section header. */
  const SectionKeywords: seq<string> := [
    "Project Overview", "Business Objectives", "Functional Requirements",
    "Non-Functional Requirements", "Key Performance Indicators", "KPIs",
    "Compliance", "Risk Assessment", "Stakeholder Analysis", "Project Scope"
  ]

  /** Whether some keyword of `kws`, lower-cased, occurs in `lowered`. */
  predicate AnyKeywordIn(lowered: string, kws: seq<string>) {
    if kws == [] then false
    else Contains(lowered, Lower(kws[0])) || AnyKeywordIn(lowered, kws[1..])
  }

  lemma {:induction false} AnyKeywordInMeans(lowered: string, kws: seq<string>)
    ensures AnyKeywordIn(lowered, kws) <==> exists k :: k in kws && Occurs(Lower(k), lowered)
    decreases |kws|
  {
    if kws != [] {
      AnyKeywordInMeans(lowered, kws[1..]);
      assert forall k :: k in kws <==> k == kws[0] || k in kws[1..];
    }
  }

  /** `_is_section_header` */
  predicate IsSectionHeader(line: string) {
    AnyKeywordIn(Lower(line), SectionKeywords)
  }

  /** A line is a header exactly when one of the keywords occurs in it as a
      substring, ignoring case. */
  lemma IsSectionHeaderMeans(line: string)
    ensures IsSectionHeader(line) <==> exists k :: k in SectionKeywords && Occurs(Lower(k), Lower(line))
  {
    AnyKeywordInMeans(Lower(line), SectionKeywords);
  }

  /** The key a header line opens: every `#` removed, then stripped. */
  function HeaderKey(line: string): string {
    Strip(RemoveChar(line, '#'))
  }

  /** The value given to a required section the text did not contain. */
  function Placeholder(name: string): string {
    "[Content for " + name + " will be generated based on specific requirements]"
  }

  /** The parser's loop state: the sections stored so far, the open section
      (`None` before the first header) and the buffered body lines. */
  datatype Scan = Scan(sections: Dict<string>, current: Option<string>, content: seq<string>)

  const Initial: Scan := Scan([], None, [])

  /** Python's truthiness of `current_section`. */
  predicate Open(st: Scan) {
    st.current.Some? && st.current.value != ""
  }

  /** Stores the open section's buffer under its key. */
  function Flush(st: Scan): Dict<string>
    requires Open(st)
  {
    Put(st.sections, st.current.value, Strip(Join(st.content, "\n")))
  }

  /** One iteration of the loop over lines. */
  function Step(st: Scan, raw: string): Scan {
    var line := Strip(raw);
    Advance(st, line, IsSectionHeader(line))
  }

  /** The loop body for a stripped line, given whether it is a header. */
  function Advance(st: Scan, line: string, header: bool): Scan {
    if header then
      Scan(if Open(st) then Flush(st) else st.sections, Some(HeaderKey(line)), [])
    else if line != "" && Open(st) then
      st.(content := st.content + [line])
    else
      st
  }

  /** The loop state after the given lines. */
  function ScanLines(lines: seq<string>): Scan
    decreases |lines|
  {
    if lines == [] then Initial else Step(ScanLines(lines[..|lines| - 1]), lines[|lines| - 1])
  }

  /** After the loop: the last section is stored only if it has a body line. */
  function Close(st: Scan): Dict<string> {
    if Open(st) && st.content != [] then Flush(st) else st.sections
  }

  /** Adds a placeholder for each required name that is not yet a key. Entries
      already present keep their place and value; new ones follow in the order
      of `required`. */
  function Reconcile(d: Dict<string>, required: seq<string>): (r: Dict<string>)
    ensures |d| <= |r| && r[..|d|] == d
    decreases |required|
  {
    if required == [] then d
    else
      var d' := AddMissing(d, required[0]);
      var r := Reconcile(d', required[1..]);
      assert r[..|d|] == r[..|d'|][..|d|];
      r
  }

  lemma ReconcileCons(d: Dict<string>, required: seq<string>)
    requires required != []
    ensures Reconcile(d, required) == Reconcile(AddMissing(d, required[0]), required[1..])
  {
  }

  lemma ReconcileNext(d: Dict<string>, required: seq<string>, j: nat)
    requires j < |required|
    ensures Reconcile(d, required[j..]) == Reconcile(AddMissing(d, required[j]), required[j + 1..])
  {
    DropNext(required, j);
    ReconcileCons(d, required[j..]);
  }

  /** One iteration of the reconciliation loop. */
  function AddMissing(d: Dict<string>, n: string): (d': Dict<string>)
    ensures |d| <= |d'| && d'[..|d|] == d
    ensures HasKey(d', n)
    ensures Keys(d') == if HasKey(d, n) then Keys(d) else Keys(d) + [n]
    ensures !HasKey(d, n) ==> Get(d', n) == Placeholder(n)
    ensures UniqueKeys(d) ==> UniqueKeys(d')
  {
    if HasKey(d, n) then d else Put(d, n, Placeholder(n))
  }

  /** After reconciliation the keys are those already present plus the required
      names, and no key is repeated. */
  lemma {:induction false} ReconcileKeys(d: Dict<string>, required: seq<string>)
    ensures forall k :: HasKey(Reconcile(d, required), k) <==> HasKey(d, k) || k in required
    ensures UniqueKeys(d) ==> UniqueKeys(Reconcile(d, required))
    decreases |required|
  {
    if required != [] {
      var n := required[0];
      assert forall x :: x in required <==> x == n || x in required[1..];
      ReconcileKeys(AddMissing(d, n), required[1..]);
    }
  }

  lemma ReconcileKeyOf(d: Dict<string>, required: seq<string>, k: string)
    ensures HasKey(Reconcile(d, required), k) <==> HasKey(d, k) || k in required
  {
    ReconcileKeys(d, required);
  }

  /** Every entry that was present keeps its value (and its position). */
  lemma ReconcileKeepsEntries(d: Dict<string>, required: seq<string>)
    ensures forall k :: HasKey(d, k) ==>
      HasKey(Reconcile(d, required), k) && Get(Reconcile(d, required), k) == Get(d, k)
  {
    var r := Reconcile(d, required);
    forall k | HasKey(d, k) ensures HasKey(r, k) && Get(r, k) == Get(d, k) {
      IndexOfPrefix(d, r, k);
    }
  }

  /** Every required name that was absent maps exactly to its placeholder. */
  lemma {:induction false} ReconcileFillsAbsent(d: Dict<string>, required: seq<string>, n: string)
    requires n in required && !HasKey(d, n)
    ensures HasKey(Reconcile(d, required), n)
    ensures Get(Reconcile(d, required), n) == Placeholder(n)
    decreases |required|
  {
    var d' := AddMissing(d, required[0]);
    if n == required[0] {
      ReconcileKeepsEntries(d', required[1..]);
    } else {
      assert n in required[1..];
      assert !HasKey(d', n);
      ReconcileFillsAbsent(d', required[1..], n);
    }
  }

  /** The lines of the text, each parsed; no domain is involved. */
  function ParseLines(lines: seq<string>): Dict<string> {
    Reconcile(Close(ScanLines(lines)), Config.BrdSections)
  }

  /** `_parse_response` as a function of the generated text. */
  function Parse(text: string): Dict<string> {
    ParseLines(Split(text, '\n'))
  }

  /** The loop of `_parse_response` over the lines: returns the stored sections,
      the open section and its buffered body. */
  method ScanSections(lines: seq<string>)
    returns (sections: Dict<string>, currentSection: Option<string>, currentContent: seq<string>)
    ensures Scan(sections, currentSection, currentContent) == ScanLines(lines)
  {
    sections := [];
    currentSection := None;
    currentContent := [];
    var i := 0;
    while i < |lines|
      invariant 0 <= i <= |lines|
      invariant Scan(sections, currentSection, currentContent) == ScanLines(lines[..i])
    {
      sections, currentSection, currentContent := ScanLine(sections, currentSection, currentContent, lines[i]);
      ScanNext(lines, i);
      i := i + 1;
    }
    assert lines[..i] == lines;
  }

  /** One pass of the loop body of `_parse_response`. */
  method ScanLine(sections: Dict<string>, currentSection: Option<string>, currentContent: seq<string>, raw: string)
    returns (sections': Dict<string>, currentSection': Option<string>, currentContent': seq<string>)
    ensures Scan(sections', currentSection', currentContent') == Step(Scan(sections, currentSection, currentContent), raw)
  {
    sections', currentSection', currentContent' := sections, currentSection, currentContent;
    var line := Strip(raw);
    var header := IsSectionHeader(line);
    if header {
      if currentSection.Some? && currentSection.value != "" {
        sections' := Put(sections, currentSection.value, Strip(Join(currentContent, "\n")));
      }
      currentSection' := Some(HeaderKey(line));
      currentContent' := [];
    } else if line != "" && currentSection.Some? && currentSection.value != "" {
      currentContent' := currentContent + [line];
    }
    assert Scan(sections', currentSection', currentContent') == Advance(Scan(sections, currentSection, currentContent), line, header);
  }

  /** The final loop of `_parse_response`: a placeholder for every name of
      `required` that is still missing, appended in the order of `required`. */
  method FillMissingSections(sections: Dict<string>, required: seq<string>) returns (r: Dict<string>)
    ensures r == Reconcile(sections, required)
  {
    r := sections;
    var j := 0;
    while j < |required|
      invariant 0 <= j <= |required|
      invariant Reconcile(r, required[j..]) == Reconcile(sections, required)
    {
      ghost var before := r;
      var name := required[j];
      if !HasKey(r, name) {
        r := Put(r, name, Placeholder(name));
      }
      assert r == AddMissing(before, name);
      ReconcileNext(before, required, j);
      j := j + 1;
    }
    assert required[j..] == [];
  }

  /** `_parse_response`: the generated text becomes an insertion-ordered map in
      which every required section is a key. The `domain` argument is unused. */
  method ParseResponse(responseText: string, domain: string) returns (sections: Dict<string>)
    ensures sections == Parse(responseText)
    ensures UniqueKeys(sections)
    ensures forall name :: name in Config.BrdSections ==> HasKey(sections, name)
  {
    var lines := Split(responseText, '\n');
    var currentSection, currentContent;
    sections, currentSection, currentContent := ScanSections(lines);
    sections := CloseSections(sections, currentSection, currentContent);
    sections := FillMissingSections(sections, Config.BrdSections);
    ParseKeys(lines);
  }

  /** After the loop of `_parse_response`: the open section is stored only
      when its buffer holds a line. */
  method CloseSections(sections: Dict<string>, currentSection: Option<string>, currentContent: seq<string>)
    returns (r: Dict<string>)
    ensures r == Close(Scan(sections, currentSection, currentContent))
  {
    r := sections;
    if currentSection.Some? && currentSection.value != "" && currentContent != [] {
      r := Put(sections, currentSection.value, Strip(Join(currentContent, "\n")));
    }
  }

  // ---------------------------------------------------------------------------
  // Properties of the parse

  /** Every required section name is distinct. */
  lemma BrdSectionsDistinct()
    ensures forall i, j :: 0 <= i < j < |Config.BrdSections| ==> Config.BrdSections[i] != Config.BrdSections[j]
  {
  }

  /** The loop's well-formedness: keys are unique, and the body buffer only ever
      holds stripped, non-blank lines that are not headers, and is empty while
      no section is open. */
  ghost predicate Wf(st: Scan) {
    && UniqueKeys(st.sections)
    && (forall l :: l in st.content ==> l != "" && Strip(l) == l && !IsSectionHeader(l))
    && (!Open(st) ==> st.content == [])
  }

  /** One step keeps the loop's well-formedness. */
  lemma StepKeepsWf(st: Scan, raw: string)
    requires Wf(st)
    ensures Wf(Step(st, raw))
  {
    var line := Strip(raw);
    StripIdempotent(raw);
    AdvanceKeepsWf(st, line, IsSectionHeader(line));
  }

  lemma AdvanceKeepsWf(st: Scan, line: string, header: bool)
    requires Wf(st) && Strip(line) == line
    requires !header ==> !IsSectionHeader(line)
    ensures Wf(Advance(st, line, header))
  {
    var r := Advance(st, line, header);
    if header {
      if Open(st) {
        FlushKeepsUnique(st);
      }
      assert r.content == [];
    } else if line != "" && Open(st) {
      assert r == st.(content := st.content + [line]);
      forall l | l in r.content ensures l != "" && Strip(l) == l && !IsSectionHeader(l) {
        if l != line {
          assert l in st.content;
        }
      }
    } else {
      assert r == st;
    }
  }

  /** Header lines never enter a section body; blank lines and lines before the
      first header are never buffered. */
  lemma {:induction false} ScanKeepsWf(lines: seq<string>)
    ensures Wf(ScanLines(lines))
    decreases |lines|
  {
    if lines != [] {
      ScanKeepsWf(lines[..|lines| - 1]);
      StepKeepsWf(ScanLines(lines[..|lines| - 1]), lines[|lines| - 1]);
    }
  }

  lemma FlushKeepsUnique(st: Scan)
    requires Open(st) && UniqueKeys(st.sections)
    ensures UniqueKeys(Flush(st))
  {
  }

  /** The parse has unique keys and every required section among them. */
  lemma ParseKeys(lines: seq<string>)
    ensures UniqueKeys(ParseLines(lines))
    ensures forall name :: name in Config.BrdSections ==> HasKey(ParseLines(lines), name)
  {
    var st := ScanLines(lines);
    ScanKeepsWf(lines);
    if Open(st) && st.content != [] {
      FlushKeepsUnique(st);
    }
    ReconcileKeys(Close(st), Config.BrdSections);
  }

  lemma StripIdempotent(s: string)
    ensures Strip(Strip(s)) == Strip(s)
  {
    StripNoOp(Strip(s));
  }

  /** The first and last characters of a join of non-empty parts. */
  lemma {:induction false} JoinEnds(parts: seq<string>, sep: string)
    requires |parts| >= 1
    requires forall i :: 0 <= i < |parts| ==> parts[i] != []
    ensures Join(parts, sep) != []
    ensures Join(parts, sep)[0] == parts[0][0]
    ensures Join(parts, sep)[|Join(parts, sep)| - 1] == parts[|parts| - 1][|parts[|parts| - 1]| - 1]
    decreases |parts|
  {
    if |parts| > 1 {
      JoinEnds(parts[1..], sep);
      assert Join(parts, sep) == parts[0] + sep + Join(parts[1..], sep);
    }
  }

  /** Joining stripped, non-blank lines with a newline gives a string that
      `strip()` leaves as it is. */
  lemma JoinOfStrippedLines(lines: seq<string>)
    requires forall l :: l in lines ==> l != "" && Strip(l) == l
    ensures Strip(Join(lines, "\n")) == Join(lines, "\n")
  {
    if lines != [] {
      assert forall i :: 0 <= i < |lines| ==> lines[i] != [] by {
        forall i | 0 <= i < |lines| ensures lines[i] != [] {
          assert lines[i] in lines;
        }
      }
      JoinEnds(lines, "\n");
      assert lines[0] in lines && lines[|lines| - 1] in lines;
      StripNoOp(Join(lines, "\n"));
    }
  }

  /** When a section is flushed, its value is exactly its body lines joined with
      a newline: the final `strip()` changes nothing. The value is "" when the
      section had no body line. */
  lemma FlushedValueIsJoinedBody(st: Scan)
    requires Wf(st) && Open(st)
    ensures HasKey(Flush(st), st.current.value)
    ensures Get(Flush(st), st.current.value) == Join(st.content, "\n")
    ensures st.content == [] ==> Get(Flush(st), st.current.value) == ""
  {
    JoinOfStrippedLines(st.content);
  }

  /** A line that is not a header changes nothing while no section is open. */
  lemma StepBeforeFirstHeader(raw: string)
    requires !IsSectionHeader(Strip(raw))
    ensures Step(Initial, raw) == Initial
  {
    assert Step(Initial, raw) == Advance(Initial, Strip(raw), false);
  }

  /** Lines with no header scan to the initial state. */
  lemma {:induction false} ScanNoHeader(pre: seq<string>)
    requires forall l :: l in pre ==> !IsSectionHeader(Strip(l))
    ensures ScanLines(pre) == Initial
    decreases |pre|
  {
    if pre != [] {
      var prefix := pre[..|pre| - 1];
      assert forall l :: l in prefix ==> l in pre;
      assert pre[|pre| - 1] in pre;
      ScanNoHeader(prefix);
      StepBeforeFirstHeader(pre[|pre| - 1]);
    }
  }

  lemma {:induction false} ScanPreamble(pre: seq<string>, rest: seq<string>)
    requires forall l :: l in pre ==> !IsSectionHeader(Strip(l))
    ensures ScanLines(pre + rest) == ScanLines(rest)
    decreases |rest|
  {
    if rest == [] {
      assert pre + rest == pre;
      ScanNoHeader(pre);
    } else {
      var r := rest[..|rest| - 1];
      var x := rest[|rest| - 1];
      assert pre + rest == (pre + r) + [x];
      assert rest == r + [x];
      ScanPreamble(pre, r);
      ScanAppend(pre + r, x);
      ScanAppend(r, x);
    }
  }

  /** Lines before the first header contribute nothing to the result. */
  lemma PreambleDropped(pre: seq<string>, rest: seq<string>)
    requires forall l :: l in pre ==> !IsSectionHeader(Strip(l))
    ensures ParseLines(pre + rest) == ParseLines(rest)
  {
    ScanPreamble(pre, rest);
  }

  /** Distinct names none of which is a key of `d`. */
  ghost predicate FreshNames(d: Dict<string>, names: seq<string>) {
    && (forall i, j :: 0 <= i < j < |names| ==> names[i] != names[j])
    && (forall n :: n in names ==> !HasKey(d, n))
  }

  lemma ReconcileFreshStep(d: Dict<string>, required: seq<string>)
    requires required != [] && FreshNames(d, required)
    ensures AddMissing(d, required[0]) == d + [(required[0], Placeholder(required[0]))]
    ensures FreshNames(d + [(required[0], Placeholder(required[0]))], required[1..])
  {
    var n := required[0];
    var rest := required[1..];
    var d' := d + [(n, Placeholder(n))];
    assert Keys(d') == Keys(d) + [n];
    forall m | m in rest ensures !HasKey(d', m) {
      var k :| 1 <= k < |required| && required[k] == m;
      assert required[k] != required[0];
      assert m in required;
      assert m !in Keys(d);
      assert Keys(d')[..|d|] == Keys(d);
    }
    forall i, j | 0 <= i < j < |rest| ensures rest[i] != rest[j] {
      assert rest[i] == required[i + 1] && rest[j] == required[j + 1];
    }
  }

  /** Reconciling a map that holds none of the (distinct) required names appends
      one placeholder entry per name, in order. */
  lemma {:induction false} ReconcileFresh(d: Dict<string>, required: seq<string>)
    requires FreshNames(d, required)
    ensures Reconcile(d, required) == d + FromKeys(required, Placeholder)
    decreases |required|
  {
    if required != [] {
      var n := required[0];
      var d' := d + [(n, Placeholder(n))];
      ReconcileFreshStep(d, required);
      ReconcileCons(d, required);
      ReconcileFresh(d', required[1..]);
      PlaceholdersCons(d, required);
    }
  }

  lemma PlaceholdersCons(d: Dict<string>, required: seq<string>)
    requires required != []
    ensures (d + [(required[0], Placeholder(required[0]))]) + FromKeys(required[1..], Placeholder)
         == d + FromKeys(required, Placeholder)
  {
    assert FromKeys(required, Placeholder)
        == [(required[0], Placeholder(required[0]))] + FromKeys(required[1..], Placeholder);
  }

  /** With no section found, the result is the eight placeholders in order. */
  lemma ReconcileFromNothing()
    ensures Reconcile([], Config.BrdSections) == FromKeys(Config.BrdSections, Placeholder)
  {
    BrdSectionsDistinct();
    ReconcileFresh([], Config.BrdSections);
    assert [] + FromKeys(Config.BrdSections, Placeholder) == FromKeys(Config.BrdSections, Placeholder);
  }

  /** A text without any header line, the empty text included, parses to exactly
      the eight placeholders, in the order of the required sections. */
  lemma NoHeaderGivesPlaceholders(text: string)
    requires forall l :: l in Split(text, '\n') ==> !IsSectionHeader(Strip(l))
    ensures Parse(text) == FromKeys(Config.BrdSections, Placeholder)
  {
    var lines := Split(text, '\n');
    ScanNoHeader(lines);
    ReconcileFromNothing();
  }

  /** A text without letters, the empty text included, has no header line
      and so parses to the eight placeholders. */
  lemma LetterlessTextGivesPlaceholders(text: string)
    requires forall i :: 0 <= i < |text| ==> !IsAlpha(text[i])
    ensures Parse(text) == FromKeys(Config.BrdSections, Placeholder)
  {
    forall l | l in Split(text, '\n') ensures !IsSectionHeader(Strip(l)) {
      SplitChars(text, '\n');
      StripChars(l);
      var t := Strip(l);
      forall i | 0 <= i < |t| ensures !IsAlpha(t[i]) {
        assert t[i] in l;
        var j :| 0 <= j < |text| && text[j] == t[i];
      }
      NoLetterNoHeader(t);
    }
    NoHeaderGivesPlaceholders(text);
  }

  /** A line without a letter is never a header: every keyword starts with one. */
  lemma NoLetterNoHeader(line: string)
    requires forall i :: 0 <= i < |line| ==> !IsAlpha(line[i])
    ensures !IsSectionHeader(line)
  {
    if IsSectionHeader(line) {
      IsSectionHeaderMeans(line);
      var k :| k in SectionKeywords && Occurs(Lower(k), Lower(line));
      KeywordsStartWithLetter();
      var i := LetterAtOccurrence(line, k);
      assert false;
    }
  }

  /** Every keyword starts with a letter. */
  lemma KeywordsStartWithLetter()
    ensures forall k :: k in SectionKeywords ==> k != [] && IsAlpha(k[0])
  {
  }

  /** A keyword that starts with a letter occurs, ignoring case, only where the
      line has a letter. */
  lemma LetterAtOccurrence(line: string, k: string) returns (i: nat)
    requires k != [] && IsAlpha(k[0]) && Occurs(Lower(k), Lower(line))
    ensures i < |line| && IsAlpha(line[i])
  {
    var j :| 0 <= j <= |Lower(line)| && StartsWith(Lower(line)[j..], Lower(k));
    assert Lower(line)[j..][0] == Lower(k)[0];
    i := j;
    assert Lower(line)[i] == LowerChar(k[0]);
  }

  /** A line with a letter has a non-empty key without `#`. */
  lemma HeaderKeyOfLetter(line: string, i: nat)
    requires i < |line| && IsAlpha(line[i])
    ensures HeaderKey(line) != "" && '#' !in HeaderKey(line)
  {
    var r := RemoveChar(line, '#');
    assert line[i] in line;
    assert line[i] in r;
    var m :| 0 <= m < |r| && r[m] == line[i];
    assert !IsSpace(r[m]);
    StripChars(r);
  }

  /** The key a header opens is never empty and holds no `#`, so the source's
      truthiness test on the cursor means exactly "a section is open". */
  lemma HeaderKeyNonEmpty(line: string)
    requires IsSectionHeader(line)
    ensures HeaderKey(line) != "" && '#' !in HeaderKey(line)
  {
    IsSectionHeaderMeans(line);
    var k :| k in SectionKeywords && Occurs(Lower(k), Lower(line));
    KeywordsStartWithLetter();
    var i := LetterAtOccurrence(line, k);
    HeaderKeyOfLetter(line, i);
  }

  lemma ScanAppend(lines: seq<string>, x: string)
    ensures ScanLines(lines + [x]) == Step(ScanLines(lines), x)
  {
    PrefixOfAppend(lines, x);
  }

  lemma ScanNext(lines: seq<string>, i: nat)
    requires i < |lines|
    ensures ScanLines(lines[..i + 1]) == Step(ScanLines(lines[..i]), lines[i])
  {
    TakeNext(lines, i);
    ScanAppend(lines[..i], lines[i]);
  }

  /** `k` is neither stored nor open. */
  predicate Absent(st: Scan, k: string) {
    !HasKey(st.sections, k) && st.current != Some(k)
  }

  /** No line of `lines` is a header that opens `k`. */
  ghost predicate NeverOpens(lines: seq<string>, k: string) {
    forall l :: l in lines && IsSectionHeader(Strip(l)) ==> HeaderKey(Strip(l)) != k
  }

  lemma StepKeepsAbsent(st: Scan, raw: string, k: string)
    requires Absent(st, k)
    requires IsSectionHeader(Strip(raw)) ==> HeaderKey(Strip(raw)) != k
    ensures Absent(Step(st, raw), k)
  {
    var line := Strip(raw);
    AdvanceKeepsAbsent(st, line, IsSectionHeader(line), k);
  }

  lemma AdvanceKeepsAbsent(st: Scan, line: string, header: bool, k: string)
    requires Absent(st, k)
    requires header ==> HeaderKey(line) != k
    ensures Absent(Advance(st, line, header), k)
  {
    if header && Open(st) {
      PutOtherKey(st.sections, st.current.value, Strip(Join(st.content, "\n")), k);
    }
  }

  /** A key that no scanned header opens is never stored by the scan. */
  lemma {:induction false} ScanKeysFromHeaders(lines: seq<string>, k: string)
    requires NeverOpens(lines, k)
    ensures Absent(ScanLines(lines), k)
    decreases |lines|
  {
    if lines != [] {
      var prefix := lines[..|lines| - 1];
      assert lines[|lines| - 1] in lines;
      assert NeverOpens(prefix, k) by {
        forall l | l in prefix ensures l in lines { }
      }
      ScanKeysFromHeaders(prefix, k);
      StepKeepsAbsent(ScanLines(prefix), lines[|lines| - 1], k);
    }
  }

  /** A header line empties the buffer and stores at most the section it closes. */
  lemma HeaderStep(st: Scan, raw: string, k: string)
    requires IsSectionHeader(Strip(raw))
    ensures Step(st, raw).content == []
    ensures Step(st, raw).current == Some(HeaderKey(Strip(raw)))
    ensures Absent(st, k) ==> !HasKey(Step(st, raw).sections, k)
  {
    AdvanceHeader(st, Strip(raw), k);
  }

  lemma AdvanceHeader(st: Scan, line: string, k: string)
    ensures Advance(st, line, true).content == []
    ensures Advance(st, line, true).current == Some(HeaderKey(line))
    ensures Absent(st, k) ==> !HasKey(Advance(st, line, true).sections, k)
  {
    if Open(st) && Absent(st, k) {
      PutOtherKey(st.sections, st.current.value, Strip(Join(st.content, "\n")), k);
    }
  }

  /** A header on the last line opens a section with no body: unless its name
      was opened before or is required, it does not appear in the result. */
  lemma LastHeaderWithoutBodyDropped(lines: seq<string>, h: string)
    requires IsSectionHeader(Strip(h))
    requires NeverOpens(lines, HeaderKey(Strip(h)))
    requires HeaderKey(Strip(h)) !in Config.BrdSections
    ensures !HasKey(ParseLines(lines + [h]), HeaderKey(Strip(h)))
  {
    var k := HeaderKey(Strip(h));
    var prev := ScanLines(lines);
    ScanKeysFromHeaders(lines, k);
    HeaderStep(prev, h, k);
    ScanAppend(lines, h);
    var st := ScanLines(lines + [h]);
    assert Close(st) == st.sections;
    ReconcileKeyOf(st.sections, Config.BrdSections, k);
  }

  /** A non-blank line that is not a header joins the open section's body. */
  lemma BodyStep(st: Scan, raw: string)
    requires !IsSectionHeader(Strip(raw)) && Strip(raw) != "" && Open(st)
    ensures Step(st, raw) == st.(content := st.content + [Strip(raw)])
  {
    assert Step(st, raw) == Advance(st, Strip(raw), false);
  }

  lemma ScanLastTwo(lines: seq<string>, h: string, b: string)
    ensures ScanLines(lines + [h, b]) == Step(Step(ScanLines(lines), h), b)
  {
    ScanAppend(lines, h);
    ScanAppend(lines + [h], b);
    AppendPair(lines, h, b);
  }

  /** A header and then one body line: closing the scan stores the header's
      key with the stripped body line as its value. */
  lemma HeaderThenBody(prev: Scan, h: string, b: string)
    requires IsSectionHeader(Strip(h))
    requires Strip(b) != "" && !IsSectionHeader(Strip(b))
    ensures HasKey(Close(Step(Step(prev, h), b)), HeaderKey(Strip(h)))
    ensures Get(Close(Step(Step(prev, h), b)), HeaderKey(Strip(h))) == Strip(b)
  {
    var s1 := Step(prev, h);
    HeaderOpens(prev, h);
    BodyStep(s1, b);
    StripIdempotent(b);
    CloseOneLine(Step(s1, b), Strip(b));
  }

  /** A header line opens its key with an empty buffer. */
  lemma HeaderOpens(prev: Scan, h: string)
    requires IsSectionHeader(Strip(h))
    ensures Open(Step(prev, h)) && Step(prev, h).content == []
    ensures Step(prev, h).current == Some(HeaderKey(Strip(h)))
  {
    HeaderKeyNonEmpty(Strip(h));
    HeaderStep(prev, h, HeaderKey(Strip(h)));
  }

  /** Closing a section whose buffer holds one stripped line stores that line. */
  lemma CloseOneLine(st: Scan, line: string)
    requires Open(st) && st.content == [line] && Strip(line) == line
    ensures HasKey(Close(st), st.current.value)
    ensures Get(Close(st), st.current.value) == line
  {
    assert Join(st.content, "\n") == line;
  }

  /** A header followed by one body line on the last two lines is stored, with
      that line, stripped, as its value. */
  lemma LastHeaderWithBodyStored(lines: seq<string>, h: string, b: string)
    requires IsSectionHeader(Strip(h))
    requires Strip(b) != "" && !IsSectionHeader(Strip(b))
    ensures HasKey(ParseLines(lines + [h, b]), HeaderKey(Strip(h)))
    ensures Get(ParseLines(lines + [h, b]), HeaderKey(Strip(h))) == Strip(b)
  {
    ScanLastTwo(lines, h, b);
    HeaderThenBody(ScanLines(lines), h, b);
    ReconcileKeepsEntries(Close(ScanLines(lines + [h, b])), Config.BrdSections);
  }

  /** Removing a character that does not occur changes nothing. */
  lemma {:induction false} RemoveAbsentChar(s: string, c: char)
    requires c !in s
    ensures RemoveChar(s, c) == s
    decreases |s|
  {
    if s != [] {
      assert forall x :: x in s[1..] ==> x in s;
      RemoveAbsentChar(s[1..], c);
      assert [s[0]] + s[1..] == s;
    }
  }

  /** Only `#` and the surrounding whitespace leave a header's key: other
      markup such as "3." or "**" stays, so "3. Functional Requirements"
      opens a key of its own, different from the required name. */
  lemma MarkupStaysInKey(line: string)
    requires '#' !in line && Strip(line) == line
    ensures HeaderKey(line) == line
  {
    RemoveAbsentChar(line, '#');
  }

  /** A required name that no header of the text opens maps exactly to its
      placeholder, whatever else the text holds. */
  lemma UnopenedRequiredGetsPlaceholder(lines: seq<string>, n: string)
    requires n in Config.BrdSections && NeverOpens(lines, n)
    ensures HasKey(ParseLines(lines), n) && Get(ParseLines(lines), n) == Placeholder(n)
  {
    var st := ScanLines(lines);
    ScanKeysFromHeaders(lines, n);
    if Open(st) && st.content != [] {
      PutOtherKey(st.sections, st.current.value, Strip(Join(st.content, "\n")), n);
    }
    assert !HasKey(Close(st), n);
    ReconcileFillsAbsent(Close(st), Config.BrdSections, n);
  }
}
