# BRD generator core, modelled in Dafny

This project models the core of an "intelligent BRD generator", a tool that
writes Business Requirements Documents for the pharma and finance domains. It
covers the path that turns generated prose into a scored document, plus the
small pieces of logic around that path:

- **Section parser** (`section_parser.dfy`, module `SectionParser`). It models
  `_parse_response` and `_is_section_header`. One pass over the lines moves a
  "current section" cursor and fills a body buffer. A line is a header when it
  contains one of ten keywords, ignoring case. After the pass, a placeholder is
  added for every required section that is still missing. The result is an
  insertion-ordered dictionary (`OrderedDict.Dict`, a sequence of entries with
  unique keys).
- **Validation service** (`scoring.dfy`, `quality.dfy`, `report.dfy`,
  `validation_service.dfy`). The compliance, terminology and completeness
  scores, the weighted overall score and its pass mark, the recommendations and
  warnings, the quality metrics and the plain-text report. Each is a function of
  its inputs. The mutable `ValidationResult` and the service, with its transient
  `_current_result` slot, are classes whose methods are proved equal to those
  functions.
- **Pipeline** (`pipeline.dfy`). Facts that connect the parser's output to the
  scorers that read it.
- **Helpers** (`helpers.dfy`). `clean_text`, `safe_filename`, `truncate_text`,
  `extract_keywords`, `calculate_readability_score`, `merge_dicts`,
  `validate_json_structure` and `is_valid_domain`.
- **Document service** (`document_service.dfy`). The text preview, the cleaning
  of the title in the file name, how section content becomes paragraphs, the
  numbering of sections and of the table of contents, and `export_to_pdf`. The
  Word document is modelled as the sequence of headings, paragraphs and page
  breaks added to it.
- **Template generator** (`brd_generator.dfy`). Domain normalisation, the choice
  between the AI draft and the template, and the deterministic template.
- **Form checks** (`app.dfy`). `validate_form_data`, which returns the
  `st.error` message instead of showing it, the colour of the score badge, and
  the "Sections with Content" figure.

Shared modules: `Text` (Python string operations: strip, split, join, lower,
substring test, `split()` words, `str(n)`), `OrderedDict` (Python `dict`
semantics: assigning to an existing key keeps its position), `Config` (the
`BRD_SECTIONS` list and the `COMPLIANCE_KEYWORDS` table of
config/settings.py) and `Options`.

Scores are `real`, which is exact. The `:.2f` formatting used by the report is
a function parameter `fmt`. The clock reading in the file name is a
`timestamp` parameter. The OpenAI request is a function parameter `ai` that
returns an optional decoded JSON value.

Some consequences of the code that the model keeps:

- A placeholder is `"[Content for <name> will be generated based on specific requirements]"`.
  That is at least 63 characters, so the completeness scorer never counts it as
  thin. For the empty text, completeness is therefore 1.0
  (`Pipeline.LetterlessTextScores`).
- The structure score is not capped: it exceeds 1 when the dictionary has more
  non-blank values than there are required sections.
- On the `validate_brd_content` path the scorers' lists of missing keywords and
  sections are never written back (see Findings). So the recommendation that
  names missing keywords never appears there.
- The compliance table is looked up with the domain exactly as given. `"pharma"`
  is not a key, so it scores the neutral 0.5. The terminology list, by contrast,
  is chosen ignoring case.

## Model

| member | source | states |
|---|---|---|
| `SectionParser.IsSectionHeaderMeans` | services/ai_service.py:189-201 | a line is a header iff some keyword, lower-cased, occurs in the lower-cased line as a substring |
| `SectionParser.HeaderKeyNonEmpty` | services/ai_service.py:172 | the key a header opens is non-empty and holds no `#`, so the truthiness test on `current_section` means "a section is open" |
| `SectionParser.MarkupStaysInKey` | services/ai_service.py:172 | only `#` and outer whitespace leave the key; other markup such as "3." stays in it |
| `SectionParser.ScanLine` | services/ai_service.py:163-176 | one pass of the loop body: a header flushes the open section and opens a new one; a non-blank body line is buffered only while a section is open |
| `SectionParser.ScanSections` | services/ai_service.py:156-176 | the loop over the lines yields exactly the specified scan state |
| `SectionParser.CloseSections` | services/ai_service.py:178-180 | after the loop, the open section is stored only when its buffer holds a line |
| `SectionParser.FillMissingSections` | services/ai_service.py:182-185 | the reconciliation loop equals `Reconcile`: a placeholder for each required name that is not a key, in `BRD_SECTIONS` order |
| `SectionParser.ParseResponse` | services/ai_service.py:153-187 | the parse has unique keys, includes every required section, and ignores `domain` |
| `SectionParser.AddMissing` | services/ai_service.py:184-185 | an absent name is appended with its placeholder; a present one is left alone; keys stay unique |
| `SectionParser.Reconcile` | services/ai_service.py:182-185 | existing entries keep their positions at the front |
| `SectionParser.ReconcileKeys` | services/ai_service.py:182-185 | after reconciliation the keys are exactly the old keys plus the required names, still unique |
| `SectionParser.ReconcileKeepsEntries` | services/ai_service.py:182-185 | reconciliation never changes a value that was already present |
| `SectionParser.ReconcileFillsAbsent` | services/ai_service.py:183-185 | every required name that was absent maps exactly to its placeholder |
| `SectionParser.ScanKeepsWf` | services/ai_service.py:166-176 | header lines and blank lines never enter a body buffer; the buffer is empty while no section is open |
| `SectionParser.ParseKeys` | services/ai_service.py:153-187 | for any lines, the parse has unique keys and every required name among them |
| `SectionParser.FlushedValueIsJoinedBody` | services/ai_service.py:168-169 | a flushed section's value is its body lines joined with a newline, which is "" when it has none |
| `SectionParser.PreambleDropped` | services/ai_service.py:166-176 | lines before the first header do not affect the result |
| `SectionParser.NoHeaderGivesPlaceholders` | services/ai_service.py:153-187 | a text without a header line parses to exactly the eight placeholders, in `BRD_SECTIONS` order |
| `SectionParser.LetterlessTextGivesPlaceholders` | services/ai_service.py:153-187 | a text without letters, "" included, parses to exactly the eight placeholders |
| `SectionParser.LastHeaderWithoutBodyDropped` | services/ai_service.py:179-180 | a header on the last line whose name was never opened and is not required does not appear in the result |
| `SectionParser.LastHeaderWithBodyStored` | services/ai_service.py:175-180 | a header followed by one body line stores that line, stripped, under the header's key |
| `SectionParser.UnopenedRequiredGetsPlaceholder` | services/ai_service.py:183-185 | a required name that no header opens maps to its placeholder, even when a numbered variant of it was a header |
| `OrderedDict.Put` | services/ai_service.py:169 | `d[k] = v`: keys unchanged if `k` was present, `k` appended otherwise; `k` maps to `v`; other keys keep their values |
| `OrderedDict.PutExistingKeepsOrder` | services/ai_service.py:169 | a repeated header overwrites the earlier value and keeps its original position |
| `Pipeline.PlaceholderNeverThin` | services/ai_service.py:185 | a placeholder strips to at least 63 characters, so it is never thin |
| `Pipeline.RequiredKeyOfParse` | services/ai_service.py:183-185 | every required name is a key of the parse, and one the text did not store maps to its placeholder |
| `Pipeline.ParseHasNoMissingSection` | services/validation_service.py:160-162 | after parsing, the completeness scorer finds no required section missing |
| `Pipeline.ThinSectionsWereWritten` | services/validation_service.py:163-164 | only sections the text itself supplied can be thin |
| `Pipeline.LetterlessScansNothing` | services/ai_service.py:162-180 | a text without letters stores no section before reconciliation |
| `Pipeline.NothingScannedNothingThin` | services/validation_service.py:163-164 | when the text stores no section, no required section is thin |
| `Pipeline.LetterlessTextComplete` | services/validation_service.py:153-169 | for a text without letters, completeness is 1.0 |
| `Pipeline.LetterlessTextStructured` | services/validation_service.py:292-294 | for a text without letters, every value is a non-blank placeholder and structure is 1.0 |
| `Pipeline.PlaceholdersAllCount` | services/validation_service.py:292-293 | every placeholder value counts as a non-blank section for the structure score |
| `Pipeline.LetterlessTextScores` | services/validation_service.py:153-169 | for a text without letters (such as ""), completeness is 1.0 and structure is 1.0 |
| `Scoring.FoundMembers` | services/validation_service.py:117-121 | the found keywords are exactly those whose lower-cased form occurs in the content |
| `Scoring.MissingMembers` | services/validation_service.py:117-121 | the missing keywords are exactly those that do not occur in the content |
| `Scoring.FoundPlusMissing` | services/validation_service.py:114-121 | every keyword is counted once, as found or as missing |
| `Scoring.KeywordRatio` | services/validation_service.py:124 | the ratio lies in [0,1] and is 0 for an empty keyword list |
| `Scoring.KeywordRatioFull` | services/validation_service.py:124 | the ratio is 1 iff the list is non-empty and nothing is missing |
| `Scoring.ComplianceScore` | services/validation_service.py:105-124 | in [0,1]; 0.5 for a domain that is not an exact key; 0 for an empty keyword list |
| `Scoring.DomainTerminology` | services/validation_service.py:223-241 | 13 terms for pharma, 12 for finance, 4 otherwise, chosen ignoring case |
| `Scoring.TermRatio` | services/validation_service.py:146-147 | `min(found / min(5, n), 1.0)` lies in [0,1] |
| `Scoring.FiveTermsSaturate` | services/validation_service.py:146-147 | finding five or more terms gives 1.0 |
| `Scoring.ShortVocabularySaturation` | services/validation_service.py:146-147 | a vocabulary of fewer than five terms saturates iff every term is found |
| `Scoring.TerminologyScore` | services/validation_service.py:134-151 | the terminology score lies in [0,1] |
| `Scoring.MissingSectionMembers` | services/validation_service.py:160-162 | missing sections are exactly the required names that are not keys |
| `Scoring.ThinSectionMembers` | services/validation_service.py:163-164 | thin sections are exactly the required keys whose value is empty or strips to under 50 characters |
| `Scoring.IncompleteBound` | services/validation_service.py:160-168 | missing and thin never overlap: together they count at most the required names |
| `Scoring.CompletenessScore` | services/validation_service.py:153-169 | (n - missing - thin) / n lies in [0,1] |
| `Scoring.CompletenessFull` | services/validation_service.py:166-169 | completeness is 1 iff nothing is missing or thin |
| `Scoring.OverallBounds` | services/validation_service.py:28-34 | the 0.4/0.3/0.3 weighted sum of scores in [0,1] lies in [0,1] and is monotone in each score |
| `Scoring.NoComplianceFails` | services/validation_service.py:28-37 | with compliance 0 the document can never reach the 0.7 pass mark |
| `Scoring.UnknownDomainCanPass` | services/validation_service.py:108-109 | with the neutral 0.5 compliance, full terminology and completeness still pass |
| `Scoring.ComplianceAdvice` | services/validation_service.py:186-193 | below 0.8: the general note first, then up to three missing keywords comma-joined when there are any; nothing otherwise |
| `Scoring.TerminologyAdvice` | services/validation_service.py:196-199 | one note iff terminology < 0.7 |
| `Scoring.CompletenessAdvice` | services/validation_service.py:202-209 | below 0.8: the missing-sections note when the list is non-empty, then always the minimum-length note |
| `Scoring.RecommendationsBounds` | services/validation_service.py:185-209 | at most five recommendations, none when every score clears its threshold, at most three without missing lists |
| `Scoring.BriefWarnings` | services/validation_service.py:211-218 | at most one warning per section, in dictionary order |
| `Scoring.BriefSectionWarned` | services/validation_service.py:212-218 | every non-empty section of fewer than 30 words gets the warning with its own name and word count |
| `Scoring.NoBriefNoWarnings` | services/validation_service.py:212-218 | no warning when no non-empty section has fewer than 30 words |
| `Scoring.Validate` | services/validation_service.py:78-94 | as written, both missing lists stay empty and `is_valid` is `overall >= 0.7` |
| `Scoring.ValidateNeverListsMissing` | services/validation_service.py:82-91 | as written, no recommendation ever names a missing keyword or section |
| `Scoring.ValidateIntended` | services/validation_service.py:114-173 | with the write-backs working, the lists are the missing keywords and the missing-then-thin sections |
| `Scoring.IntendedListsMissing` | services/validation_service.py:186-209 | with the lists passed on, the keyword and section recommendations appear in their fixed places |
| `Validation.ValidationResult.constructor` | services/validation_service.py:17-26 | a fresh result is valid, with zero scores and empty lists |
| `Validation.ValidationResult.CalculateOverallScore` | services/validation_service.py:28-39 | stores overall = 0.4c + 0.3t + 0.3m and `is_valid = overall >= 0.7`, and returns overall |
| `Validation.PartitionKeywords` | services/validation_service.py:114-121 | the keyword loop splits the keywords into found and missing, in order |
| `Validation.FindTerms` | services/validation_service.py:140-143 | the term loop collects the terms found, in order |
| `Validation.ClassifySections` | services/validation_service.py:157-164 | the section loop yields the missing and the thin required sections |
| `Validation.ValidationService.constructor` | services/validation_service.py:58-62 | the service reads the configuration tables and holds no current result |
| `Validation.ValidationService.ValidateComplianceKeywords` | services/validation_service.py:105-132 | returns the compliance score; writes the missing keywords back only when a result is installed and the domain is known |
| `Validation.ValidationService.ValidateDomainTerminology` | services/validation_service.py:134-151 | returns the terminology score |
| `Validation.ValidationService.ValidateSectionCompleteness` | services/validation_service.py:153-177 | returns the completeness score; writes missing-then-thin back only when a result is installed |
| `Validation.ValidationService.GenerateRecommendations` | services/validation_service.py:179-221 | appends the recommendations in fixed order and one warning per brief section; clears `_current_result` at the end |
| `Validation.ValidationService.ScoreSections` | services/validation_service.py:80-88 | the three scores are stored; with no result installed, nothing else changes |
| `Validation.ValidationService.ValidateBrdContent` | services/validation_service.py:64-103 | the fresh result equals `Validate`; the service again holds no current result |
| `Validation.ValidationService.CheckDocumentQuality` | services/validation_service.py:243-296 | the metrics loop equals `Metrics` |
| `Validation.ValidationService.GenerateValidationReport` | services/validation_service.py:298-353 | the report equals `ReportText` |
| `Validation.NumberLines` | services/validation_service.py:336-337 | the recommendations are numbered from 1 |
| `Validation.BulletLines` | services/validation_service.py:343-344 | each item becomes a bulleted line |
| `Validation.SectionQualityIssues` | services/validation_service.py:271-283 | the two quality checks of one non-empty section |
| `Validation.BriefSectionWarnings` | services/validation_service.py:212-218 | the warning loop equals `BriefWarnings` |
| `Quality.LongSentencesByCount` | services/validation_service.py:277-283 | "very long sentences" iff the words over all `.`-fragments exceed 30 times the number of fragments |
| `Quality.SectionIssues` | services/validation_service.py:265-283 | an empty section has no issue; a non-empty one under 20 words is too brief; at most two issues |
| `Quality.WordCounts` | services/validation_service.py:264-267 | only sections' own names are recorded, each once |
| `Quality.Readability` | services/validation_service.py:287-289 | in [0,1]; 1 iff at least 500 words; positive iff any word |
| `Quality.Structure` | services/validation_service.py:292-294 | non-negative and not capped: above 1 iff more non-blank values than required sections |
| `Quality.TotalIsSumOfCounts` | services/validation_service.py:262-285 | the total word count is the sum of the recorded section counts |
| `Quality.BriefSectionsAreWarned` | services/validation_service.py:271 | every section flagged too brief (under 20 words) also gets the under-30 warning carrying its own name and word count |
| `Quality.WarnedButNotBrief` | services/validation_service.py:215 | a section of 20 to 29 words is warned but not flagged: the two thresholds differ |
| `Report.Numbered` | services/validation_service.py:336-337 | line i reads `"  <first+i>. <rec>"` |
| `Report.Bulleted` | services/validation_service.py:343-351 | line i is the bullet followed by item i |
| `Report.Summary` | services/validation_service.py:311-331 | the report always opens with the same fourteen lines, the title first |
| `Report.RecommendationBlock` | services/validation_service.py:334-338 | omitted when there are no recommendations; otherwise heading, items and a blank line |
| `Report.WarningBlock` | services/validation_service.py:341-345 | omitted when there are no warnings; otherwise heading, items and a blank line |
| `Report.IssueBlock` | services/validation_service.py:348-351 | omitted when there are no issues; otherwise heading and items |
| `Report.ReportLength` | services/validation_service.py:310-353 | the line count is 14 plus the size of each non-empty block |
| `Report.StatusLine` | services/validation_service.py:314-315 | the status line says PASSED iff the result is valid |
| `Report.RecommendationLines` | services/validation_service.py:333-337 | recommendations follow the summary, numbered from 1 in order |
| `Report.ReportSplitsIntoLines` | services/validation_service.py:311-353 | splitting the report at newlines gives back its lines, with the title's own newline as an extra empty line |
| `Helpers.CollapseSpace` | utils/helpers.py:27 | whitespace runs become single spaces; no two adjacent spaces |
| `Helpers.KeepAllowed` | utils/helpers.py:30 | keeps exactly the word characters, whitespace and `-.,:;()[]/&@` |
| `Helpers.CleanText` | utils/helpers.py:13-35 | "" gives ""; no outer whitespace; only allowed characters; every whitespace character is a space |
| `Helpers.CleanTextLeavesDoubleSpace` | utils/helpers.py:26-33 | "a ! b" cleans to "a  b", and a second pass changes it again |
| `Helpers.CleanTextIntended` | utils/helpers.py:26-33 | filtering before collapsing gives the same guarantees and never two adjacent spaces |
| `Helpers.DropForbidden` | utils/helpers.py:93 | removes exactly the characters `<>:"/\|?*` |
| `Helpers.Squeeze` | utils/helpers.py:99 | runs of `_` become one; same characters |
| `Helpers.SafeStem` | utils/helpers.py:92-102 | no forbidden character, no space, no doubled, leading or trailing `_` |
| `Helpers.SafeFilename` | utils/helpers.py:82-108 | at most 100 characters, none forbidden, no space, no `__`, no leading `_`, and a trailing `_` only at the cut |
| `Helpers.PrefixTo` | utils/helpers.py:258 | Python `s[:n]`, with a negative `n` counting from the end |
| `Helpers.TruncateText` | utils/helpers.py:243-258 | unchanged when empty or short enough; otherwise a prefix plus the suffix, exactly `max_length` long when `max_length >= len(suffix)` |
| `Helpers.TruncateBelowSuffix` | utils/helpers.py:258 | with `max_length` below the suffix length, the result is longer than `max_length` |
| `Helpers.WordCharsOnly` | utils/helpers.py:142 | keeps exactly the word characters |
| `Helpers.ExtractKeywords` | utils/helpers.py:110-151 | empty text gives the empty set; otherwise the set of qualifying cleaned words |
| `Helpers.KeywordsOfMembers` | utils/helpers.py:139-151 | a keyword is the cleaned form of some word and passes the three conditions |
| `Helpers.ExtractedKeywords` | utils/helpers.py:125-148 | every keyword is lower-case, alphabetic, at least `min_length` long and not a stop word |
| `Helpers.Fragments` | utils/helpers.py:167-168 | the stripped non-blank fragments |
| `Helpers.SentenceBand` | utils/helpers.py:179-186 | the score is 1.0, 0.8, 0.6 or 0.4 |
| `Helpers.BandByDistance` | utils/helpers.py:179-186 | the bands are by distance from 17.5 words: up to 2.5, 7.5 and 12.5 |
| `Helpers.ReadabilityScore` | utils/helpers.py:153-186 | 0.0 iff there is no non-blank fragment; otherwise one of the four band scores |
| `Helpers.MergeDicts` | utils/helpers.py:260-273 | the copy-then-update loop equals `Merge`; arguments are values and are not changed |
| `Helpers.MergeKeys` | utils/helpers.py:271-272 | the merge has the union of the keys |
| `Helpers.MergeValues` | utils/helpers.py:271-272 | the second dictionary's value wins on shared keys; other keys keep the first's |
| `Helpers.MergeKeepsFirstKeys` | utils/helpers.py:271-272 | the first dictionary's keys keep their order at the front |
| `Helpers.ValidateJsonStructure` | utils/helpers.py:296-314 | true iff the value is a dictionary holding every required key |
| `Helpers.IsValidDomain` | utils/helpers.py:217-228 | exact, case-sensitive membership |
| `Helpers.DomainCaseSensitive` | utils/helpers.py:228 | "pharma" is refused where "Pharma" is accepted |
| `DocumentService.PreviewContent` | services/document_service.py:247-252 | the placeholder for empty content; content up to 200 characters whole; otherwise its first 200 characters and "..." |
| `DocumentService.PreviewLines` | services/document_service.py:241-254 | the title line, then heading, content and rule for each section in order |
| `DocumentService.GetDocumentPreview` | services/document_service.py:230-256 | the loop's lines joined with newlines equal `PreviewLines` |
| `DocumentService.KeepTitleChars` | services/document_service.py:205 | keeps exactly alphanumerics, space, `-` and `_` |
| `DocumentService.CleanTitle` | services/document_service.py:204-206 | only alphanumerics, `-` and `_` remain: no spaces |
| `DocumentService.CleanTitleIdempotent` | services/document_service.py:204-206 | cleaning a cleaned title changes nothing |
| `DocumentService.Filename` | services/document_service.py:201-212 | `BRD_..._<timestamp>.docx`, space-free when domain and timestamp are |
| `DocumentService.ClassifyLine` | services/document_service.py:140-149 | blank lines are skipped; `-`/`*` lines are bullets without their mark; digit-first lines with `.` in the first 3 characters are numbered |
| `DocumentService.ClassifiedIsStripped` | services/document_service.py:141-149 | every paragraph text is stripped, and only a bullet can be empty |
| `DocumentService.ContentItems` | services/document_service.py:136-151 | empty content gives exactly one placeholder paragraph |
| `DocumentService.WhitespaceContentHasNoParagraph` | services/document_service.py:136-142 | whitespace-only content gets neither the placeholder nor any paragraph |
| `DocumentService.SectionHeadingsNumbered` | services/document_service.py:129-155 | the headings are the names numbered 1..n in dictionary order, and no content line is a heading |
| `DocumentService.BlockHeadings` | services/document_service.py:133-154 | a section adds exactly one heading |
| `DocumentService.AddLine` | services/document_service.py:140-149 | one content line adds its classified paragraph, if any |
| `DocumentService.AddContent` | services/document_service.py:136-151 | the per-line loop equals `ContentItems` |
| `DocumentService.AddSection` | services/document_service.py:133-154 | heading, content paragraphs and a spacer |
| `DocumentService.AddBrdSections` | services/document_service.py:126-155 | `section_number` tracks position + 1; the items equal `SectionItems` |
| `DocumentService.TocEntries` | services/document_service.py:117-121 | entry i is `"<i+1>. <name>"` in List Number style |
| `DocumentService.AddTableOfContents` | services/document_service.py:110-124 | the heading, the entries numbered from 1, then a page break |
| `DocumentService.TocMatchesHeadings` | services/document_service.py:117-133 | the table of contents reads exactly like the section headings |
| `DocumentService.ExportToPdf` | services/document_service.py:214-228 | the path is returned unchanged |
| `BrdGenerator.NormaliseDomain` | app/brd_generator.py:38-41 | finance iff the lower-cased domain is "finance"; anything else is pharma |
| `BrdGenerator.NormaliseIgnoresCase` | app/brd_generator.py:38 | normalisation ignores case |
| `BrdGenerator.Strings` | app/brd_generator.py:177-224 | a list of strings becomes a JSON list of the same strings |
| `BrdGenerator.NotesOrDefault` | app/brd_generator.py:175 | the stripped notes, or "None provided." when they are blank |
| `BrdGenerator.SummaryEndsWithNotes` | app/brd_generator.py:170-176 | the executive summary ends with a blank line and the notes line |
| `BrdGenerator.SummaryHasDescription` | app/brd_generator.py:173-174 | the stripped description follows the domain sentence |
| `BrdGenerator.Fill` | app/brd_generator.py:168-225 | the template's keys are the thirteen names, in order |
| `BrdGenerator.TemplateKeysDistinct` | app/brd_generator.py:168-225 | exactly thirteen distinct top-level keys |
| `BrdGenerator.TemplateTitle` | app/brd_generator.py:166-169 | the title is "Pharma BRD Draft" or "Finance BRD Draft" by domain |
| `BrdGenerator.TemplateSpecifics` | app/brd_generator.py:165-203 | objectives, functional, non-functional and regulatory come from the domain's lists |
| `BrdGenerator.TemplateSharedEntries` | app/brd_generator.py:178-224 | every other entry is the same for both domains |
| `BrdGenerator.GenerateWith` | app/brd_generator.py:37-47 | a truthy AI payload is returned as is; otherwise the template for the normalised domain |
| `BrdGenerator.NoClientUsesTemplate` | app/brd_generator.py:43-56 | without a client the template is used, the pharma one for any non-finance domain |
| `BrdGenerator.GenerateBrdTruthy` | app/brd_generator.py:43-47 | the result is always truthy |
| `App.Lookup` | app.py:160 | `form_data.get(key)`: present iff the key is |
| `App.FieldOkByLength` | app.py:161 | with a positive minimum, a field passes iff present and long enough after strip |
| `App.TitleCase` | app.py:162 | `str.title()`: a letter is upper-case iff it starts a run of letters; other characters unchanged |
| `App.TitleCaseIdempotent` | app.py:162 | title-casing twice changes nothing |
| `App.Label` | app.py:162 | underscores become spaces, and the length is unchanged |
| `App.FirstFailing` | app.py:159-163 | the first failing field: all before it pass; none iff all pass |
| `App.FormCheck` | app.py:143-165 | no issue iff the domain is given and all four length checks pass; no domain is reported first; otherwise the first failing field |
| `App.CheckFields` | app.py:159-165 | the loop stops at the first failure and reports that field |
| `App.FirstFailureReported` | app.py:159-163 | a failing field after passing ones is the one reported |
| `App.ValidateFormData` | app.py:143-165 | returns True iff no issue; otherwise the `st.error` message of the first issue |
| `App.ScoreBadge` | app.py:192 | green iff >= 0.8, yellow iff in [0.6, 0.8), red iff < 0.6 |
| `App.BadgeMonotone` | app.py:192 | a higher score never shows a worse badge |
| `App.BadgeAgreesWithPassMark` | app.py:192 | green always passes, red always fails, yellow can do either |
| `App.SectionsWithContent` | app.py:232 | counts the recorded word counts that are positive |
| `App.SectionsWithContentAreNonBlank` | app.py:232 | with unique names, this equals the non-blank count that the structure score divides |

## Left out

- The Gemini backend (`generate_brd_content`, `_construct_prompt`, `_get_domain_context`, `validate_api_connection` in services/ai_service.py): network I/O through an external SDK. The parser takes the generated text as its input.
- The OpenAI client (`__post_init__`, `_generate_with_gpt` in app/brd_generator.py): environment lookup, a network request and JSON decoding. They are the oracle parameter `ai`; a missing client is the oracle that always yields `None`.
- All python-docx work (`create_brd_document`, `_add_title_page`, `_add_appendix`, saving) and app/docx_exporter.py: binary serialisation in a library. Headings and paragraphs are modelled as a sequence of items.
- The Streamlit UI in app.py (form rendering, tabs, metrics, `display_brd_preview`, `main`): no logic beyond the form check and the badge rule.
- `validate_config` in config/settings.py: environment and directory I/O. The two tables are copied as constants.
- `format_file_size`, `format_percentage` (float formatting), `generate_unique_id` and `get_current_timestamp` (clock), `create_directory_if_not_exists` and `get_file_extension` (filesystem and `os.path`), `log_performance` and all logging, and `validate_email` (a regular expression outside the core) in utils/helpers.py.
- `:.2f` formatting: the report takes it as the parameter `fmt`. Timestamps in file names are the parameter `timestamp`.
- `ValidationResult.to_dict`: a field-by-field copy, which `ValidationResult.View` mirrors.
- The exception handler of `validate_brd_content`: no divisor is ever zero with the shipped configuration, which the model's preconditions (`requiredSections != []`) make explicit.
- Concurrent use of one `ValidationService`: the model is sequential. The `_current_result` slot is modelled, and the service is proved to hold no result between calls.
- Character classes: `str.isalnum`, `str.isalpha`, `str.isdigit`, `\w` and `str.lower`/`str.title` cover ASCII only; whitespace covers the Latin-1 range. Wider Unicode tables are not modelled.
- DocumentService.ClassifyLine: a line that starts with a non-ASCII digit (such as `٣` or `²`) and has a `.` in its first three characters is a `List Number` item in the source, but a plain paragraph in the model, because `str.isdigit` is modelled on ASCII digits only.
- The order of `extract_keywords`' result: `list(set(...))` has no defined order, so the model returns a set.

## Findings

| source | as written | input that shows it | evidently intended | confidence | as-written member | corrected member |
|---|---|---|---|---|---|---|
| services/validation_service.py:127-128 | the scorers write their missing keywords and sections back only when `_current_result` exists, but `validate_brd_content` calls them before `_generate_recommendations` sets it (line 183) and deletes it afterwards (line 221) | domain "Pharma" with content that mentions "FDA" and no other compliance keyword: no recommendation names the missing keywords | the recommendations name up to three missing keywords and all missing or thin sections | high (not executed) | `Scoring.ValidateNeverListsMissing` | `Scoring.IntendedListsMissing` |
| utils/helpers.py:26-30 | whitespace is collapsed before special characters are removed, so removing a character between two spaces leaves a double space | "a ! b" becomes "a  b", and cleaning again gives "a b" | one space between words, and cleaning is idempotent | medium (not executed) | `Helpers.CleanTextLeavesDoubleSpace` | `Helpers.CleanTextIntended` |

`ValidationService.ValidateBrdContent` keeps the as-written behaviour of the first finding, since the service's observable output depends on it. `Scoring.ValidateIntended` is the corrected composition.
