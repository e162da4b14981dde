/** The string and dictionary helpers of utils/helpers.py. The regular
    expression class `\w` and `str.isalpha()` use the ASCII classes of `Text`;
    `\s` and `str.strip()` use `Text.IsSpace`. */
module Helpers {
  import opened Text
  import opened OrderedDict
  import opened Options
  import Quality

  // ---------------------------------------------------------------------------
  // Runs of one character

  /** No two adjacent copies of `ch`. */
  predicate NoAdjacent(s: string, ch: char) {
    forall i :: 0 <= i < |s| - 1 ==> !(s[i] == ch && s[i + 1] == ch)
  }

  lemma ConsNoAdjacent(c: char, t: string, ch: char)
    requires NoAdjacent(t, ch)
    requires c == ch ==> t == [] || t[0] != ch
    ensures NoAdjacent([c] + t, ch)
  {
    var r := [c] + t;
    forall i | 1 <= i < |r| - 1 ensures !(r[i] == ch && r[i + 1] == ch) {
      assert r[i] == t[i - 1] && r[i + 1] == t[i];
    }
  }

  /** A slice keeps the property. */
  lemma SliceNoAdjacent(s: string, lo: nat, hi: nat, ch: char)
    requires lo <= hi <= |s| && NoAdjacent(s, ch)
    ensures NoAdjacent(s[lo..hi], ch)
  {
    var t := s[lo..hi];
    forall i | 0 <= i < |t| - 1 ensures !(t[i] == ch && t[i + 1] == ch) {
      assert t[i] == s[lo + i] && t[i + 1] == s[lo + i + 1];
    }
  }

  /** What `lstrip(c)` removes is copies of `c`; what it keeps was there. */
  lemma {:induction false} LStripCharMembers(s: string, c: char)
    ensures forall x :: x in s ==> x == c || x in LStripChar(s, c)
    ensures forall x :: x in LStripChar(s, c) ==> x in s
    decreases |s|
  {
    if s != [] && s[0] == c {
      LStripCharMembers(s[1..], c);
      assert forall x :: x in s ==> x == s[0] || x in s[1..];
    }
  }

  /** What `lstrip()` removes is whitespace; what it keeps was there. */
  lemma {:induction false} LStripMembers(s: string)
    ensures forall x :: x in s ==> IsSpace(x) || x in LStrip(s)
    ensures forall x :: x in LStrip(s) ==> x in s
    decreases |s|
  {
    if s != [] && IsSpace(s[0]) {
      LStripMembers(s[1..]);
      assert forall x :: x in s ==> x == s[0] || x in s[1..];
    }
  }

  /** `s.strip(c)` is a contiguous slice of `s`, starting where `lstrip` stops. */
  lemma StripCharSlice(s: string, c: char)
    ensures var lo := |s| - |LStripChar(s, c)|;
      lo + |StripChar(s, c)| <= |s| && StripChar(s, c) == s[lo..lo + |StripChar(s, c)|]
  {
  }

  // ---------------------------------------------------------------------------
  // clean_text

  /** `re.sub(r'\s+', ' ', s)`: every maximal run of whitespace becomes one
      space. */
  function CollapseSpace(s: string): (r: string)
    ensures forall c :: c in r ==> c == ' ' || (c in s && !IsSpace(c))
    ensures NoAdjacent(r, ' ')
    ensures s != [] ==> r != [] && (r[0] == ' ' <==> IsSpace(s[0]))
    decreases |s|
  {
    if s == [] then []
    else if IsSpace(s[0]) then
      var rest := LStrip(s);
      var tail := CollapseSpace(rest);
      LStripMembers(s);
      ConsNoAdjacent(' ', tail, ' ');
      [' '] + tail
    else
      var tail := CollapseSpace(s[1..]);
      assert forall c :: c in s[1..] ==> c in s;
      ConsNoAdjacent(s[0], tail, ' ');
      [s[0]] + tail
  }

  /** The characters `clean_text` keeps: `\w`, whitespace and `-.,:;()[]/&@`. */
  predicate KeptByClean(c: char) {
    IsWordChar(c) || IsSpace(c) || c in "-.,:;()[]/&@"
  }

  /** `re.sub(r'[^\w\s\-\.\,\:\;\(\)\[\]\/\&\@]', '', s)` */
  function KeepAllowed(s: string): (r: string)
    ensures forall c :: c in r <==> c in s && KeptByClean(c)
    decreases |s|
  {
    if s == [] then []
    else
      assert forall c :: c in s <==> c == s[0] || c in s[1..];
      (if KeptByClean(s[0]) then [s[0]] else []) + KeepAllowed(s[1..])
  }

  /** `clean_text`: whitespace runs collapsed, other characters filtered, then
      stripped. */
  function CleanText(text: string): (r: string)
    ensures text == "" ==> r == ""
    ensures r == [] || (!IsSpace(r[0]) && !IsSpace(r[|r| - 1]))
    ensures forall c :: c in r ==> KeptByClean(c) && (c == ' ' || c in text)
    ensures forall c :: c in r && IsSpace(c) ==> c == ' '
  {
    if text == "" then ""
    else
      var collapsed := CollapseSpace(text);
      var kept := KeepAllowed(collapsed);
      StripChars(kept);
      Strip(kept)
  }

  /** Whitespace is collapsed before characters are removed, so a removed
      character between two spaces leaves a double space (`"a ! b"` becomes
      `"a  b"`), which a second pass then collapses: `clean_text` is not
      idempotent. */
  lemma CleanTextLeavesDoubleSpace(x: char, c: char, y: char)
    requires IsAlpha(x) && IsAlpha(y) && !KeptByClean(c)
    ensures CleanText([x, ' ', c, ' ', y]) == [x, ' ', ' ', y]
    ensures CleanText(CleanText([x, ' ', c, ' ', y])) == [x, ' ', y]
  {
    CollapseKeepsSingleSpaces(x, c, y);
    KeepDropsMiddle(x, c, y);
    StripNoOp([x, ' ', ' ', y]);
    CollapseJoinsDoubleSpace(x, y);
    KeepKeepsWords(x, y);
    StripNoOp([x, ' ', y]);
  }

  lemma CollapseKeepsSingleSpaces(x: char, c: char, y: char)
    requires !IsSpace(x) && !IsSpace(c) && !IsSpace(y)
    ensures CollapseSpace([x, ' ', c, ' ', y]) == [x, ' ', c, ' ', y]
  {
    var t1: string := [y];
    var t3: string := [c] + ([' '] + t1);
    CollapseWord(y, []);
    assert [y] + [] == t1;
    CollapseOneSpace(y, []);
    CollapseWord(c, [' '] + t1);
    CollapseOneSpace(c, [' '] + t1);
    CollapseWord(x, [' '] + t3);
    CharsAsConcat5(x, ' ', c, ' ', y);
  }

  lemma KeepDropsMiddle(x: char, c: char, y: char)
    requires KeptByClean(x) && !KeptByClean(c) && KeptByClean(y)
    ensures KeepAllowed([x, ' ', c, ' ', y]) == [x, ' ', ' ', y]
  {
    var t1: string := [y];
    var t2: string := [' '] + t1;
    var t3: string := [c] + t2;
    var t4: string := [' '] + t3;
    assert KeepAllowed(t1) == t1 by { KeepCons(y, []); assert [y] + [] == t1; }
    assert KeepAllowed(t2) == t2 by { KeepCons(' ', t1); }
    assert KeepAllowed(t3) == t2 by { KeepCons(c, t2); }
    assert KeepAllowed(t4) == [' '] + t2 by { KeepCons(' ', t3); }
    assert KeepAllowed([x] + t4) == [x] + ([' '] + t2) by { KeepCons(x, t4); }
    CharsAsConcat5(x, ' ', c, ' ', y);
    CharsAsConcat4(x, ' ', ' ', y);
  }

  lemma CollapseJoinsDoubleSpace(x: char, y: char)
    requires !IsSpace(x) && !IsSpace(y)
    ensures CollapseSpace([x, ' ', ' ', y]) == [x, ' ', y]
  {
    var t1: string := [y];
    CollapseWord(y, []);
    assert [y] + [] == t1;
    CollapseOneSpace(y, []);
    var s := [' '] + ([' '] + t1);
    assert s[1..] == [' '] + t1 && s[1..][1..] == t1;
    assert LStrip(s) == t1;
    CollapseWord(x, s);
    CharsAsConcat4(x, ' ', ' ', y);
    CharsAsConcat3(x, ' ', y);
  }

  lemma KeepKeepsWords(x: char, y: char)
    requires KeptByClean(x) && KeptByClean(y)
    ensures KeepAllowed([x, ' ', y]) == [x, ' ', y]
  {
    var t1: string := [y];
    var t2: string := [' '] + t1;
    KeepCons(y, []);
    assert [y] + [] == t1;
    KeepCons(' ', t1);
    KeepCons(x, t2);
    CharsAsConcat3(x, ' ', y);
  }

  /** A display of three to five characters is the concatenation of its
      single-character sequences, nested to the right. */
  lemma CharsAsConcat3(a: char, b: char, c: char)
    ensures [a, b, c] == [a] + ([b] + [c])
  {
  }

  lemma CharsAsConcat4(a: char, b: char, c: char, d: char)
    ensures [a, b, c, d] == [a] + ([b] + ([c] + [d]))
  {
  }

  lemma CharsAsConcat5(a: char, b: char, c: char, d: char, e: char)
    ensures [a, b, c, d, e] == [a] + ([b] + ([c] + ([d] + [e])))
  {
  }

  /** One step of `CollapseSpace` over a non-space character. */
  lemma CollapseWord(c: char, t: string)
    requires !IsSpace(c)
    ensures CollapseSpace([c] + t) == [c] + CollapseSpace(t)
  {
    assert ([c] + t)[1..] == t;
  }

  /** A single space before a non-space character stays. */
  lemma CollapseOneSpace(c: char, t: string)
    requires !IsSpace(c)
    ensures CollapseSpace([' '] + ([c] + t)) == [' '] + CollapseSpace([c] + t)
  {
    var s := [' '] + ([c] + t);
    assert s[1..] == [c] + t;
    assert LStrip(s) == [c] + t;
  }

  /** One step of `KeepAllowed`. */
  lemma KeepCons(c: char, t: string)
    ensures KeepAllowed([c] + t) == (if KeptByClean(c) then [c] else []) + KeepAllowed(t)
  {
    assert ([c] + t)[1..] == t;
  }

  /** `clean_text` with the filter applied before whitespace is collapsed: the
      order under which the result never holds two adjacent spaces. */
  function CleanTextIntended(text: string): (r: string)
    ensures text == "" ==> r == ""
    ensures r == [] || (!IsSpace(r[0]) && !IsSpace(r[|r| - 1]))
    ensures forall c :: c in r ==> KeptByClean(c) && (c == ' ' || c in text)
    ensures forall c :: c in r && IsSpace(c) ==> c == ' '
    ensures NoAdjacent(r, ' ')
  {
    if text == "" then ""
    else
      var kept := KeepAllowed(text);
      var collapsed := CollapseSpace(kept);
      StripChars(collapsed);
      StripSpaces(collapsed);
      Strip(collapsed)
  }

  /** Stripping creates no doubled space. */
  lemma StripSpaces(s: string)
    requires NoAdjacent(s, ' ')
    ensures NoAdjacent(Strip(s), ' ')
  {
    var l := LStrip(s);
    SliceNoAdjacent(s, |s| - |l|, |s|, ' ');
    assert s[|s| - |l|..|s|] == l;
    var r := RStrip(l);
    SliceNoAdjacent(l, 0, |r|, ' ');
    assert l[0..|r|] == r;
    assert Strip(s) == r;
  }

  // ---------------------------------------------------------------------------
  // safe_filename

  /** The characters `safe_filename` removes. */
  const Forbidden: string := "<>:\"/\\|?*"

  /** `re.sub(r'[<>:"/\\|?*]', '', s)` */
  function DropForbidden(s: string): (r: string)
    ensures forall c :: c in r <==> c in s && c !in Forbidden
    decreases |s|
  {
    if s == [] then []
    else
      assert forall c :: c in s <==> c == s[0] || c in s[1..];
      (if s[0] in Forbidden then [] else [s[0]]) + DropForbidden(s[1..])
  }

  /** `re.sub(r'_+', '_', s)`: every run of underscores becomes one. */
  function Squeeze(s: string): (r: string)
    ensures forall c :: c in r <==> c in s
    ensures NoAdjacent(r, '_')
    ensures s != [] ==> r != [] && (r[0] == '_' <==> s[0] == '_')
    decreases |s|
  {
    if s == [] then []
    else if s[0] == '_' then
      var rest := LStripChar(s, '_');
      var tail := Squeeze(rest);
      LStripCharMembers(s, '_');
      ConsNoAdjacent('_', tail, '_');
      ['_'] + tail
    else
      var tail := Squeeze(s[1..]);
      assert forall c :: c in s <==> c == s[0] || c in s[1..];
      ConsNoAdjacent(s[0], tail, '_');
      [s[0]] + tail
  }

  /** The name before the 100-character cut. */
  function SafeStem(filename: string): (r: string)
    ensures forall c :: c in r ==> (c in filename && c !in Forbidden && c != ' ') || c == '_'
    ensures NoAdjacent(r, '_')
    ensures r == [] || (r[0] != '_' && r[|r| - 1] != '_')
  {
    var kept := DropForbidden(filename);
    var underscored := ReplaceChar(kept, ' ', '_');
    var squeezed := Squeeze(underscored);
    StripUnderscores(squeezed);
    ReplacedMembers(kept);
    StripChar(squeezed, '_')
  }

  /** Stripping underscores from the ends keeps only characters of the
      string and creates no doubled underscore. */
  lemma StripUnderscores(s: string)
    requires NoAdjacent(s, '_')
    ensures NoAdjacent(StripChar(s, '_'), '_')
    ensures forall c :: c in StripChar(s, '_') ==> c in s
  {
    StripCharSlice(s, '_');
    var lo := |s| - |LStripChar(s, '_')|;
    var hi := lo + |StripChar(s, '_')|;
    SliceNoAdjacent(s, lo, hi, '_');
    forall c | c in s[lo..hi] ensures c in s {
      var i :| lo <= i < hi && s[i] == c;
    }
  }

  lemma ReplacedMembers(kept: string)
    ensures forall c :: c in ReplaceChar(kept, ' ', '_') ==> (c in kept && c != ' ') || c == '_'
  {
    var u := ReplaceChar(kept, ' ', '_');
    forall c | c in u ensures (c in kept && c != ' ') || c == '_' {
      var i :| 0 <= i < |u| && u[i] == c;
      assert kept[i] in kept;
    }
  }

  /** `safe_filename`: no forbidden character, no space, no doubled or leading
      underscore, at most 100 characters; it ends in `_` only when the cut
      lands on one. */
  function SafeFilename(filename: string): (r: string)
    ensures |r| <= 100
    ensures forall c :: c in r ==> c !in Forbidden && c != ' '
    ensures forall c :: c in r ==> c in filename || c == '_'
    ensures NoAdjacent(r, '_')
    ensures r == [] || r[0] != '_'
    ensures r != [] && r[|r| - 1] == '_' ==> |r| == 100
  {
    CutChars(filename);
    CutUnderscores(filename);
    Cut(SafeStem(filename))
  }

  /** `safe_name[:100]` */
  function Cut(stem: string): string {
    if |stem| > 100 then stem[..100] else stem
  }

  lemma CutChars(filename: string)
    ensures forall c :: c in Cut(SafeStem(filename)) ==> c !in Forbidden && c != ' '
    ensures forall c :: c in Cut(SafeStem(filename)) ==> c in filename || c == '_'
  {
    CutMembers(SafeStem(filename));
  }

  lemma CutMembers(stem: string)
    ensures forall c :: c in Cut(stem) ==> c in stem
  {
    forall c | c in Cut(stem) ensures c in stem {
      var i :| 0 <= i < |Cut(stem)| && Cut(stem)[i] == c;
      assert stem[i] == c;
    }
  }

  lemma CutUnderscores(filename: string)
    ensures NoAdjacent(Cut(SafeStem(filename)), '_')
    ensures Cut(SafeStem(filename)) == [] || Cut(SafeStem(filename))[0] != '_'
    ensures Cut(SafeStem(filename)) != [] && Cut(SafeStem(filename))[|Cut(SafeStem(filename))| - 1] == '_'
      ==> |Cut(SafeStem(filename))| == 100
  {
    var stem := SafeStem(filename);
    if |stem| > 100 {
      SliceNoAdjacent(stem, 0, 100, '_');
    }
  }

  // ---------------------------------------------------------------------------
  // truncate_text

  /** Python's `s[:n]` for any integer `n`: a negative `n` counts from the end. */
  function PrefixTo(s: string, n: int): (r: string)
    ensures |r| <= |s| && r == s[..|r|]
    ensures 0 <= n <= |s| ==> |r| == n
    ensures n < 0 ==> |r| == (if |s| + n > 0 then |s| + n else 0)
  {
    if n >= |s| then s
    else if n >= 0 then s[..n]
    else if |s| + n > 0 then s[..|s| + n]
    else []
  }

  /** `truncate_text` */
  function TruncateText(text: string, maxLength: int, suffix: string): (r: string)
    ensures text == "" || |text| <= maxLength ==> r == text
    ensures text != "" && |text| > maxLength ==>
      |suffix| <= |r| < |text| + |suffix| && r[|r| - |suffix|..] == suffix
      && r[..|r| - |suffix|] == text[..|r| - |suffix|]
    ensures text != "" && |text| > maxLength && maxLength >= |suffix| ==> |r| == maxLength
  {
    if text == "" || |text| <= maxLength then text
    else
      var head := PrefixTo(text, maxLength - |suffix|);
      assert (head + suffix)[..|head|] == head;
      head + suffix
  }

  /** With a limit below the suffix length the slice index is negative and
      counts from the end, so the result is longer than the limit. */
  lemma TruncateBelowSuffix(text: string, maxLength: int, suffix: string)
    requires 0 <= maxLength < |suffix| && |text| > maxLength + |suffix|
    ensures |TruncateText(text, maxLength, suffix)| == |text| + maxLength > maxLength
  {
  }

  // ---------------------------------------------------------------------------
  // extract_keywords

  /** The stop words of `extract_keywords`. */
  const CommonWords: set<string> := {
    "the", "and", "or", "but", "in", "on", "at", "to", "for", "of", "with",
    "by", "from", "up", "about", "into", "through", "during", "before",
    "after", "above", "below", "between", "among", "this", "that", "these",
    "those", "is", "are", "was", "were", "be", "been", "being", "have",
    "has", "had", "do", "does", "did", "will", "would", "could", "should",
    "may", "might", "must", "can", "shall", "a", "an", "as", "if", "it",
    "its", "we", "you", "they", "them", "their", "what", "which",
    "who", "whom", "when", "where", "why", "how", "i", "me", "my", "your"
  }

  /** `re.sub(r'[^\w]', '', w)` */
  function WordCharsOnly(w: string): (r: string)
    ensures forall c :: c in r <==> c in w && IsWordChar(c)
    decreases |w|
  {
    if w == [] then []
    else
      assert forall c :: c in w <==> c == w[0] || c in w[1..];
      (if IsWordChar(w[0]) then [w[0]] else []) + WordCharsOnly(w[1..])
  }

  /** `str.isalpha()`: non-empty and letters only. */
  predicate IsAlphaWord(w: string) {
    w != "" && forall c :: c in w ==> IsAlpha(c)
  }

  /** The three conditions a cleaned word must meet. */
  predicate IsKeyword(w: string, minLength: int) {
    |w| >= minLength && w !in CommonWords && IsAlphaWord(w)
  }

  /** The keywords the loop collects from `words`, as a set. */
  function KeywordsOf(words: seq<string>, minLength: int): set<string>
    decreases |words|
  {
    if words == [] then {}
    else
      var w := WordCharsOnly(words[|words| - 1]);
      KeywordsOf(words[..|words| - 1], minLength) + (if IsKeyword(w, minLength) then {w} else {})
  }

  /** `extract_keywords`: the loop appends every qualifying cleaned word; the
      result is the set of them (`list(set(keywords))` has no duplicates and no
      defined order). */
  method ExtractKeywords(text: string, minLength: int) returns (keywords: set<string>)
    ensures keywords == if text == "" then {} else KeywordsOf(Words(Lower(text)), minLength)
  {
    if text == "" {
      return {};
    }
    var words := Words(Lower(text));
    var found: seq<string> := [];
    var i := 0;
    while i < |words|
      invariant 0 <= i <= |words|
      invariant (set w | w in found) == KeywordsOf(words[..i], minLength)
    {
      var word := WordCharsOnly(words[i]);
      ghost var before := found;
      if IsKeyword(word, minLength) {
        found := found + [word];
      }
      CollectNext(words, i, minLength, before, found);
      i := i + 1;
    }
    assert words[..i] == words;
    keywords := set w | w in found;
  }

  /** One more pass of the loop of `extract_keywords` collects the keywords
      of one more word. */
  lemma CollectNext(words: seq<string>, i: nat, minLength: int, before: seq<string>, after: seq<string>)
    requires i < |words|
    requires (set w | w in before) == KeywordsOf(words[..i], minLength)
    requires var word := WordCharsOnly(words[i]);
             after == if IsKeyword(word, minLength) then before + [word] else before
    ensures (set w | w in after) == KeywordsOf(words[..i + 1], minLength)
  {
    var word := WordCharsOnly(words[i]);
    assert words[..i + 1][..i] == words[..i];
    MembersOfGrown(before, after, word, IsKeyword(word, minLength));
  }

  /** The members of a sequence that may have grown by one element. */
  lemma MembersOfGrown(before: seq<string>, after: seq<string>, x: string, grown: bool)
    requires after == if grown then before + [x] else before
    ensures (set w | w in after) == (set w | w in before) + (if grown then {x} else {})
  {
  }

  /** A set member is the cleaned form of some word that qualifies. */
  lemma {:induction false} KeywordsOfMembers(words: seq<string>, minLength: int, k: string)
    ensures k in KeywordsOf(words, minLength) <==>
      IsKeyword(k, minLength) && exists x :: x in words && WordCharsOnly(x) == k
    decreases |words|
  {
    if words != [] {
      var init := words[..|words| - 1];
      var last := words[|words| - 1];
      assert words == init + [last];
      KeywordsOfMembers(init, minLength, k);
      if k in KeywordsOf(words, minLength) && k in KeywordsOf(init, minLength) {
        var x :| x in init && WordCharsOnly(x) == k;
        assert x in words;
      }
      if IsKeyword(k, minLength) && exists x :: x in words && WordCharsOnly(x) == k {
        var x :| x in words && WordCharsOnly(x) == k;
        if x != last {
          assert x in init;
        }
      }
    }
  }

  /** Every extracted keyword is lower-case, alphabetic, at least `minLength`
      long and not a stop word. */
  lemma ExtractedKeywords(text: string, minLength: int, k: string)
    requires k in KeywordsOf(Words(Lower(text)), minLength)
    ensures IsKeyword(k, minLength)
    ensures forall c :: c in k ==> IsLower(c)
  {
    KeywordsOfMembers(Words(Lower(text)), minLength, k);
    var x :| x in Words(Lower(text)) && WordCharsOnly(x) == k;
    forall c | c in k ensures IsLower(c) {
      assert c in Lower(text);
      var i :| 0 <= i < |Lower(text)| && Lower(text)[i] == c;
      assert !IsUpper(c);
    }
  }

  // ---------------------------------------------------------------------------
  // calculate_readability_score

  /** `[s.strip() for s in parts if s.strip()]` */
  function Fragments(parts: seq<string>): (r: seq<string>)
    ensures |r| <= |parts|
    ensures forall s :: s in r ==> s != ""
    decreases |parts|
  {
    if parts == [] then []
    else
      var s := Strip(parts[|parts| - 1]);
      Fragments(parts[..|parts| - 1]) + (if s != "" then [s] else [])
  }

  /** The score for an average sentence length. */
  function SentenceBand(avg: real): (r: real)
    ensures r == 1.0 || r == 0.8 || r == 0.6 || r == 0.4
  {
    if 15.0 <= avg <= 20.0 then 1.0
    else if (10.0 <= avg < 15.0) || (20.0 < avg <= 25.0) then 0.8
    else if (5.0 <= avg < 10.0) || (25.0 < avg <= 30.0) then 0.6
    else 0.4
  }

  /** The bands are symmetric about 17.5 words: the score depends only on the
      distance from it, in steps of 2.5, 7.5 and 12.5. */
  lemma BandByDistance(avg: real)
    ensures var d := if avg >= 17.5 then avg - 17.5 else 17.5 - avg;
      SentenceBand(avg) == if d <= 2.5 then 1.0 else if d <= 7.5 then 0.8 else if d <= 12.5 then 0.6 else 0.4
  {
  }

  /** `calculate_readability_score` */
  function ReadabilityScore(text: string): (r: real)
    ensures r == 0.0 || r == 0.4 || r == 0.6 || r == 0.8 || r == 1.0
    ensures r == 0.0 <==> Fragments(Split(text, '.')) == []
  {
    if text == "" then
      assert Split(text, '.') == [""];
      assert Strip("") == "";
      0.0
    else
      var sentences := Fragments(Split(text, '.'));
      if sentences == [] then 0.0
      else SentenceBand(Quality.SentenceWords(sentences) as real / |sentences| as real)
  }

  // ---------------------------------------------------------------------------
  // merge_dicts

  /** `result = dict1.copy(); result.update(dict2)` */
  function Merge<V>(d1: Dict<V>, d2: Dict<V>): Dict<V>
    decreases |d2|
  {
    if d2 == [] then d1
    else
      var e := d2[|d2| - 1];
      Put(Merge(d1, d2[..|d2| - 1]), e.0, e.1)
  }

  /** `merge_dicts`: a copy of the first dictionary updated entry by entry from
      the second. The arguments are values, so neither is changed. */
  method MergeDicts<V>(dict1: Dict<V>, dict2: Dict<V>) returns (result: Dict<V>)
    ensures result == Merge(dict1, dict2)
  {
    result := dict1;
    var i := 0;
    assert dict2[..i] == [];
    while i < |dict2|
      invariant 0 <= i <= |dict2|
      invariant result == Merge(dict1, dict2[..i])
    {
      MergeNext(dict1, dict2, i);
      result := Put(result, dict2[i].0, dict2[i].1);
      i := i + 1;
    }
    assert dict2[..i] == dict2;
  }

  /** The merge has the union of the keys. */
  lemma {:induction false} MergeKeys<V>(d1: Dict<V>, d2: Dict<V>, k: string)
    ensures HasKey(Merge(d1, d2), k) <==> HasKey(d1, k) || HasKey(d2, k)
    decreases |d2|
  {
    if d2 != [] {
      var init := d2[..|d2| - 1];
      var e := d2[|d2| - 1];
      MergeKeys(d1, init, k);
      HasKeyOfLast(d2, k);
      if k != e.0 {
        PutOtherKey(Merge(d1, init), e.0, e.1, k);
      }
    }
  }

  /** A key of a non-empty dictionary is its last key or a key of the rest. */
  lemma HasKeyOfLast<V>(d: Dict<V>, k: string)
    requires d != []
    ensures HasKey(d, k) <==> HasKey(d[..|d| - 1], k) || k == d[|d| - 1].0
  {
    assert Keys(d) == Keys(d[..|d| - 1]) + [d[|d| - 1].0];
  }

  /** Merging one more entry of the second dictionary is one more `Put`. */
  lemma MergeNext<V>(d1: Dict<V>, d2: Dict<V>, i: nat)
    requires i < |d2|
    ensures Merge(d1, d2[..i + 1]) == Put(Merge(d1, d2[..i]), d2[i].0, d2[i].1)
  {
    assert d2[..i + 1][..i] == d2[..i];
  }

  /** A key of the second dictionary takes its value from there; any other key
      keeps the first dictionary's value. */
  lemma {:induction false} MergeValues<V>(d1: Dict<V>, d2: Dict<V>, k: string)
    requires UniqueKeys(d2)
    requires HasKey(d1, k) || HasKey(d2, k)
    ensures HasKey(Merge(d1, d2), k)
    ensures Get(Merge(d1, d2), k) == if HasKey(d2, k) then Get(d2, k) else Get(d1, k)
    decreases |d2|
  {
    MergeKeys(d1, d2, k);
    if d2 != [] {
      var init := d2[..|d2| - 1];
      var e := d2[|d2| - 1];
      if k != e.0 {
        InitKeyValue(d2, k);
        UniqueInit(d2);
        MergeValues(d1, init, k);
      } else {
        LastKeyValue(d2);
      }
    }
  }

  /** All but the last entry of a dictionary with unique keys have unique keys. */
  lemma UniqueInit<V>(d: Dict<V>)
    requires d != [] && UniqueKeys(d)
    ensures UniqueKeys(d[..|d| - 1])
  {
    var init := d[..|d| - 1];
    forall i, j | 0 <= i < j < |init| ensures init[i].0 != init[j].0 {
      assert init[i] == d[i] && init[j] == d[j];
    }
  }

  /** With unique keys, the last entry's key maps to the last entry's value. */
  lemma LastKeyValue<V>(d: Dict<V>)
    requires d != [] && UniqueKeys(d)
    ensures HasKey(d, d[|d| - 1].0) && Get(d, d[|d| - 1].0) == d[|d| - 1].1
  {
    KeyAt(d, |d| - 1);
  }

  /** A key other than the last one is found, with the same value, in all
      but the last entry. */
  lemma InitKeyValue<V>(d: Dict<V>, k: string)
    requires d != [] && k != d[|d| - 1].0
    ensures HasKey(d, k) <==> HasKey(d[..|d| - 1], k)
    ensures HasKey(d, k) ==> Get(d, k) == Get(d[..|d| - 1], k)
  {
    var init := d[..|d| - 1];
    assert Keys(d) == Keys(init) + [d[|d| - 1].0];
    if HasKey(init, k) {
      IndexOfPrefix(init, d, k);
    }
  }

  /** The first dictionary's entries keep their order at the front. */
  lemma {:induction false} MergeKeepsFirstKeys<V>(d1: Dict<V>, d2: Dict<V>)
    ensures |Merge(d1, d2)| >= |d1| && Keys(Merge(d1, d2))[..|d1|] == Keys(d1)
    decreases |d2|
  {
    if d2 != [] {
      MergeKeepsFirstKeys(d1, d2[..|d2| - 1]);
    }
  }

  // ---------------------------------------------------------------------------
  // validate_json_structure and is_valid_domain

  /** `validate_json_structure`: `data` is `None` for a value that is not a
      dictionary. The loop returns at the first absent key. */
  method ValidateJsonStructure<V>(data: Option<Dict<V>>, requiredKeys: seq<string>) returns (ok: bool)
    ensures ok <==> data.Some? && forall k :: k in requiredKeys ==> HasKey(data.value, k)
  {
    if data.None? {
      return false;
    }
    var i := 0;
    while i < |requiredKeys|
      invariant 0 <= i <= |requiredKeys|
      invariant forall j :: 0 <= j < i ==> HasKey(data.value, requiredKeys[j])
    {
      if !HasKey(data.value, requiredKeys[i]) {
        return false;
      }
      i := i + 1;
    }
    return true;
  }

  /** `is_valid_domain`: exact, case-sensitive membership. */
  function IsValidDomain(domain: string, supportedDomains: seq<string>): (b: bool)
    ensures b <==> exists i :: 0 <= i < |supportedDomains| && supportedDomains[i] == domain
  {
    domain in supportedDomains
  }

  /** Case matters: the lower-case name of a supported domain is refused. */
  lemma DomainCaseSensitive()
    ensures !IsValidDomain("pharma", ["Pharma", "Finance"])
    ensures IsValidDomain("Pharma", ["Pharma", "Finance"])
  {
    assert "pharma"[0] != "Pharma"[0];
    assert "pharma" != "Finance";
  }
}
