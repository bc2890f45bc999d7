/**
 * The rich-text flattening helpers: the bold and underline character maps,
 * `convertToAscii`, `convertMention`, `cleanExcessParagraphTags`, and the
 * short-circuits of `stripHtmlValidation`.
 *
 * Each global regular-expression replacement is written out as a left-to-right
 * scan: at each position the pattern either matches, and the match is rewritten
 * and the scan goes on after it, or it does not, and the character is kept. The
 * match rule of each pattern is spelled out next to it.
 */
module StripHtml {
  import opened Wrappers
  import opened Text

  // ---------------------------------------------------------------------------
  // The character maps

  /** The 62 keys of both maps: the ASCII letters and digits. */
  predicate IsMapKey(c: char) {
    'a' <= c <= 'z' || 'A' <= c <= 'Z' || '0' <= c <= '9'
  }

  /**
   * `bold[c]`: the mathematical sans-serif bold form of a key; the table runs
   * a–z from U+1D5EE, A–Z from U+1D5D4 and 0–9 from U+1D7EC.
   */
  function Bold(c: char): (r: char)
    requires IsMapKey(c)
  {
    if 'a' <= c <= 'z' then (0x1D5EE + (c as int - 'a' as int)) as char
    else if 'A' <= c <= 'Z' then (0x1D5D4 + (c as int - 'A' as int)) as char
    else (0x1D7EC + (c as int - '0' as int)) as char
  }

  /** `underlineMap[c]`: the key followed by U+0332 COMBINING LOW LINE. */
  function Underline(c: char): (r: string)
    requires IsMapKey(c)
  {
    [c, '\U{0332}']
  }

  /** The bold map sends distinct keys to distinct characters, none of them a key. */
  lemma BoldDistinct(c: char, d: char)
    requires IsMapKey(c) && IsMapKey(d)
    ensures c != d ==> Bold(c) != Bold(d)
    ensures IsBoldForm(Bold(c)) && !IsMapKey(Bold(c))
  {
  }

  /** `bold?.[char] || char` on one character. */
  function BoldChar(c: char): char {
    if IsMapKey(c) then Bold(c) else c
  }

  /** `underlineMap?.[char] || char` on one character. */
  function UnderlineChar(c: char): string {
    if IsMapKey(c) then Underline(c) else [c]
  }

  /** `p1.split('').map(bold…).join('')`. */
  function BoldText(p: string): (r: string)
    ensures |r| == |p|
  {
    seq(|p|, k requires 0 <= k < |p| => BoldChar(p[k]))
  }

  /** `p1.split('').map(underline…).join('')`. */
  function UnderlineText(p: string): (r: string)
    ensures |r| >= |p|
  {
    if |p| == 0 then "" else UnderlineChar(p[0]) + UnderlineText(p[1..])
  }

  /** Characters that are not keys are left as they are; keys become their bold form. */
  lemma BoldTextPointwise(p: string, k: nat)
    requires k < |p|
    ensures IsMapKey(p[k]) ==> BoldText(p)[k] == Bold(p[k])
    ensures !IsMapKey(p[k]) ==> BoldText(p)[k] == p[k]
  {
  }

  /** The characters the bold map produces. */
  predicate IsBoldForm(c: char) {
    '\U{1D5D4}' <= c <= '\U{1D607}' || '\U{1D7EC}' <= c <= '\U{1D7F5}'
  }

  /** The inverse of the bold map on its image; every other character is kept. */
  function UnboldChar(c: char): (r: char)
    ensures IsBoldForm(c) ==> IsMapKey(r) && Bold(r) == c
    ensures !IsBoldForm(c) ==> r == c
  {
    if '\U{1D5EE}' <= c <= '\U{1D607}' then ((c as int - 0x1D5EE) + 'a' as int) as char
    else if '\U{1D5D4}' <= c <= '\U{1D5ED}' then ((c as int - 0x1D5D4) + 'A' as int) as char
    else if '\U{1D7EC}' <= c <= '\U{1D7F5}' then ((c as int - 0x1D7EC) + '0' as int) as char
    else c
  }

  /** Text without bold characters comes back from bold text character by character. */
  lemma BoldTextRoundTrip(p: string)
    requires forall k :: 0 <= k < |p| ==> !IsBoldForm(p[k])
    ensures seq(|p|, k requires 0 <= k < |p| => UnboldChar(BoldText(p)[k])) == p
  {
    forall k | 0 <= k < |p|
      ensures UnboldChar(BoldText(p)[k]) == p[k]
    {
      BoldTextPointwise(p, k);
    }
  }

  /** Dropping every U+0332. */
  function WithoutLowLines(s: string): (r: string)
    ensures |r| <= |s|
  {
    if |s| == 0 then "" else KeptChar(s[0]) + WithoutLowLines(s[1..])
  }

  function KeptChar(c: char): string {
    if c == '\U{0332}' then "" else [c]
  }

  lemma {:induction false} WithoutLowLinesConcat(a: string, b: string)
    ensures WithoutLowLines(a + b) == WithoutLowLines(a) + WithoutLowLines(b)
  {
    if |a| == 0 {
      assert a + b == b;
    } else {
      var ab := a + b;
      assert ab[0] == a[0] && ab[1..] == a[1..] + b;
      WithoutLowLinesConcat(a[1..], b);
      calc {
        WithoutLowLines(ab);
        KeptChar(a[0]) + WithoutLowLines(a[1..] + b);
        KeptChar(a[0]) + (WithoutLowLines(a[1..]) + WithoutLowLines(b));
        (KeptChar(a[0]) + WithoutLowLines(a[1..])) + WithoutLowLines(b);
      }
    }
  }

  /** Underlined text without its low lines is the original text, when that had none. */
  lemma {:induction false} UnderlineTextRoundTrip(p: string)
    requires '\U{0332}' !in p
    ensures WithoutLowLines(UnderlineText(p)) == p
  {
    if |p| > 0 {
      assert p[0] in p;
      UnderlineTextRoundTrip(p[1..]);
      WithoutLowLinesConcat(UnderlineChar(p[0]), UnderlineText(p[1..]));
      var u := UnderlineChar(p[0]);
      if IsMapKey(p[0]) {
        assert u[1..][1..] == [];
        assert WithoutLowLines(u) == [p[0]];
      } else {
        assert u[1..] == [];
        assert WithoutLowLines(u) == [p[0]];
      }
      assert p == [p[0]] + p[1..];
    }
  }

  // ---------------------------------------------------------------------------
  // JavaScript `str.replace(pattern, replacement)` with a string pattern

  /**
   * The replacement text after JavaScript's `$` substitutions: `$$` is `$`, `$&` the matched
   * text, `` $` `` the text before the match and `$'` the text after it; with a string pattern
   * there are no groups, so every other `$` stays as it is.
   */
  function Substitute(repl: string, matched: string, before: string, after: string): (r: string)
    ensures '$' !in repl ==> r == repl
    decreases |repl|
  {
    if |repl| == 0 then ""
    else if repl[0] == '$' && |repl| >= 2 && repl[1] == '$' then "$" + Substitute(repl[2..], matched, before, after)
    else if repl[0] == '$' && |repl| >= 2 && repl[1] == '&' then matched + Substitute(repl[2..], matched, before, after)
    else if repl[0] == '$' && |repl| >= 2 && repl[1] == '`' then before + Substitute(repl[2..], matched, before, after)
    else if repl[0] == '$' && |repl| >= 2 && repl[1] == '\'' then after + Substitute(repl[2..], matched, before, after)
    else
      assert '$' !in repl ==> '$' !in repl[1..] by {
        if '$' in repl[1..] {
          var k :| 0 <= k < |repl[1..]| && repl[1..][k] == '$';
          assert repl[k + 1] == '$';
        }
      }
      assert repl == [repl[0]] + repl[1..];
      [repl[0]] + Substitute(repl[1..], matched, before, after)
  }

  /** `s.replace(pattern, repl)`: only the first occurrence of `pattern` is replaced. */
  function ReplaceString(s: string, pattern: string, repl: string): (r: string)
    ensures !Contains(s, pattern) ==> r == s
    ensures Contains(s, pattern) && '$' !in repl ==>
      var k := IndexOf(s, pattern); r == s[..k] + repl + s[k + |pattern|..]
  {
    var k := IndexOf(s, pattern);
    if k < 0 then s
    else s[..k] + Substitute(repl, pattern, s[..k], s[k + |pattern|..]) + s[k + |pattern|..]
  }

  // ---------------------------------------------------------------------------
  // The patterns

  /** The regular expressions the helpers replace with, each with what its replacement needs. */
  datatype Pattern =
    | StrongTag                                     // /<strong>(.+?)<\/strong>/gi
    | UnderlineTag                                  // /<u>(.+?)<\/u>/gi
    | MentionSpan(process: (string, string) -> string)  // /<span.*?data-mention-id="([.\s\S]*?)"[.\s\S]*?>([.\s\S]*?)<\/span>/gi
    | EmptyParagraph                                // /<p[^>]*>\s*<\/p>/gi
    | ParagraphBreak                                // /<\/p>\s*<p[^>]*>/gi

  /** Where a match ends and what its groups captured. */
  datatype RegexMatch = RegexMatch(end: nat, group1: string, group2: string)

  /** What `.` does not match. */
  predicate IsLineTerminator(c: char) {
    c == '\n' || c == '\r' || c == '\U{2028}' || c == '\U{2029}'
  }

  predicate NoLineTerminator(s: string) {
    forall k :: 0 <= k < |s| ==> !IsLineTerminator(s[k])
  }

  /** The first position at or after `i` that is not JavaScript white space (`\s*`, greedy). */
  function SkipSpace(s: string, i: nat): (r: nat)
    requires i <= |s|
    ensures i <= r <= |s|
    ensures forall k :: i <= k < r ==> IsJsSpace(s[k])
    ensures r < |s| ==> !IsJsSpace(s[r])
    decreases |s| - i
  {
    if i < |s| && IsJsSpace(s[i]) then SkipSpace(s, i + 1) else i
  }

  /**
   * `/<open>(.+?)<close>/i` at `i`: the group runs to the first closing tag at least one
   * character on. A line break before that tag rules out every later one too, so then
   * there is no match here.
   */
  function LazyTagMatch(s: string, i: nat, opening: string, closing: string): (r: Option<RegexMatch>)
    ensures r.Some? ==> i < r.value.end <= |s|
  {
    if !OccursAtIgnoreCase(s, opening, i) then None
    else
      var j := i + |opening|;
      var e := IndexOfIgnoreCaseFrom(s, closing, j + 1);
      if e < 0 || !NoLineTerminator(s[j..e]) then None
      else Some(RegexMatch(e + |closing|, s[j..e], ""))
  }

  /**
   * The mention pattern at `i`: `<span`, then (on one line) the first `data-mention-id="`,
   * the id up to the next `"`, the rest of the tag up to the next `>`, and the name up to
   * the first `</span>`. Each lazy part takes its first completion; taking a later one
   * would only move the later parts further on, so if the first fails all fail.
   */
  function MentionMatch(s: string, i: nat): (r: Option<RegexMatch>)
    ensures r.Some? ==> i < r.value.end <= |s|
  {
    if !OccursAtIgnoreCase(s, "<span", i) then None
    else
      var a := IndexOfIgnoreCaseFrom(s, "data-mention-id=\"", i + 5);
      if a < 0 || !NoLineTerminator(s[i + 5..a]) then None
      else
        var p := a + 17;
        var b := IndexOfFrom(s, "\"", p);
        if b < 0 then None
        else
          var c := IndexOfFrom(s, ">", b + 1);
          if c < 0 then None
          else
            var d := IndexOfIgnoreCaseFrom(s, "</span>", c + 1);
            if d < 0 then None
            else Some(RegexMatch(d + 7, s[p..b], s[c + 1..d]))
  }

  /** `<p[^>]*>\s*<\/p>` at `i`: a tag starting `<p` up to its first `>`, white space, `</p>`. */
  function EmptyParagraphMatch(s: string, i: nat): (r: Option<RegexMatch>)
    ensures r.Some? ==> i < r.value.end <= |s|
  {
    if !OccursAtIgnoreCase(s, "<p", i) then None
    else
      var g := IndexOfFrom(s, ">", i + 2);
      if g < 0 then None
      else
        var w := SkipSpace(s, g + 1);
        if OccursAtIgnoreCase(s, "</p>", w) then Some(RegexMatch(w + 4, "", "")) else None
  }

  /** `<\/p>\s*<p[^>]*>` at `i`: `</p>`, white space, a tag starting `<p` up to its first `>`. */
  function ParagraphBreakMatch(s: string, i: nat): (r: Option<RegexMatch>)
    ensures r.Some? ==> i < r.value.end <= |s|
  {
    if !OccursAtIgnoreCase(s, "</p>", i) then None
    else
      var w := SkipSpace(s, i + 4);
      if !OccursAtIgnoreCase(s, "<p", w) then None
      else
        var g := IndexOfFrom(s, ">", w + 2);
        if g < 0 then None else Some(RegexMatch(g + 1, "", ""))
  }

  function MatchAt(pat: Pattern, s: string, i: nat): (r: Option<RegexMatch>)
    ensures r.Some? ==> i < r.value.end <= |s|
  {
    match pat
    case StrongTag => LazyTagMatch(s, i, "<strong>", "</strong>")
    case UnderlineTag => LazyTagMatch(s, i, "<u>", "</u>")
    case MentionSpan(_) => MentionMatch(s, i)
    case EmptyParagraph => EmptyParagraphMatch(s, i)
    case ParagraphBreak => ParagraphBreakMatch(s, i)
  }

  /**
   * What a match is replaced with. The bold and underline callbacks replace the first
   * occurrence of the group's text in the whole match, which may lie inside the tag name,
   * and their replacement is subject to `$` substitution.
   */
  function Rewrite(pat: Pattern, s: string, i: nat, m: RegexMatch): string
    requires i <= m.end <= |s|
  {
    match pat
    case StrongTag => ReplaceString(s[i..m.end], m.group1, BoldText(m.group1))
    case UnderlineTag => ReplaceString(s[i..m.end], m.group1, UnderlineText(m.group1))
    case MentionSpan(process) => "<span>" + process(m.group1, m.group2) + "</span>"
    case EmptyParagraph => ""
    case ParagraphBreak => "\n"
  }

  /** Finding a match at a position, and rewriting one. */
  type Finder = (string, nat) -> Option<RegexMatch>
  type Rewriter = (string, nat, RegexMatch) -> string

  /** A match at `i` that ends after `i` and within the text. */
  predicate Hit(find: Finder, s: string, i: nat) {
    find(s, i).Some? && i < find(s, i).value.end <= |s|
  }

  /**
   * A global replacement from position `i` on: each match is rewritten and the search resumes
   * where it ended; a position where nothing matches keeps its character.
   */
  function Scan(find: Finder, rewrite: Rewriter, s: string, i: nat): string
    decreases |s| - i
  {
    if i >= |s| then ""
    else if Hit(find, s, i) then rewrite(s, i, find(s, i).value) + Scan(find, rewrite, s, find(s, i).value.end)
    else [s[i]] + Scan(find, rewrite, s, i + 1)
  }

  /** Where nothing matches from `i` on, the text is kept. */
  lemma {:induction false} ScanNoHit(find: Finder, rewrite: Rewriter, s: string, i: nat)
    requires i <= |s|
    requires forall k :: i <= k < |s| ==> !Hit(find, s, k)
    ensures Scan(find, rewrite, s, i) == s[i..]
    decreases |s| - i
  {
    if i < |s| {
      ScanNoHit(find, rewrite, s, i + 1);
      assert s[i..] == [s[i]] + s[i + 1..];
    }
  }

  /** The text before the first match is kept, the match is rewritten, and the search resumes after it. */
  lemma {:induction false} ScanFirstHit(find: Finder, rewrite: Rewriter, s: string, i: nat, k: nat)
    requires i <= k < |s| && Hit(find, s, k)
    requires forall j :: i <= j < k ==> !Hit(find, s, j)
    ensures Scan(find, rewrite, s, i)
      == s[i..k] + rewrite(s, k, find(s, k).value) + Scan(find, rewrite, s, find(s, k).value.end)
    decreases k - i
  {
    if i < k {
      ScanFirstHit(find, rewrite, s, i + 1, k);
      ScanSkips(find, rewrite, s, i);
      ConsSlice(s, i, k, rewrite(s, k, find(s, k).value), Scan(find, rewrite, s, find(s, k).value.end));
    }
  }

  /** A position where nothing matches keeps its character. */
  lemma ScanSkips(find: Finder, rewrite: Rewriter, s: string, i: nat)
    requires i < |s| && !Hit(find, s, i)
    ensures Scan(find, rewrite, s, i) == [s[i]] + Scan(find, rewrite, s, i + 1)
  {
  }

  lemma ConsSlice(s: string, i: nat, k: nat, x: string, y: string)
    requires i < k <= |s|
    ensures [s[i]] + (s[i + 1..k] + x + y) == s[i..k] + x + y
  {
    assert s[i..k] == [s[i]] + s[i + 1..k];
  }

  function FinderOf(pat: Pattern): Finder {
    (s: string, i: nat) => MatchAt(pat, s, i)
  }

  function RewriterOf(pat: Pattern): Rewriter {
    (s: string, i: nat, m: RegexMatch) => if i <= m.end <= |s| then Rewrite(pat, s, i, m) else ""
  }

  /** `s.replace(pattern, callback)` with one of the global patterns, from position `i` on. */
  function ReplaceMatches(pat: Pattern, s: string, i: nat): string {
    Scan(FinderOf(pat), RewriterOf(pat), s, i)
  }

  /** Every match the patterns produce is a hit. */
  lemma MatchIsHit(pat: Pattern, s: string, i: nat)
    ensures Hit(FinderOf(pat), s, i) <==> MatchAt(pat, s, i).Some?
  {
  }

  /** Where the pattern matches nowhere from `i` on, the text is kept. */
  lemma NoMatchUnchanged(pat: Pattern, s: string, i: nat)
    requires i <= |s|
    requires forall k :: i <= k < |s| ==> MatchAt(pat, s, k).None?
    ensures ReplaceMatches(pat, s, i) == s[i..]
  {
    forall k | i <= k < |s|
      ensures !Hit(FinderOf(pat), s, k)
    {
      MatchIsHit(pat, s, k);
    }
    ScanNoHit(FinderOf(pat), RewriterOf(pat), s, i);
  }

  /** The text before the first match is kept, the match is rewritten, and the search resumes after it. */
  lemma FirstMatchRewritten(pat: Pattern, s: string, i: nat, k: nat)
    requires i <= k < |s| && MatchAt(pat, s, k).Some?
    requires forall j :: i <= j < k ==> MatchAt(pat, s, j).None?
    ensures ReplaceMatches(pat, s, i)
      == s[i..k] + Rewrite(pat, s, k, MatchAt(pat, s, k).value) + ReplaceMatches(pat, s, MatchAt(pat, s, k).value.end)
  {
    forall j | i <= j < k
      ensures !Hit(FinderOf(pat), s, j)
    {
      MatchIsHit(pat, s, j);
    }
    MatchIsHit(pat, s, k);
    ScanFirstHit(FinderOf(pat), RewriterOf(pat), s, i, k);
  }

  // ---------------------------------------------------------------------------
  // The helpers

  /**
   * `convertToAscii`: bold text inside `<strong>`, then underlined text inside `<u>`. Text with
   * no `<strong>` and no `<u>` (in any letter case) is returned unchanged.
   */
  function ConvertToAscii(value: string): (r: string)
    ensures IndexOfIgnoreCaseFrom(value, "<strong>", 0) == -1 && IndexOfIgnoreCaseFrom(value, "<u>", 0) == -1
      ==> r == value
  {
    if IndexOfIgnoreCaseFrom(value, "<strong>", 0) == -1 && IndexOfIgnoreCaseFrom(value, "<u>", 0) == -1 then
      AbsentTagNoMatch(StrongTag, value, "<strong>");
      NoMatchUnchanged(StrongTag, value, 0);
      assert value[0..] == value;
      AbsentTagNoMatch(UnderlineTag, value, "<u>");
      NoMatchUnchanged(UnderlineTag, value, 0);
      ReplaceMatches(UnderlineTag, ReplaceMatches(StrongTag, value, 0), 0)
    else
      ReplaceMatches(UnderlineTag, ReplaceMatches(StrongTag, value, 0), 0)
  }

  /** `convertMention`: without a callback the text is kept; otherwise each mention span is rewritten. */
  function ConvertMention(value: string, process: Option<(string, string) -> string>): (r: string)
    ensures process.None? ==> r == value
  {
    if process.None? then value else ReplaceMatches(MentionSpan(process.value), value, 0)
  }

  /**
   * `cleanExcessParagraphTags`: drop empty paragraphs, then join paragraphs with a line break.
   * Text with no `<p` (in any letter case) has no paragraph tags to clean.
   */
  function CleanExcessParagraphTags(html: string): (r: string)
    ensures IndexOfIgnoreCaseFrom(html, "<p", 0) == -1 ==> r == html
  {
    if IndexOfIgnoreCaseFrom(html, "<p", 0) == -1 then
      AbsentTagNoMatch(EmptyParagraph, html, "<p");
      NoMatchUnchanged(EmptyParagraph, html, 0);
      assert html[0..] == html;
      AbsentTagNoMatch(ParagraphBreak, html, "<p");
      NoMatchUnchanged(ParagraphBreak, html, 0);
      ReplaceMatches(ParagraphBreak, ReplaceMatches(EmptyParagraph, html, 0), 0)
    else
      ReplaceMatches(ParagraphBreak, ReplaceMatches(EmptyParagraph, html, 0), 0)
  }

  /** A tag that occurs nowhere leaves nothing for its pattern to match. */
  lemma AbsentTagNoMatch(pat: Pattern, s: string, tag: string)
    requires pat.StrongTag? ==> tag == "<strong>"
    requires pat.UnderlineTag? ==> tag == "<u>"
    requires pat.MentionSpan? ==> tag == "<span"
    requires pat.EmptyParagraph? || pat.ParagraphBreak? ==> tag == "<p"
    requires IndexOfIgnoreCaseFrom(s, tag, 0) == -1
    ensures forall k :: 0 <= k < |s| ==> MatchAt(pat, s, k).None?
  {
    forall k | 0 <= k < |s|
      ensures MatchAt(pat, s, k).None?
    {
      assert !OccursAtIgnoreCase(s, tag, k);
      if pat.ParagraphBreak? && OccursAtIgnoreCase(s, "</p>", k) {
        var w := SkipSpace(s, k + 4);
        assert !OccursAtIgnoreCase(s, "<p", w);
      }
    }
  }

  /** Text with no `<span` (in any letter case) keeps its text, callback or not. */
  lemma ConvertMentionNoSpans(value: string, process: Option<(string, string) -> string>)
    requires IndexOfIgnoreCaseFrom(value, "<span", 0) == -1
    ensures ConvertMention(value, process) == value
  {
    if process.Some? {
      AbsentTagNoMatch(MentionSpan(process.value), value, "<span");
      NoMatchUnchanged(MentionSpan(process.value), value, 0);
      assert value[0..] == value;
    }
  }

  /** Each mention span becomes `<span>`, the callback's text for its id and name, and `</span>`. */
  lemma MentionSpanRewritten(value: string, process: (string, string) -> string, k: nat, m: RegexMatch)
    requires k < |value| && MatchAt(MentionSpan(process), value, k) == Some(m)
    requires forall j :: 0 <= j < k ==> MatchAt(MentionSpan(process), value, j).None?
    ensures ConvertMention(value, Some(process))
      == value[..k] + ("<span>" + process(m.group1, m.group2) + "</span>") + ReplaceMatches(MentionSpan(process), value, m.end)
  {
    FirstMatchRewritten(MentionSpan(process), value, 0, k);
    assert value[0..k] == value[..k];
  }

  /** `\s*` stops at the first character that is not white space. */
  lemma {:induction false} SkipSpaceOver(s: string, i: nat, n: nat)
    requires i + n <= |s|
    requires forall k :: i <= k < i + n ==> IsJsSpace(s[k])
    requires i + n < |s| ==> !IsJsSpace(s[i + n])
    ensures SkipSpace(s, i) == i + n
    decreases n
  {
    if n > 0 {
      SkipSpaceOver(s, i + 1, n - 1);
    }
  }

  predicate AllJsSpace(w: string) {
    forall k :: 0 <= k < |w| ==> IsJsSpace(w[k])
  }

  /** A paragraph holding only white space is deleted. */
  lemma EmptyParagraphDeleted(w: string)
    requires AllJsSpace(w)
    ensures ReplaceMatches(EmptyParagraph, "<p>" + w + "</p>", 0) == ""
  {
    var t := "<p>" + w + "</p>";
    var e := 3 + |w|;
    assert MatchAt(EmptyParagraph, t, 0) == Some(RegexMatch(|t|, "", "")) by {
      assert OccursAtIgnoreCase(t, "<p", 0) by {
        assert t[0..2] == "<p";
      }
      assert IndexOfFrom(t, ">", 2) == 2 by {
        assert t[2..3] == ">";
      }
      assert SkipSpace(t, 3) == e by {
        assert t[e] == '<';
        SkipSpaceOver(t, 3, |w|);
      }
      assert OccursAtIgnoreCase(t, "</p>", e) by {
        assert t[e..e + 4] == "</p>";
      }
    }
    FirstMatchRewritten(EmptyParagraph, t, 0, 0);
    assert t[0..0] == [];
  }

  /** A paragraph break with only white space between the tags becomes one line break. */
  lemma ParagraphBreakJoined(w: string)
    requires AllJsSpace(w)
    ensures ReplaceMatches(ParagraphBreak, "</p>" + w + "<p>", 0) == "\n"
  {
    var t := "</p>" + w + "<p>";
    var e := 4 + |w|;
    assert MatchAt(ParagraphBreak, t, 0) == Some(RegexMatch(|t|, "", "")) by {
      assert OccursAtIgnoreCase(t, "</p>", 0) by {
        assert t[0..4] == "</p>";
      }
      assert SkipSpace(t, 4) == e by {
        assert t[e] == '<';
        SkipSpaceOver(t, 4, |w|);
      }
      assert OccursAtIgnoreCase(t, "<p", e) by {
        assert t[e..e + 2] == "<p";
      }
      assert IndexOfFrom(t, ">", e + 2) == e + 2 by {
        assert t[e + 2..e + 3] == ">";
      }
    }
    FirstMatchRewritten(ParagraphBreak, t, 0, 0);
    assert t[0..0] == [];
  }

  // ---------------------------------------------------------------------------
  // The tag-name quirk of convertToAscii

  /** A lower-case tag that starts with `<` is found only where the text has a `<`. */
  lemma TagStartsWithLt(s: string, tag: string, j: nat)
    requires |tag| >= 2 && tag[0] == '<' && OccursAtIgnoreCase(s, tag, j)
    ensures s[j] == '<' && AsciiLowerChar(s[j + 1]) == tag[1]
  {
    var w := s[j..j + |tag|];
    assert AsciiLower(w)[0] == tag[0] && AsciiLower(w)[1] == tag[1];
  }

  /** Every `<` in `t` is followed by a character that is not `x` in any letter case. */
  predicate NoLtBefore(t: string, x: char) {
    forall j :: 0 <= j < |t| - 1 && t[j] == '<' ==> AsciiLowerChar(t[j + 1]) != x
  }

  lemma NoLtBeforeConcat(a: string, b: string, x: char)
    requires NoLtBefore(a, x) && NoLtBefore(b, x) && (|a| > 0 ==> a[|a| - 1] != '<')
    ensures NoLtBefore(a + b, x)
  {
    var t := a + b;
    forall j | 0 <= j < |t| - 1 && t[j] == '<'
      ensures AsciiLowerChar(t[j + 1]) != x
    {
      if j >= |a| {
        assert t[j] == b[j - |a|] && t[j + 1] == b[j + 1 - |a|];
      } else {
        assert t[j] == a[j] && t[j + 1] == a[j + 1];
      }
    }
  }

  /** A tag is absent when every `<` in the text is followed by a character other than the tag's second. */
  lemma TagAbsent(t: string, tag: string)
    requires |tag| >= 2 && tag[0] == '<' && NoLtBefore(t, tag[1])
    ensures IndexOfIgnoreCaseFrom(t, tag, 0) == -1
  {
    var r := IndexOfIgnoreCaseFrom(t, tag, 0);
    if r >= 0 {
      TagStartsWithLt(t, tag, r);
      assert false;
    }
  }

  /** The second character of the tag each `convertToAscii` pattern starts with. */
  function TagLetter(pat: Pattern): char {
    if pat.StrongTag? then 's' else 'u'
  }

  /** A text in which the pattern's opening tag cannot start goes through its pass unchanged. */
  lemma TagPassKeeps(pat: Pattern, t: string, rewrite: Rewriter)
    requires pat.StrongTag? || pat.UnderlineTag?
    requires NoLtBefore(t, TagLetter(pat))
    ensures Scan(FinderOf(pat), rewrite, t, 0) == t
  {
    var tag := if pat.StrongTag? then "<strong>" else "<u>";
    TagAbsent(t, tag);
    AbsentTagNoMatch(pat, t, tag);
    forall k | 0 <= k < |t|
      ensures !Hit(FinderOf(pat), t, k)
    {
      MatchIsHit(pat, t, k);
    }
    ScanNoHit(FinderOf(pat), rewrite, t, 0);
    assert t[0..] == t;
  }

  /** `opening`, a group free of `<` and of line breaks, and `closing` form one whole match. */
  lemma {:induction false} SingleTagMatch(opening: string, closing: string, p: string)
    requires |closing| >= 2 && closing[0] == '<'
    requires AsciiLower(opening) == opening && AsciiLower(closing) == closing
    requires p != [] && '<' !in p && NoLineTerminator(p)
    ensures LazyTagMatch(opening + p + closing, 0, opening, closing)
      == Some(RegexMatch(|opening| + |p| + |closing|, p, ""))
  {
    var t := opening + p + closing;
    var j := |opening|;
    var e := j + |p|;
    assert OccursAtIgnoreCase(t, opening, 0) by {
      assert t[0..j] == opening;
    }
    assert OccursAtIgnoreCase(t, closing, e) by {
      assert t[e..e + |closing|] == closing;
    }
    var r := IndexOfIgnoreCaseFrom(t, closing, j + 1);
    assert r == e by {
      if r < e {
        TagStartsWithLt(t, closing, r);
        assert false;
      }
    }
    assert t[j..e] == p;
  }

  /** An element of the pattern's tag around such a group goes through its pass as one rewritten match. */
  lemma TagPassRewrites(pat: Pattern, p: string, rewrite: Rewriter)
    requires pat.StrongTag? || pat.UnderlineTag?
    requires p != [] && '<' !in p && NoLineTerminator(p)
    ensures var t := TagElement(pat, p);
      Scan(FinderOf(pat), rewrite, t, 0) == rewrite(t, 0, RegexMatch(|t|, p, ""))
  {
    var t := TagElement(pat, p);
    var m := RegexMatch(|t|, p, "");
    assert MatchAt(pat, t, 0) == Some(m) by {
      if pat.StrongTag? {
        SingleTagMatch("<strong>", "</strong>", p);
      } else {
        SingleTagMatch("<u>", "</u>", p);
      }
    }
    assert Hit(FinderOf(pat), t, 0) && FinderOf(pat)(t, 0) == Some(m) by {
      MatchIsHit(pat, t, 0);
    }
    ScanFirstHit(FinderOf(pat), rewrite, t, 0, 0);
    assert t[0..0] == [];
    assert Scan(FinderOf(pat), rewrite, t, |t|) == [];
  }

  /** `<strong>p</strong>` or `<u>p</u>`. */
  function TagElement(pat: Pattern, p: string): string {
    if pat.StrongTag? then "<strong>" + p + "</strong>" else "<u>" + p + "</u>"
  }

  /** Where the group has no `<`, the only `<` of an element are those of its two tags. */
  lemma TagElementLt(pat: Pattern, p: string, x: char)
    requires pat.StrongTag? || pat.UnderlineTag?
    requires '<' !in p && x != '/' && x != TagLetter(pat)
    ensures NoLtBefore(TagElement(pat, p), x)
  {
    var o := if pat.StrongTag? then "<strong>" else "<u>";
    var c := if pat.StrongTag? then "</strong>" else "</u>";
    assert NoLtBefore(o, x) by {
      assert o[0] == '<' && o[1] == TagLetter(pat);
      forall j | 1 <= j < |o| ensures o[j] != '<' { }
    }
    assert NoLtBefore(c, x) by {
      assert c[0] == '<' && c[1] == '/';
      forall j | 1 <= j < |c| ensures c[j] != '<' { }
    }
    NoLtBeforeConcat(o, p, x);
    if |p| > 0 {
      assert p[|p| - 1] in p;
    }
    assert (o + p)[|o + p| - 1] != '<';
    NoLtBeforeConcat(o + p, c, x);
  }

  /**
   * As written, a `<u>` element is rewritten by replacing the first occurrence of its text
   * anywhere in the element, tag name included.
   */
  lemma UnderlineAsWritten(p: string)
    requires p != [] && '<' !in p && NoLineTerminator(p)
    ensures ConvertToAscii("<u>" + p + "</u>") == ReplaceString("<u>" + p + "</u>", p, UnderlineText(p))
  {
    var t := TagElement(UnderlineTag, p);
    TagElementLt(UnderlineTag, p, 's');
    TagPassKeeps(StrongTag, t, RewriterOf(StrongTag));
    TagPassRewrites(UnderlineTag, p, RewriterOf(UnderlineTag));
    assert t[0..|t|] == t;
  }

  /** So `<u>u</u>` comes out as `<u̲>u</u>`: the `u` that is replaced is the one in the tag name. */
  lemma UnderlineTagNameQuirk()
    ensures ConvertToAscii("<u>u</u>") == "<u\U{0332}>u</u>"
  {
    assert "<u>u</u>" == "<u>" + "u" + "</u>";
    UnderlineAsWritten("u");
    UnderlineOfU();
    FirstUInTagName();
  }

  lemma UnderlineOfU()
    ensures UnderlineText("u") == "u\U{0332}"
  {
    assert UnderlineText("u") == Underline('u') + UnderlineText("");
  }

  lemma FirstUInTagName()
    ensures ReplaceString("<u>u</u>", "u", "u\U{0332}") == "<u\U{0332}>u</u>"
  {
    var t := "<u>u</u>";
    assert IndexOf(t, "u") == 1 by {
      assert t[0..1] == "<" && t[1..2] == "u";
      assert OccursAt(t, "u", 1) && !OccursAt(t, "u", 0);
    }
    assert '$' !in "u\U{0332}" by {
      ContainsChar("u\U{0332}", '$');
    }
    assert t[..1] == "<" && t[2..] == ">u</u>";
    assert ReplaceString(t, "u", "u\U{0332}") == "<" + "u\U{0332}" + ">u</u>";
  }

  /**
   * As written, a `<strong>` element is rewritten by replacing the first occurrence of its text
   * anywhere in the element, tag name included.
   */
  lemma StrongAsWritten(p: string)
    requires p != [] && '<' !in p && NoLineTerminator(p)
    ensures ReplaceMatches(StrongTag, "<strong>" + p + "</strong>", 0)
      == ReplaceString("<strong>" + p + "</strong>", p, BoldText(p))
  {
    var t := TagElement(StrongTag, p);
    TagPassRewrites(StrongTag, p, RewriterOf(StrongTag));
    assert t[0..|t|] == t;
  }

  /**
   * So in `<strong>s</strong>` the `s` that is bolded is the one in the tag name: the first
   * occurrence of the text in the match is at index 1.
   */
  lemma StrongTagNameQuirk()
    ensures ReplaceMatches(StrongTag, "<strong>s</strong>", 0)
      == ReplaceString("<strong>s</strong>", "s", [Bold('s')])
    ensures IndexOf("<strong>s</strong>", "s") == 1
  {
    assert "<strong>s</strong>" == "<strong>" + "s" + "</strong>";
    StrongAsWritten("s");
    assert BoldText("s") == [Bold('s')] by {
      BoldTextPointwise("s", 0);
    }
    FirstSAtOne();
  }

  lemma FirstSAtOne()
    ensures IndexOf("<strong>s</strong>", "s") == 1
  {
    var t := "<strong>s</strong>";
    assert !OccursAt(t, "s", 0) by {
      assert t[0..1] == "<";
    }
    assert OccursAt(t, "s", 1) by {
      assert t[1..2] == "s";
    }
  }

  // ---------------------------------------------------------------------------
  // stripHtmlValidation

  datatype Kind = NoneKind | Normal | Markdown | Html

  /**
   * `stripHtmlValidation` up to its short-circuits. `serialize` is parse5's parse-and-serialise
   * round trip; `rest` stands for the html, markdown and paragraph-flattening branches that
   * follow, with their arguments.
   */
  function StripHtmlValidation(kind: Kind, val: string, replaceBold: bool, none: bool, plain: bool,
                               serialize: string -> string, rest: (Kind, string, bool, bool) -> string): (r: string)
    ensures plain ==> r == val
    ensures !plain && !(kind.Html? || kind.Markdown?) && !none
        && IndexOf(serialize(CleanExcessParagraphTags(val)), "<p>") == -1
      ==> r == serialize(CleanExcessParagraphTags(val))
    ensures !plain && (kind.Html? || kind.Markdown? || none
        || IndexOf(serialize(CleanExcessParagraphTags(val)), "<p>") != -1)
      ==> r == rest(kind, serialize(CleanExcessParagraphTags(val)), replaceBold, none)
  {
    if plain then val
    else
      var value := serialize(CleanExcessParagraphTags(val));
      if kind.Html? || kind.Markdown? then rest(kind, value, replaceBold, none)
      else if IndexOf(value, "<p>") == -1 && !none then value
      else rest(kind, value, replaceBold, none)
  }
}
