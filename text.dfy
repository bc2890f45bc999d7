/**
 * String primitives the modelled code relies on, written out so that their
 * behaviour is explicit: substring search (JavaScript `indexOf`, Python `in`
 * and `find`), prefix and suffix tests, Python `split`/`join`/`replace`/`strip`,
 * JavaScript `trim`, case mapping, decimal rendering and Python `int()`.
 */
module Text {
  import opened Wrappers

  // ---------------------------------------------------------------------------
  // Substring search

  /** `p` occurs in `s` starting at index `i`. */
  predicate OccursAt(s: string, p: string, i: nat) {
    i + |p| <= |s| && s[i..i + |p|] == p
  }

  /** Index of the first occurrence of `p` in `s` at or after `i`, or -1. */
  function IndexOfFrom(s: string, p: string, i: nat): (r: int)
    decreases |s| - i
    ensures r == -1 || (i <= r && OccursAt(s, p, r))
    ensures r == -1 ==> forall j: nat :: i <= j ==> !OccursAt(s, p, j)
    ensures r >= 0 ==> forall j: nat :: i <= j < r ==> !OccursAt(s, p, j)
  {
    if i + |p| > |s| then -1
    else if s[i..i + |p|] == p then i
    else IndexOfFrom(s, p, i + 1)
  }

  /** JavaScript `s.indexOf(p)` and Python `s.find(p)`. */
  function IndexOf(s: string, p: string): int {
    IndexOfFrom(s, p, 0)
  }

  /** JavaScript `s.indexOf(p) > -1`, `s.includes(p)`; Python `p in s`. */
  predicate Contains(s: string, p: string) {
    IndexOf(s, p) >= 0
  }

  lemma ContainsIff(s: string, p: string)
    ensures Contains(s, p) <==> exists i: nat :: OccursAt(s, p, i)
  {
    if !Contains(s, p) {
      assert forall j: nat :: 0 <= j ==> !OccursAt(s, p, j);
    }
  }

  lemma ContainsAt(s: string, p: string, i: nat)
    requires OccursAt(s, p, i)
    ensures Contains(s, p)
  {
    ContainsIff(s, p);
  }

  /** A text lacking one character of a pattern does not contain the pattern. */
  lemma MissingCharNoContains(s: string, p: string, k: nat)
    requires k < |p| && p[k] !in s
    ensures !Contains(s, p)
  {
    ContainsIff(s, p);
  }

  /** An occurrence inside a slice is an occurrence in the whole string. */
  lemma OccursInSlice(s: string, p: string, a: nat, b: nat, j: nat)
    requires a <= b <= |s| && OccursAt(s[a..b], p, j)
    ensures OccursAt(s, p, a + j)
  {
    var t := s[a..b][j..j + |p|];
    assert forall k :: 0 <= k < |p| ==> t[k] == s[a + j + k];
  }

  /** A string that does not contain `p` has no slice containing `p`. */
  lemma NotContainsSlice(s: string, p: string, a: nat, b: nat)
    requires a <= b <= |s| && !Contains(s, p)
    ensures !Contains(s[a..b], p)
  {
    if Contains(s[a..b], p) {
      var j := IndexOf(s[a..b], p);
      OccursInSlice(s, p, a, b, j);
    }
  }

  /** A one-character pattern occurs exactly when that character is in the text. */
  lemma ContainsChar(s: string, c: char)
    ensures Contains(s, [c]) <==> c in s
  {
    ContainsIff(s, [c]);
    if c in s {
      var i :| 0 <= i < |s| && s[i] == c;
      assert OccursAt(s, [c], i);
    }
    if Contains(s, [c]) {
      var i := IndexOf(s, [c]);
      assert s[i..i + 1] == [c];
      assert s[i] == c;
    }
  }

  predicate StartsWith(s: string, p: string) {
    |p| <= |s| && s[..|p|] == p
  }

  predicate EndsWith(s: string, p: string) {
    |p| <= |s| && s[|s| - |p|..] == p
  }

  /** A string opens with its first piece and closes with its last. */
  lemma Framed(head: string, body: string, tail: string)
    ensures StartsWith(head + (body + tail), head)
    ensures EndsWith(head + (body + tail), tail)
  {
    var s := head + (body + tail);
    assert s == (head + body) + tail;
    assert s[..|head|] == head;
    assert s[|s| - |tail|..] == tail;
  }

  // ---------------------------------------------------------------------------
  // Case mapping (ASCII, Latin-1 and the basic Cyrillic block)

  function LowerChar(c: char): char {
    if 'A' <= c <= 'Z' then (c as int + 32) as char
    else if '\U{C0}' <= c <= '\U{DE}' && c != '\U{D7}' then (c as int + 32) as char
    else if '\U{410}' <= c <= '\U{42F}' then (c as int + 32) as char
    else if '\U{400}' <= c <= '\U{40F}' then (c as int + 80) as char
    else c
  }

  function UpperChar(c: char): char {
    if 'a' <= c <= 'z' then (c as int - 32) as char
    else if '\U{E0}' <= c <= '\U{FE}' && c != '\U{F7}' then (c as int - 32) as char
    else if '\U{430}' <= c <= '\U{44F}' then (c as int - 32) as char
    else if '\U{450}' <= c <= '\U{45F}' then (c as int - 80) as char
    else c
  }

  /** Only the ASCII letters change case: what a JavaScript regex with the `i` flag compares. */
  function AsciiLowerChar(c: char): char {
    if 'A' <= c <= 'Z' then (c as int + 32) as char else c
  }

  /** JavaScript `toLowerCase()`, Python `lower()`. */
  function Lower(s: string): (r: string)
    ensures |r| == |s| && forall i :: 0 <= i < |s| ==> r[i] == LowerChar(s[i])
  {
    seq(|s|, i requires 0 <= i < |s| => LowerChar(s[i]))
  }

  /** Lowering keeps every `.` where it was and makes no new one. */
  lemma LowerKeepsDots(s: string)
    ensures forall i :: 0 <= i < |s| ==> (Lower(s)[i] == '.' <==> s[i] == '.')
  {
  }

  /** Python `upper()`. */
  function Upper(s: string): (r: string)
    ensures |r| == |s| && forall i :: 0 <= i < |s| ==> r[i] == UpperChar(s[i])
  {
    seq(|s|, i requires 0 <= i < |s| => UpperChar(s[i]))
  }

  function AsciiLower(s: string): (r: string)
    ensures |r| == |s| && forall i :: 0 <= i < |s| ==> r[i] == AsciiLowerChar(s[i])
  {
    seq(|s|, i requires 0 <= i < |s| => AsciiLowerChar(s[i]))
  }

  /** `s` starts at `i` with `p` when ASCII letter case is ignored (`p` is lower case). */
  predicate OccursAtIgnoreCase(s: string, p: string, i: nat) {
    i + |p| <= |s| && AsciiLower(s[i..i + |p|]) == p
  }

  /** Index of the first occurrence of `p` in `s` at or after `i`, ignoring ASCII letter case, or -1. */
  function IndexOfIgnoreCaseFrom(s: string, p: string, i: nat): (r: int)
    decreases |s| - i
    ensures r == -1 || (i <= r && OccursAtIgnoreCase(s, p, r))
    ensures r == -1 ==> forall j: nat :: i <= j ==> !OccursAtIgnoreCase(s, p, j)
    ensures r >= 0 ==> forall j: nat :: i <= j < r ==> !OccursAtIgnoreCase(s, p, j)
  {
    if i + |p| > |s| then -1
    else if OccursAtIgnoreCase(s, p, i) then i
    else IndexOfIgnoreCaseFrom(s, p, i + 1)
  }

  // ---------------------------------------------------------------------------
  // Whitespace and trimming

  /** Python `str.isspace()` on one character. */
  predicate IsPySpace(c: char) {
    c == ' ' || '\U{9}' <= c <= '\U{D}' || '\U{1C}' <= c <= '\U{1F}' || c == '\U{85}' || c == '\U{A0}'
    || c == '\U{1680}' || '\U{2000}' <= c <= '\U{200A}' || c == '\U{2028}' || c == '\U{2029}'
    || c == '\U{202F}' || c == '\U{205F}' || c == '\U{3000}'
  }

  /** JavaScript `\s` and the characters `trim()` removes. */
  predicate IsJsSpace(c: char) {
    c == ' ' || '\U{9}' <= c <= '\U{D}' || c == '\U{A0}' || c == '\U{1680}' || '\U{2000}' <= c <= '\U{200A}'
    || c == '\U{2028}' || c == '\U{2029}' || c == '\U{202F}' || c == '\U{205F}' || c == '\U{3000}'
    || c == '\U{FEFF}'
  }

  /** The number of leading characters satisfying `ws`. */
  function LeadingCount(s: string, ws: char -> bool): (n: nat)
    ensures n <= |s|
    ensures forall i :: 0 <= i < n ==> ws(s[i])
    ensures n < |s| ==> !ws(s[n])
  {
    if |s| > 0 && ws(s[0]) then
      var n := LeadingCount(s[1..], ws);
      assert forall i :: 1 <= i < n + 1 ==> s[i] == s[1..][i - 1];
      n + 1
    else 0
  }

  /** The length left once the trailing characters satisfying `ws` are cut. */
  function KeptLength(s: string, ws: char -> bool): (n: nat)
    ensures n <= |s|
    ensures forall i :: n <= i < |s| ==> ws(s[i])
    ensures n > 0 ==> !ws(s[n - 1])
  {
    if |s| > 0 && ws(s[|s| - 1]) then
      var n := KeptLength(s[..|s| - 1], ws);
      assert forall i :: n <= i < |s| - 1 ==> s[i] == s[..|s| - 1][i];
      n
    else |s|
  }

  function TrimStart(s: string, ws: char -> bool): string {
    s[LeadingCount(s, ws)..]
  }

  function TrimEnd(s: string, ws: char -> bool): string {
    s[..KeptLength(s, ws)]
  }

  /** Python `strip()`. */
  function Strip(s: string): string {
    TrimEnd(TrimStart(s, IsPySpace), IsPySpace)
  }

  /** JavaScript `trim()`. */
  function Trim(s: string): string {
    TrimEnd(TrimStart(s, IsJsSpace), IsJsSpace)
  }

  lemma TrimStartNoop(s: string, ws: char -> bool)
    requires s == [] || !ws(s[0])
    ensures TrimStart(s, ws) == s
  {
  }

  lemma TrimEndNoop(s: string, ws: char -> bool)
    requires s == [] || !ws(s[|s| - 1])
    ensures TrimEnd(s, ws) == s
  {
  }

  /** The stripped text is a slice of the original. */
  lemma StripIsSlice(s: string) returns (a: nat, b: nat)
    ensures a <= b <= |s| && Strip(s) == s[a..b]
  {
    var t := TrimStart(s, IsPySpace);
    a := |s| - |t|;
    b := a + |TrimEnd(t, IsPySpace)|;
    assert t == s[a..];
    assert Strip(s) == t[..b - a];
  }

  /** Stripping an empty text; stated by length, which keeps the solver away from sequence equality. */
  lemma StripEmpty(s: string)
    requires |s| == 0
    ensures Strip(s) == []
  {
    assert |Strip(s)| == 0;
  }

  lemma StripIdempotent(s: string)
    ensures Strip(Strip(s)) == Strip(s)
  {
    var t := TrimStart(s, IsPySpace);
    var u := TrimEnd(t, IsPySpace);
    if u != [] {
      assert u[0] == t[0];
      TrimStartNoop(u, IsPySpace);
    }
    TrimEndNoop(u, IsPySpace);
  }

  lemma StripNoContains(s: string, p: string)
    requires !Contains(s, p)
    ensures !Contains(Strip(s), p)
  {
    var a, b := StripIsSlice(s);
    NotContainsSlice(s, p, a, b);
  }

  // ---------------------------------------------------------------------------
  // Python split / join / replace

  /** Python `s.split(sep)` for a non-empty separator. */
  function Split(s: string, sep: string): (r: seq<string>)
    requires sep != []
    ensures |r| >= 1
    ensures forall k :: 0 <= k < |r| ==> !Contains(r[k], sep)
    decreases |s|
  {
    var i := IndexOf(s, sep);
    if i < 0 then
      [s]
    else
      PrefixBeforeFirst(s, sep);
      [s[..i]] + Split(s[i + |sep|..], sep)
  }

  /** The text before the first occurrence of `p` does not contain `p`. */
  lemma PrefixBeforeFirst(s: string, p: string)
    requires p != [] && Contains(s, p)
    ensures IndexOf(s, p) + |p| <= |s|
    ensures !Contains(s[..IndexOf(s, p)], p)
  {
    var i := IndexOf(s, p);
    if Contains(s[..i], p) {
      var j := IndexOf(s[..i], p);
      assert s[0..i] == s[..i];
      OccursInSlice(s, p, 0, i, j);
    }
  }

  lemma SplitNoSeparator(s: string, sep: string)
    requires sep != [] && !Contains(s, sep)
    ensures Split(s, sep) == [s]
  {
  }

  /** Python `sep.join(parts)`. */
  function Join(parts: seq<string>, sep: string): string
    decreases |parts|
  {
    if |parts| == 0 then ""
    else if |parts| == 1 then parts[0]
    else parts[0] + sep + Join(parts[1..], sep)
  }

  /** Splitting at a separator that occurs: the text before its first occurrence, then the rest split. */
  lemma SplitAtFirst(s: string, sep: string)
    requires sep != [] && Contains(s, sep)
    ensures IndexOf(s, sep) + |sep| <= |s|
    ensures |Split(s, sep)| >= 2
    ensures Split(s, sep)[0] == s[..IndexOf(s, sep)]
    ensures Split(s, sep)[1..] == Split(s[IndexOf(s, sep) + |sep|..], sep)
  {
    PrefixBeforeFirst(s, sep);
  }

  /** An occurrence at `k` is the first one when the pattern's first character does not occur before `k`. */
  lemma IndexOfFirstChar(s: string, p: string, k: nat)
    requires p != [] && OccursAt(s, p, k)
    requires forall j :: 0 <= j < k ==> s[j] != p[0]
    ensures IndexOf(s, p) == k
  {
    var r := IndexOfFrom(s, p, 0);
    assert r != -1;
    assert OccursAt(s, p, r);
    assert s[r] == s[r..r + |p|][0] == p[0];
    assert r >= k;
    assert r <= k;
  }

  /** A string containing `p + q` contains `p`. */
  lemma ContainsPrefixOf(s: string, p: string, q: string)
    requires Contains(s, p + q)
    ensures Contains(s, p)
  {
    var i := IndexOf(s, p + q);
    assert s[i..i + |p|] == (p + q)[..|p|];
    ContainsAt(s, p, i);
  }

  /** Joining two non-empty lists is joining each and putting one separator between. */
  lemma {:induction false} JoinAppend(xs: seq<string>, ys: seq<string>, sep: string)
    requires |xs| > 0 && |ys| > 0
    ensures Join(xs + ys, sep) == Join(xs, sep) + sep + Join(ys, sep)
    decreases |xs|
  {
    assert (xs + ys)[0] == xs[0];
    if |xs| == 1 {
      assert (xs + ys)[1..] == ys;
    } else {
      assert (xs + ys)[1..] == xs[1..] + ys;
      JoinAppend(xs[1..], ys, sep);
    }
  }

  /** Python `s.replace(pattern, repl)` for a non-empty `pattern`: every occurrence, left to right. */
  function ReplaceAll(s: string, pattern: string, repl: string): string
    requires pattern != []
  {
    Join(Split(s, pattern), repl)
  }

  lemma ReplaceAllNoop(s: string, pattern: string, repl: string)
    requires pattern != [] && !Contains(s, pattern)
    ensures ReplaceAll(s, pattern, repl) == s
  {
    SplitNoSeparator(s, pattern);
  }

  /** Python `s.replace(c, "")` for a single character `c`: every `c` deleted, the rest kept in order. */
  function DeleteChar(s: string, c: char): (r: string)
    ensures |r| <= |s|
  {
    if |s| == 0 then ""
    else
      var rest := DeleteChar(s[1..], c);
      if s[0] == c then rest else [s[0]] + rest
  }

  /** The characters left are those of `s` other than `c`. */
  lemma {:induction false} DeleteCharChars(s: string, c: char)
    ensures forall x :: x in DeleteChar(s, c) <==> x in s && x != c
  {
    if |s| > 0 {
      DeleteCharChars(s[1..], c);
      assert forall x :: x in s <==> x == s[0] || x in s[1..];
    }
  }

  lemma {:induction false} DeleteCharNoop(s: string, c: char)
    requires c !in s
    ensures DeleteChar(s, c) == s
  {
    if |s| > 0 {
      DeleteCharNoop(s[1..], c);
      assert [s[0]] + s[1..] == s;
    }
  }

  /** JavaScript `s.replace(pattern, repl)` with a string pattern: the first occurrence only. */
  function ReplaceFirst(s: string, pattern: string, repl: string): (r: string)
    ensures !Contains(s, pattern) ==> r == s
    ensures Contains(s, pattern) ==> r == s[..IndexOf(s, pattern)] + repl + s[IndexOf(s, pattern) + |pattern|..]
  {
    var i := IndexOf(s, pattern);
    if i < 0 then s else s[..i] + repl + s[i + |pattern|..]
  }

  /** Python `s.rsplit('.', 1)[0]`: the text before the last occurrence of `c`, or all of `s`. */
  function BeforeLast(s: string, c: char): (r: string)
    ensures |r| <= |s| && r == s[..|r|]
    ensures c in s ==> |r| < |s| && s[|r|] == c && c !in s[|r| + 1..]
    ensures c !in s ==> r == s
  {
    if c !in s then s
    else if s[|s| - 1] == c then s[..|s| - 1]
    else
      var r := BeforeLast(s[..|s| - 1], c);
      assert c in s[..|s| - 1] by {
        var k :| 0 <= k < |s| && s[k] == c;
        assert s[..|s| - 1][k] == c;
      }
      assert s[..|s| - 1][..|r|] == s[..|r|];
      assert s[|r| + 1..] == s[..|s| - 1][|r| + 1..] + [s[|s| - 1]];
      r
  }

  /** The text after the last occurrence of `c`, or all of `s` when `c` does not occur. */
  function AfterLast(s: string, c: char): (r: string)
    ensures |r| <= |s| && r == s[|s| - |r|..]
    ensures c !in r
    ensures c !in s ==> r == s
    decreases |s|
  {
    if |s| == 0 then s
    else if s[|s| - 1] == c then []
    else
      var r := AfterLast(s[..|s| - 1], c);
      SuffixSnoc(s, r);
      r + [s[|s| - 1]]
  }

  /** A suffix of all but the last character, extended by that character, is a suffix. */
  lemma SuffixSnoc(s: string, r: string)
    requires |s| > 0 && |r| < |s| && r == s[..|s| - 1][|s| - 1 - |r|..]
    ensures r + [s[|s| - 1]] == s[|s| - |r| - 1..]
  {
    assert s[..|s| - 1][|s| - 1 - |r|..] == s[|s| - 1 - |r|..|s| - 1];
  }

  // ---------------------------------------------------------------------------
  // Decimal numbers

  function DigitChar(d: nat): char
    requires d < 10
  {
    ('0' as int + d) as char
  }

  predicate IsDigit(c: char) {
    '0' <= c <= '9'
  }

  /** Decimal rendering of a natural number, most significant digit first. */
  function NatToString(n: nat): (r: string)
    ensures |r| >= 1 && forall k :: 0 <= k < |r| ==> IsDigit(r[k])
  {
    if n < 10 then [DigitChar(n)] else NatToString(n / 10) + [DigitChar(n % 10)]
  }

  /** Python `str(i)` and JavaScript `String(i)` for an integer. */
  function IntToString(i: int): string {
    if i < 0 then "-" + NatToString(-i) else NatToString(i)
  }

  /** Value of a string of decimal digits and `_` separators (the separators are ignored). */
  function DigitsValue(s: string): nat {
    if |s| == 0 then 0
    else if IsDigit(s[|s| - 1]) then 10 * DigitsValue(s[..|s| - 1]) + (s[|s| - 1] as int - '0' as int)
    else DigitsValue(s[..|s| - 1])
  }

  /** The digit part Python `int()` accepts: digits, with single `_` between two digits. */
  predicate WellFormedDigits(s: string) {
    |s| > 0 && IsDigit(s[0]) && IsDigit(s[|s| - 1])
    && (forall k :: 0 <= k < |s| ==> IsDigit(s[k]) || s[k] == '_')
    && (forall k :: 0 <= k < |s| - 1 ==> !(s[k] == '_' && s[k + 1] == '_'))
  }

  /** Python `int(s)` for a text argument: surrounding whitespace, an optional sign, ASCII digits. */
  function ParsePyInt(s: string): Option<int> {
    var t := Strip(s);
    if |t| > 0 && (t[0] == '+' || t[0] == '-') then
      if WellFormedDigits(t[1..]) then
        var v: int := DigitsValue(t[1..]);
        Some(if t[0] == '-' then -v else v)
      else None
    else if WellFormedDigits(t) then Some(DigitsValue(t))
    else None
  }

  lemma {:induction false} NatToStringValue(n: nat)
    ensures DigitsValue(NatToString(n)) == n
  {
    if n >= 10 {
      NatToStringValue(n / 10);
      var s := NatToString(n / 10) + [DigitChar(n % 10)];
      assert s[..|s| - 1] == NatToString(n / 10);
    }
  }

  /** Rendering an integer and parsing it back gives the integer. */
  lemma ParseIntToString(i: int)
    ensures ParsePyInt(IntToString(i)) == Some(i)
  {
    var s := IntToString(i);
    var d := NatToString(if i < 0 then -i else i);
    NatToStringValue(if i < 0 then -i else i);
    assert s[0] == '-' || IsDigit(s[0]);
    assert !IsPySpace(s[|s| - 1]);
    TrimStartNoop(s, IsPySpace);
    TrimEndNoop(s, IsPySpace);
    assert Strip(s) == s;
    if i < 0 {
      assert s[1..] == d;
    }
  }
}
