/**
 * The two upload-URL validators: the extension check, which looks at the part
 * of the URL before the query string in lower case, and the domain check,
 * which is a plain substring test against the configured domain.
 */
module ValidUrlPath {
  import opened Wrappers
  import opened Text

  /** The suffixes the extension check accepts, in the order it tries them. */
  const AllowedExtensions: seq<string> := [".png", ".jpg", ".jpeg", ".gif", ".mp4"]

  const ExtensionMessage := "File must have a valid extension: .png, .jpg, .jpeg, .gif, or .mp4"

  /**
   * `text?.split?.('?')?.[0]?.toLowerCase() ?? ''`: a missing or non-string value (`None`) gives
   * the empty text; otherwise the text before the first `?`, in lower case.
   */
  function UrlBase(text: Option<string>): (r: string)
    ensures text.None? ==> r == ""
    ensures text.Some? && !Contains(text.value, "?") ==> r == Lower(text.value)
    ensures text.Some? && Contains(text.value, "?") ==> r == Lower(text.value[..IndexOf(text.value, "?")])
  {
    if text.None? then "" else Lower(Split(text.value, "?")[0])
  }

  /** The suffix test of `ValidUrlExtension.validate`, in the order the source tries the suffixes. */
  predicate HasAllowedSuffix(base: string) {
    EndsWith(base, ".png") || EndsWith(base, ".jpg") || EndsWith(base, ".jpeg")
    || EndsWith(base, ".gif") || EndsWith(base, ".mp4")
  }

  /** `ValidUrlExtension.validate`. */
  predicate ExtensionValid(text: Option<string>)
    ensures ExtensionValid(text) ==> text.Some?
    ensures ExtensionValid(text) ==>
      exists k :: 0 <= k < |AllowedExtensions| && EndsWith(UrlBase(text), AllowedExtensions[k])
  {
    var base := UrlBase(text);
    ListedWitness(base);
    HasAllowedSuffix(base)
  }

  /** An accepted base ends with one of the listed suffixes. */
  lemma ListedWitness(base: string)
    ensures HasAllowedSuffix(base) ==> exists k :: 0 <= k < |AllowedExtensions| && EndsWith(base, AllowedExtensions[k])
  {
    if HasAllowedSuffix(base) {
      var k := OnlyListedSuffixes(base);
    }
  }

  /** Every listed suffix is accepted. */
  lemma ListedSuffixAccepted(base: string, k: nat)
    requires k < |AllowedExtensions| && EndsWith(base, AllowedExtensions[k])
    ensures HasAllowedSuffix(base)
  {
    var e := AllowedExtensions;
    if k == 0 { assert e[0] == ".png"; }
    else if k == 1 { assert e[1] == ".jpg"; }
    else if k == 2 { assert e[2] == ".jpeg"; }
    else if k == 3 { assert e[3] == ".gif"; }
    else { assert e[4] == ".mp4"; }
  }

  /** Only the listed suffixes are accepted. */
  lemma OnlyListedSuffixes(base: string) returns (k: nat)
    requires HasAllowedSuffix(base)
    ensures k < |AllowedExtensions| && EndsWith(base, AllowedExtensions[k])
  {
    var e := AllowedExtensions;
    if EndsWith(base, ".png") { k := 0; assert e[0] == ".png"; }
    else if EndsWith(base, ".jpg") { k := 1; assert e[1] == ".jpg"; }
    else if EndsWith(base, ".jpeg") { k := 2; assert e[2] == ".jpeg"; }
    else if EndsWith(base, ".gif") { k := 3; assert e[3] == ".gif"; }
    else { k := 4; assert e[4] == ".mp4"; }
  }

  /** A missing or non-string value is rejected. */
  lemma MissingExtensionRejected()
    ensures !ExtensionValid(None)
  {
  }

  /** The index of the first `?` in a text that has none before the one appended. */
  lemma FirstQuestionMark(s: string, query: string)
    requires !Contains(s, "?")
    ensures Contains(s + "?" + query, "?") && IndexOf(s + "?" + query, "?") == |s|
  {
    var t := s + "?" + query;
    assert OccursAt(t, "?", |s|) by {
      assert t[|s|..|s| + 1] == "?";
    }
    ContainsAt(t, "?", |s|);
    var i := IndexOf(t, "?");
    if i < |s| {
      assert t[i..i + 1] == s[i..i + 1];
      assert OccursAt(s, "?", i);
      ContainsAt(s, "?", i);
    }
  }

  /** Whatever follows the first `?` plays no part in the extension check. */
  lemma QueryIgnored(s: string, query: string)
    requires !Contains(s, "?")
    ensures ExtensionValid(Some(s + "?" + query)) == ExtensionValid(Some(s))
  {
    FirstQuestionMark(s, query);
    assert (s + "?" + query)[..|s|] == s;
  }

  /** The extension is compared in lower case. */
  lemma UpperCaseExtensionAccepted()
    ensures ExtensionValid(Some("a.PNG"))
  {
    ContainsChar("a.PNG", '?');
    var l := Lower("a.PNG");
    assert l[1..] == ".png" by {
      assert l[1] == '.' && l[2] == 'p' && l[3] == 'n' && l[4] == 'g';
    }
  }

  /** A fragment is not stripped, so it hides the extension. */
  lemma FragmentNotStripped()
    ensures !ExtensionValid(Some("a.png#b"))
  {
    ContainsChar("a.png#b", '?');
    var x := Lower("a.png#b");
    assert x[6] == 'b';
  }

  /** The text the domain check searches: a missing or empty URL is checked as `invalid url`. */
  function Subject(text: Option<string>): string {
    if text.None? || text.value == "" then "invalid url" else text.value
  }

  /**
   * `ValidUrlPath.validate` with `RESTRICT_UPLOAD_DOMAINS` as `restrict`: unset or empty lets every
   * URL through; otherwise the text, or `'invalid url'` when the text is missing or empty, must
   * contain the domain.
   */
  predicate PathValid(text: Option<string>, restrict: Option<string>)
    ensures (restrict.None? || restrict == Some("")) ==> PathValid(text, restrict)
    ensures restrict.Some? && restrict.value != "" ==>
      (PathValid(text, restrict) <==> exists i: nat :: OccursAt(Subject(text), restrict.value, i))
  {
    if restrict.None? || restrict.value == "" then true
    else
      ContainsIff(Subject(text), restrict.value);
      Contains(Subject(text), restrict.value)
  }

  /** No restriction: every value passes. */
  lemma UnrestrictedPasses(text: Option<string>, restrict: Option<string>)
    requires restrict.None? || restrict == Some("")
    ensures PathValid(text, restrict)
  {
  }

  /** With a restriction, a URL passes iff the domain occurs somewhere in it. */
  lemma RestrictedIff(url: string, domain: string)
    requires url != "" && domain != ""
    ensures PathValid(Some(url), Some(domain)) <==> exists i: nat :: OccursAt(url, domain, i)
  {
    ContainsIff(url, domain);
  }

  /** A missing URL is checked as the text `invalid url`, so it passes a domain that occurs in that text. */
  lemma MissingUrlChecked(domain: string)
    requires domain != ""
    ensures PathValid(None, Some(domain)) == Contains("invalid url", domain)
    ensures PathValid(None, Some("url"))
    ensures !PathValid(None, Some("example.com"))
  {
    assert OccursAt("invalid url", "url", 8) by {
      assert "invalid url"[8..11] == "url";
    }
    ContainsAt("invalid url", "url", 8);
    ContainsIff("invalid url", "example.com");
  }

  /** `ValidUrlPath.defaultMessage`: an unset domain renders as `undefined`. */
  function PathMessage(restrict: Option<string>): (r: string)
    ensures StartsWith(r, "URL must contain the domain: ")
    ensures restrict.None? ==> r == "URL must contain the domain: undefined"
  {
    "URL must contain the domain: " + (if restrict.Some? then restrict.value else "undefined")
  }
}
