/**
 * The stateless input validators of the backend: a URL check, a QR-type check
 * and a string sanitiser.
 */
module Validators {
  import opened JsText

  /**
   * The WHATWG URL parser as `validateUrl` sees it: `new URL(s)` either throws (None)
   * or yields a URL whose `protocol` is the lower-cased scheme followed by ':'.
   */
  type UrlParser = string -> Option<string>

  /** Without a base URL the parser accepts only absolute URLs, and those carry ':' after the scheme. */
  ghost predicate ParserNeedsScheme(parse: UrlParser) {
    forall s: string {:trigger parse(s)} :: (forall i :: 0 <= i < |s| ==> s[i] != ':') ==> parse(s) == None
  }

  /** The protocols `validateUrl` admits. */
  predicate IsWebProtocol(p: Option<string>) {
    p == Some("http:") || p == Some("https:")
  }

  /**
   * `validateUrl(url)`: false for anything falsy or not a string; otherwise true exactly when
   * the string parses as a URL whose protocol is `http:` or `https:` (a parse failure is false).
   */
  function ValidateUrl(url: JsValue, parse: UrlParser): (ok: bool)
    ensures !Truthy(url) || !url.Str? ==> !ok
    ensures url.Str? && url.s != "" ==> (ok <==> IsWebProtocol(parse(url.s)))
    ensures ok ==> url.Str? && |url.s| > 0
  {
    match url
    case Str(s) => s != "" && IsWebProtocol(parse(s))
    case _ => false
  }

  /** A URL that passes validation has a scheme separator, whatever URL parser is in use. */
  lemma ValidUrlHasScheme(s: string, parse: UrlParser)
    requires ParserNeedsScheme(parse)
    requires ValidateUrl(Str(s), parse)
    ensures exists i :: 0 <= i < |s| && s[i] == ':'
  {
  }

  /** The QR types the API accepts, in the order the source lists them. */
  const QRTypes: seq<string> := ["url", "form", "video", "document"]

  /** `validateQRType(t)`: true exactly for the four type names; `includes` never matches a non-string. */
  function ValidateQRType(t: JsValue): (ok: bool)
    ensures ok <==> t == Str("url") || t == Str("form") || t == Str("video") || t == Str("document")
  {
    t.Str? && t.s in QRTypes
  }

  /** `s.replace(/[<>]/g, '')`: every '<' and '>' deleted, every other character kept in order. */
  function RemoveAngles(s: string): (r: string)
    ensures |r| <= |s|
    ensures forall i :: 0 <= i < |r| ==> r[i] != '<' && r[i] != '>'
    ensures forall c :: c != '<' && c != '>' ==> multiset(r)[c] == multiset(s)[c]
    ensures (forall i :: 0 <= i < |s| ==> s[i] != '<' && s[i] != '>') ==> r == s
  {
    if s == [] then []
    else
      var rest := RemoveAngles(s[..|s| - 1]);
      var c := s[|s| - 1];
      assert s == s[..|s| - 1] + [c];
      if c == '<' || c == '>' then rest else rest + [c]
  }

  /** Removing brackets works piecewise: from a single character, and over a concatenation in order. */
  lemma {:induction false} RemoveAnglesConcat(a: string, b: string)
    ensures RemoveAngles(a + b) == RemoveAngles(a) + RemoveAngles(b)
    ensures |a| == 1 ==> RemoveAngles(a) == if a[0] == '<' || a[0] == '>' then [] else a
  {
    if b != [] {
      RemoveAnglesConcat(a, b[..|b| - 1]);
      assert (a + b)[..|a + b| - 1] == a + b[..|b| - 1];
    } else {
      assert a + b == a;
    }
    if |a| == 1 {
      assert a[..0] == [];
    }
  }

  /**
   * `sanitizeString(str)`: '' for anything falsy or not a string; otherwise the trimmed
   * string with the angle brackets removed, so never longer than the input and free of '<' and '>'.
   */
  function SanitizeString(v: JsValue): (r: string)
    ensures !Truthy(v) || !v.Str? ==> r == ""
    ensures v.Str? && v.s != "" ==> r == RemoveAngles(Trim(v.s))
    ensures forall i :: 0 <= i < |r| ==> r[i] != '<' && r[i] != '>'
    ensures v.Str? ==> |r| <= |v.s|
  {
    match v
    case Str(s) => if s == "" then "" else RemoveAngles(Trim(s))
    case _ => ""
  }

  /** On text without angle brackets, sanitising is trimming. */
  lemma SanitizeIsTrimWithoutAngles(s: string)
    requires forall i :: 0 <= i < |s| ==> s[i] != '<' && s[i] != '>'
    ensures SanitizeString(Str(s)) == Trim(s)
  {
    if s != "" {
      var t := Trim(s);
      var k := |s| - |TrimStart(s)|;
      forall i | 0 <= i < |t|
        ensures t[i] != '<' && t[i] != '>'
      {
        assert t[i] == s[k + i];
      }
      assert SanitizeString(Str(s)) == RemoveAngles(t);
    }
  }

  /**
   * Sanitising is not idempotent: deleting a bracket can expose white space at an end,
   * which a second pass trims away (" < a" becomes " a", then "a").
   */
  lemma SanitizeNotIdempotent()
    ensures SanitizeString(Str(" < a")) == " a"
    ensures SanitizeString(Str(SanitizeString(Str(" < a")))) == "a"
  {
    SanitizeFirstPass();
    SanitizeSecondPass();
  }

  lemma SanitizeFirstPass()
    ensures SanitizeString(Str(" < a")) == " a"
  {
    TrimOfFirstSample();
    AnglesOfSample();
    assert SanitizeString(Str(" < a")) == RemoveAngles(Trim(" < a"));
  }

  lemma SanitizeSecondPass()
    ensures SanitizeString(Str(" a")) == "a"
  {
    TrimOfSecondSample();
    AnglesOfSample();
    var s: string := " a";
    assert SanitizeString(Str(s)) == RemoveAngles(Trim(s));
  }

  lemma TrimOfFirstSample()
    ensures Trim(" < a") == "< a"
  {
    var s: string := " < a";
    var t: string := "< a";
    assert IsWhiteSpace(s[0]) && s[1..] == t && !IsWhiteSpace(t[0]);
    assert TrimStart(s) == TrimStart(t) == t;
    assert !IsWhiteSpace(t[|t| - 1]);
    assert TrimEnd(t) == t;
  }

  lemma TrimOfSecondSample()
    ensures Trim(" a") == "a"
  {
    var s: string := " a";
    var t: string := "a";
    assert IsWhiteSpace(s[0]) && s[1..] == t && !IsWhiteSpace(t[0]);
    assert TrimStart(s) == TrimStart(t) == t;
    assert TrimEnd(t) == t;
  }

  lemma AnglesOfSample()
    ensures RemoveAngles("< a") == " a"
    ensures RemoveAngles("a") == "a"
  {
    assert "< a"[..2] == "< ";
    assert "< "[..1] == "<";
    assert "<"[..0] == [];
  }
}
