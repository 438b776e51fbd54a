/** The e-mail syntax check the bot applies to an administrator's input:
    `re.match(r"^[a-zA-Z0-9._%+-]+@[a-zA-Z0-9.-]+\.[a-zA-Z]{2,}$", text)`
    on the stripped, lower-cased message text. */
module EmailSyntax {
  import opened Common

  predicate AsciiLetter(c: char) { 'a' <= c <= 'z' || 'A' <= c <= 'Z' }

  predicate AsciiDigit(c: char) { '0' <= c <= '9' }

  /** `[a-zA-Z0-9._%+-]`, the local part's class. */
  predicate LocalChar(c: char) {
    AsciiLetter(c) || AsciiDigit(c) || c == '.' || c == '_' || c == '%' || c == '+' || c == '-'
  }

  /** `[a-zA-Z0-9.-]`, the domain's class. */
  predicate DomainChar(c: char) {
    AsciiLetter(c) || AsciiDigit(c) || c == '.' || c == '-'
  }

  predicate AllIn(s: string, lo: int, hi: int, p: char -> bool)
    requires 0 <= lo <= hi <= |s|
  {
    forall k :: lo <= k < hi ==> p(s[k])
  }

  /** `s` splits as `L @ D . T` at positions `at` and `dot`: `L` non-empty over
      the local class, `D` non-empty over the domain class, `T` at least two
      ASCII letters. */
  predicate IsSplit(s: string, at: int, dot: int) {
    && 0 < at && at + 1 < dot && dot + 3 <= |s|
    && s[at] == '@' && s[dot] == '.'
    && AllIn(s, 0, at, LocalChar)
    && AllIn(s, at + 1, dot, DomainChar)
    && AllIn(s, dot + 1, |s|, AsciiLetter)
  }

  /** The language of the regular expression's body, stated as the regex
      engine sees it: some split of the text fits the pattern. */
  ghost predicate Shape(s: string) {
    exists at, dot :: IsSplit(s, at, dot)
  }

  /** Python's `$` also matches just before a final newline. */
  ghost predicate RegexMatches(s: string) {
    Shape(s) || (|s| > 0 && s[|s| - 1] == '\n' && Shape(s[..|s| - 1]))
  }

  function FirstIndex(s: string, c: char): (r: Option<nat>)
    ensures r.None? ==> forall k :: 0 <= k < |s| ==> s[k] != c
    ensures r.Some? ==> r.value < |s| && s[r.value] == c
    ensures r.Some? ==> forall k :: 0 <= k < r.value ==> s[k] != c
  {
    if s == [] then None
    else if s[0] == c then Some(0)
    else match FirstIndex(s[1..], c)
      case None => None
      case Some(i) => Some(i + 1)
  }

  function LastIndex(s: string, c: char): (r: Option<nat>)
    ensures r.None? ==> forall k :: 0 <= k < |s| ==> s[k] != c
    ensures r.Some? ==> r.value < |s| && s[r.value] == c
    ensures r.Some? ==> forall k :: r.value < k < |s| ==> s[k] != c
  {
    if s == [] then None
    else if s[|s| - 1] == c then Some(|s| - 1)
    else LastIndex(s[..|s| - 1], c)
  }

  /** The deterministic check: the split can only be at the first `@` (neither
      class contains `@`) and at the last `.` (the top-level part is letters
      only). */
  function ScanShape(s: string): bool {
    match (FirstIndex(s, '@'), LastIndex(s, '.'))
    case (Some(at), Some(dot)) => IsSplit(s, at, dot)
    case _ => false
  }

  function MatchesPattern(s: string): bool {
    ScanShape(s) || (|s| > 0 && s[|s| - 1] == '\n' && ScanShape(s[..|s| - 1]))
  }

  /** What `process_user_email` and `process_email` test: the text is stripped
      and lower-cased first. */
  function IsValidEmailInput(text: string): bool {
    MatchesPattern(LowerAscii(PyStrip(text)))
  }

  /** The scanner accepts exactly the strings of the form `L@D.T`. */
  lemma ScanShapeCorrect(s: string)
    ensures ScanShape(s) <==> Shape(s)
  {
    if Shape(s) {
      var at, dot :| IsSplit(s, at, dot);
      var fa := FirstIndex(s, '@');
      var ld := LastIndex(s, '.');
      assert forall k :: 0 <= k < at ==> s[k] != '@' by {
        assert AllIn(s, 0, at, LocalChar);
      }
      assert forall k :: dot < k < |s| ==> s[k] != '.' by {
        assert AllIn(s, dot + 1, |s|, AsciiLetter);
      }
      assert fa == Some(at);
      assert ld == Some(dot);
    }
  }

  /** The regex as the source applies it is decided by `MatchesPattern`. */
  lemma MatchesPatternCorrect(s: string)
    ensures MatchesPattern(s) <==> RegexMatches(s)
  {
    ScanShapeCorrect(s);
    if |s| > 0 {
      ScanShapeCorrect(s[..|s| - 1]);
    }
  }

  /** The input is stripped before matching, so the final-newline quirk of `$`
      never applies: acceptance is exactly the `L@D.T` shape of the stripped,
      lower-cased text. */
  lemma ValidEmailInputShape(text: string)
    ensures IsValidEmailInput(text) <==> Shape(LowerAscii(PyStrip(text)))
  {
    var s := LowerAscii(PyStrip(text));
    ScanShapeCorrect(s);
    if |s| > 0 {
      var t := PyStrip(text);
      assert t[|t| - 1] != '\n' by {
        assert !PyWhitespace(t[|t| - 1]);
      }
      assert s[|s| - 1] != '\n';
    }
  }

  /** Every accepted text contains exactly one `@`. */
  lemma ShapeSingleAt(s: string, at: int, dot: int)
    requires IsSplit(s, at, dot)
    ensures forall k :: 0 <= k < |s| && s[k] == '@' ==> k == at
  {
    assert forall k :: 0 <= k < at ==> s[k] != '@' by {
      assert AllIn(s, 0, at, LocalChar);
    }
    assert forall k :: at < k < dot ==> s[k] != '@' by {
      assert AllIn(s, at + 1, dot, DomainChar);
    }
    assert forall k :: dot < k < |s| ==> s[k] != '@' by {
      assert AllIn(s, dot + 1, |s|, AsciiLetter);
    }
  }

  /** A tagged address on a sub-domain is accepted. */
  lemma AcceptsTaggedAddress()
    ensures Shape("user.name+tag@sub.example.com")
  {
    assert IsSplit("user.name+tag@sub.example.com", 13, 25);
  }

  lemma StripPadded()
    ensures PyStrip(" Ana@Corp.IO\n") == "Ana@Corp.IO"
  {
    var raw := " Ana@Corp.IO\n";
    var mid := "Ana@Corp.IO";
    assert raw[1..] == mid + "\n";
    assert TrimStart(raw[1..], PyWhitespace) == raw[1..];
    assert (mid + "\n")[..|mid|] == mid;
    assert TrimEnd(mid, PyWhitespace) == mid;
  }

  lemma LowerExample()
    ensures LowerAscii("Ana@Corp.IO") == "ana@corp.io"
  {
    var r := LowerAscii("Ana@Corp.IO");
    assert r[0] == 'a' && r[4] == 'c' && r[9] == 'i' && r[10] == 'o';
  }

  lemma AcceptsLowerExample()
    ensures MatchesPattern("ana@corp.io")
  {
    var low := "ana@corp.io";
    assert IsSplit(low, 3, 8);
    ScanShapeCorrect(low);
  }

  /** Surrounding blanks and capitals in the message do not matter. */
  lemma AcceptsPaddedCapitals()
    ensures IsValidEmailInput(" Ana@Corp.IO\n")
  {
    StripPadded();
    LowerExample();
    AcceptsLowerExample();
  }

  /** Two `@` signs and no top-level domain. */
  lemma RejectsDoubleAt()
    ensures !Shape("user@@example")
  {
    var s := "user@@example";
    assert forall k :: 0 <= k < |s| ==> s[k] != '.';
    ScanShapeCorrect(s);
  }

  /** No `@` at all. */
  lemma RejectsMissingAt()
    ensures !Shape("no-at-sign.com")
  {
    var s := "no-at-sign.com";
    assert forall k :: 0 <= k < |s| ==> s[k] != '@';
    ScanShapeCorrect(s);
  }

  /** An empty domain label before the last dot. */
  lemma RejectsEmptyDomain()
    ensures !Shape("user@.com")
  {
    var s := "user@.com";
    assert s[4] == '@' && forall k :: 0 <= k < 4 ==> s[k] != '@';
    assert s[5] == '.' && forall k :: 5 < k < |s| ==> s[k] != '.';
    assert FirstIndex(s, '@') == Some(4);
    assert LastIndex(s, '.') == Some(5);
    ScanShapeCorrect(s);
  }
}
