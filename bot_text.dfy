/** Pure text helpers of the conversation handlers: the hour-dependent
    greeting and the parsing of the administrators' address list. */
module BotText {
  import opened Common

  datatype Greeting = Morning | Afternoon | Night

  /** `get_greeting`: 5 to 11 o'clock is morning, 12 to 18 afternoon, every
      other hour night. */
  function GreetingFor(hour: int): (g: Greeting)
    ensures g == Morning <==> 5 <= hour <= 11
    ensures g == Afternoon <==> 12 <= hour <= 18
    ensures g == Night <==> hour < 5 || 19 <= hour
  {
    if 5 <= hour < 12 then Morning
    else if 12 <= hour < 19 then Afternoon
    else Night
  }

  function GreetingText(g: Greeting): string {
    match g
    case Morning => "¡Buenos días! 🌅"
    case Afternoon => "¡Buenas tardes! ☀️"
    case Night => "¡Buenas noches! 🌙"
  }

  /** The greeting of each hour of the clock, written out hour by hour. */
  const DayTable: seq<Greeting> :=
    [Night, Night, Night, Night, Night,
     Morning, Morning, Morning, Morning, Morning, Morning, Morning,
     Afternoon, Afternoon, Afternoon, Afternoon, Afternoon, Afternoon, Afternoon,
     Night, Night, Night, Night, Night]

  /** Every hour of the day gets exactly the greeting of the table: seven
      morning hours, seven afternoon hours and ten night hours. */
  lemma GreetingMatchesTable(hour: int)
    requires 0 <= hour < 24
    ensures |DayTable| == 24
    ensures GreetingFor(hour) == DayTable[hour]
  {
  }

  /** Keeps the stripped form of every part that is not blank. */
  function StrippedNonEmpty(parts: seq<string>): (r: seq<string>)
    ensures |r| <= |parts|
  {
    if parts == [] then []
    else
      var head := PyStrip(parts[0]);
      (if head != "" then [head] else []) + StrippedNonEmpty(parts[1..])
  }

  /** `[e.strip() for e in s.split(",") if e.strip()]`, the administrators'
      addresses taken from `ADMIN_EMAILS`. */
  function AdminList(s: string): seq<string> {
    StrippedNonEmpty(Split(s, ','))
  }

  /** `x` is the stripped form of one of the parts. */
  ghost predicate StrippedPart(parts: seq<string>, x: string) {
    exists i :: 0 <= i < |parts| && PyStrip(parts[i]) == x
  }

  /** An address as the handlers use it: not blank, without surrounding
      whitespace and without a comma. */
  predicate CleanAddress(e: string) {
    e != "" && PyStrip(e) == e && ',' !in e
  }

  /** An element is kept exactly when it is a non-blank stripped part. */
  lemma {:induction false} StrippedNonEmptyMembers(parts: seq<string>, x: string)
    ensures x in StrippedNonEmpty(parts) <==> x != "" && StrippedPart(parts, x)
  {
    if parts != [] {
      StrippedNonEmptyMembers(parts[1..], x);
      var head := PyStrip(parts[0]);
      var rest := StrippedNonEmpty(parts[1..]);
      assert StrippedNonEmpty(parts) == (if head != "" then [head] else []) + rest;
      if x != "" && StrippedPart(parts, x) {
        var i :| 0 <= i < |parts| && PyStrip(parts[i]) == x;
        if i > 0 {
          assert PyStrip(parts[1..][i - 1]) == x;
        }
      }
      if x in rest {
        var i :| 0 <= i < |parts[1..]| && PyStrip(parts[1..][i]) == x;
        assert PyStrip(parts[i + 1]) == x;
      }
    }
  }

  /** Stripping a comma-free text gives a clean address unless it is blank. */
  lemma StripClean(p: string)
    requires ',' !in p
    ensures PyStrip(p) != "" ==> CleanAddress(PyStrip(p))
  {
    TrimIdempotent(p, PyWhitespace);
    var lo, hi := TrimSlice(p, PyWhitespace);
    var e := PyStrip(p);
    forall k | 0 <= k < |e| ensures e[k] != ',' {
      assert e[k] == p[lo + k];
    }
  }

  /** Every kept element of comma-free parts is a clean address. */
  lemma {:induction false} StrippedNonEmptyClean(parts: seq<string>)
    requires forall i :: 0 <= i < |parts| ==> ',' !in parts[i]
    ensures forall j :: 0 <= j < |StrippedNonEmpty(parts)| ==> CleanAddress(StrippedNonEmpty(parts)[j])
  {
    if parts != [] {
      StrippedNonEmptyClean(parts[1..]);
      StripClean(parts[0]);
    }
  }

  /** The administrators' list holds exactly the non-blank stripped pieces
      between commas, and each is a clean address. */
  lemma AdminListShape(s: string)
    ensures forall j :: 0 <= j < |AdminList(s)| ==> CleanAddress(AdminList(s)[j])
    ensures forall x :: x in AdminList(s) <==> x != "" && StrippedPart(Split(s, ','), x)
  {
    StrippedNonEmptyClean(Split(s, ','));
    forall x ensures x in AdminList(s) <==> x != "" && StrippedPart(Split(s, ','), x) {
      StrippedNonEmptyMembers(Split(s, ','), x);
    }
  }

  /** A text holding only blanks strips to nothing. */
  lemma StripBlank(p: string)
    requires forall k :: 0 <= k < |p| ==> p[k] == ' '
    ensures PyStrip(p) == ""
  {
    assert forall k :: 0 <= k < |p| ==> PyWhitespace(p[k]);
  }

  lemma {:induction false} StrippedBlank(parts: seq<string>)
    requires forall i, k :: 0 <= i < |parts| && 0 <= k < |parts[i]| ==> parts[i][k] == ' '
    ensures StrippedNonEmpty(parts) == []
  {
    if parts != [] {
      StripBlank(parts[0]);
      StrippedBlank(parts[1..]);
    }
  }

  /** Each part of a split consists of characters of the text. */
  lemma {:induction false} SplitPieces(s: string, sep: char)
    ensures forall i, k :: 0 <= i < |Split(s, sep)| && 0 <= k < |Split(s, sep)[i]| ==>
      Split(s, sep)[i][k] in s
  {
    if s != [] {
      SplitPieces(s[1..], sep);
    }
  }

  /** A blank `ADMIN_EMAILS` (only commas and spaces, or unset and so empty)
      gives no administrator, so nobody is notified. */
  lemma AdminListBlank(s: string)
    requires forall i :: 0 <= i < |s| ==> s[i] == ',' || s[i] == ' '
    ensures AdminList(s) == []
  {
    var parts := Split(s, ',');
    SplitPieces(s, ',');
    forall i, k | 0 <= i < |parts| && 0 <= k < |parts[i]| ensures parts[i][k] == ' ' {
      assert parts[i][k] in s;
      assert parts[i][k] != ',';
    }
    StrippedBlank(parts);
  }

  /** A text without the separator is a single part. */
  lemma {:induction false} SplitNoSep(a: string, sep: char)
    requires sep !in a
    ensures Split(a, sep) == [a]
  {
    if a != [] {
      SplitNoSep(a[1..], sep);
      assert a == [a[0]] + a[1..];
    }
  }

  /** A separator splits the text into the parts on its left followed by the
      parts on its right. */
  lemma {:induction false} SplitAtSep(a: string, b: string, sep: char)
    requires sep !in a
    ensures Split(a + [sep] + b, sep) == [a] + Split(b, sep)
  {
    var s := a + [sep] + b;
    if a == [] {
      assert s[0] == sep && s[1..] == b;
    } else {
      assert s[0] == a[0] && s[1..] == a[1..] + [sep] + b;
      SplitAtSep(a[1..], b, sep);
      assert a == [a[0]] + a[1..];
    }
  }

  lemma SplitExample()
    ensures Split(" a@x, ,b@y", ',') == [" a@x", " ", "b@y"]
  {
    var s := " a@x, ,b@y";
    assert s == " a@x" + [','] + (" " + [','] + "b@y");
    SplitAtSep(" a@x", " " + [','] + "b@y", ',');
    SplitAtSep(" ", "b@y", ',');
    SplitNoSep("b@y", ',');
  }

  lemma StripExamples()
    ensures PyStrip(" a@x") == "a@x"
    ensures PyStrip(" ") == ""
    ensures PyStrip("b@y") == "b@y"
  {
    assert " a@x"[1..] == "a@x";
    TrimStartNoop("a@x", PyWhitespace);
    TrimEndNoop("a@x", PyWhitespace);
    StripBlank(" ");
    TrimStartNoop("b@y", PyWhitespace);
    TrimEndNoop("b@y", PyWhitespace);
  }

  lemma StrippedExample()
    ensures StrippedNonEmpty([" a@x", " ", "b@y"]) == ["a@x", "b@y"]
  {
    StripExamples();
    var last: seq<string> := ["b@y"];
    var tail: seq<string> := [" ", "b@y"];
    var parts: seq<string> := [" a@x", " ", "b@y"];
    assert last[1..] == [];
    assert tail[1..] == last;
    assert parts[1..] == tail;
  }

  /** A two-address list with blanks and an empty slot. */
  lemma AdminListExample()
    ensures AdminList(" a@x, ,b@y") == ["a@x", "b@y"]
  {
    SplitExample();
    StrippedExample();
  }
}
