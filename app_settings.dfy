/** The web panel's key/value settings table, read and written as booleans,
    and the one-line rendering of a log entry. */
module AppSettings {
  import opened Common

  /** One settings row; `key` is unique. */
  datatype AppSetting = AppSetting(value: string, description: string)

  /** The words read as true after normalisation. */
  const TrueWords: seq<string> := ["true", "1", "yes", "on"]

  predicate Quote(c: char) { c == '\'' || c == '"' }

  /** `value.lower().strip("'\"")`: lower-cased, then single and double
      quotes removed from both ends; whitespace is kept. */
  function Normalise(value: string): string {
    Trim(LowerAscii(value), Quote)
  }

  /** The truth of a stored text. */
  function ReadBool(value: string): bool {
    Normalise(value) in TrueWords
  }

  /** `'true' if value else 'false'`. */
  function WriteBool(v: bool): string {
    if v then "true" else "false"
  }

  /** `AppSetting.get_bool(key, default)` over the table. */
  function GetBool(settings: map<string, AppSetting>, key: string, default: bool): (r: bool)
    ensures key !in settings ==> r == default
    ensures key in settings ==> (r <==> Normalise(settings[key].value) in TrueWords)
  {
    if key in settings then ReadBool(settings[key].value) else default
  }

  lemma NoQuotes(s: string)
    requires forall k :: 0 <= k < |s| ==> !Quote(s[k])
    ensures Trim(s, Quote) == s
  {
    if s != [] {
      TrimStartNoop(s, Quote);
      TrimEndNoop(s, Quote);
    }
  }

  /** A lower-case word without quotes is its own normal form. */
  lemma NormalWord(w: string)
    requires forall k :: 0 <= k < |w| ==> 'a' <= w[k] <= 'z'
    ensures Normalise(w) == w
  {
    assert LowerAscii(w) == w;
    NoQuotes(w);
  }

  /** Reading back a written boolean gives the boolean. */
  lemma ReadWriteBool(v: bool)
    ensures ReadBool(WriteBool(v)) == v
  {
    if v {
      NormalWord("true");
    } else {
      NormalWord("false");
      assert "false" !in TrueWords by {
        assert "false"[0] != "true"[0] && |"false"| != |"1"| && "false"[0] != "yes"[0] && "false"[0] != "on"[0];
      }
    }
  }

  /** A quoted word loses its quotes. */
  lemma Unquote(q: char, w: string, r: char)
    requires Quote(q) && Quote(r) && w != []
    requires forall k :: 0 <= k < |w| ==> !Quote(w[k])
    ensures Trim([q] + w + [r], Quote) == w
  {
    var s := [q] + w + [r];
    assert s[1..] == w + [r];
    assert TrimStart(w + [r], Quote) == w + [r] by {
      TrimStartNoop(w + [r], Quote);
    }
    assert (w + [r])[..|w|] == w;
    assert TrimEnd(w, Quote) == w by {
      TrimEndNoop(w, Quote);
    }
  }

  lemma QuotedYes()
    ensures ReadBool("'YES'")
  {
    assert LowerAscii("'YES'") == "'yes'";
    assert "'yes'" == ['\''] + "yes" + ['\''];
    Unquote('\'', "yes", '\'');
    assert Normalise("'YES'") == TrueWords[2];
  }

  lemma QuotedOn()
    ensures ReadBool("\"On\"")
  {
    assert LowerAscii("\"On\"") == "\"on\"";
    assert "\"on\"" == ['"'] + "on" + ['"'];
    Unquote('"', "on", '"');
    assert Normalise("\"On\"") == TrueWords[3];
  }

  /** Capitals and surrounding quotes are ignored. */
  lemma ReadBoolQuotedCapitals()
    ensures ReadBool("'YES'") && ReadBool("\"On\"")
  {
    QuotedYes();
    QuotedOn();
  }

  /** Whitespace is not stripped, so a padded word reads as false. */
  lemma ReadBoolPadded()
    ensures !ReadBool(" true")
  {
    assert LowerAscii(" true") == " true";
    NoQuotes(" true");
    assert " true" != "true" && " true" != "1" && " true" != "yes" && " true" != "on";
  }

  /** The table after a write: one row per key, holding the encoded value
      and the description given. */
  function SetBoolRows(settings: map<string, AppSetting>, key: string, v: bool, description: string): (r: map<string, AppSetting>)
    ensures r.Keys == settings.Keys + {key}
    ensures r[key] == AppSetting(WriteBool(v), description)
    ensures forall k :: k in settings && k != key ==> r[k] == settings[k]
    ensures forall d :: GetBool(r, key, d) == v
  {
    ReadWriteBool(v);
    settings[key := AppSetting(WriteBool(v), description)]
  }

  class SettingsTable {
    var settings: map<string, AppSetting>

    constructor ()
      ensures settings == map[]
    {
      settings := map[];
    }

    /** `AppSetting.set_bool(key, value, description)`: `update_or_create`
        on the unique key. */
    method SetBool(key: string, v: bool, description: string)
      modifies this
      ensures settings == SetBoolRows(old(settings), key, v, description)
      ensures forall d :: GetBool(settings, key, d) == v
    {
      settings := SetBoolRows(settings, key, v, description);
    }
  }

  /** `LogEntry.__str__`: the level in brackets and the first 60 characters
      of the message. */
  function LogEntryText(level: string, message: string): (r: string)
    ensures |r| == |level| + 3 + (if |message| < 60 then |message| else 60)
    ensures r[..|level| + 3] == "[" + level + "] "
    ensures r[|level| + 3..] <= message
    ensures |message| <= 60 ==> r[|level| + 3..] == message
  {
    "[" + level + "] " + (if |message| < 60 then message else message[..60])
  }
}
