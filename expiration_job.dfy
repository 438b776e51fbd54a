/** The nightly command that warns users whose password expires within 30
    days and mails the administrators a summary. The directory search, the
    clock, ISO-8601 parsing and mail delivery are parameters: `parseIso`
    reads a `pwdLastSet` text, and `delivered(i)` tells whether the warning
    to the `i`-th entry of the search was accepted by the mail server. */
module ExpirationJob {
  import opened Common
  import opened Chrono
  import opened AdOperations

  /** Warn when 1 to 30 days remain. */
  const DaysToNotify := 30

  /** `userAccountControl` of a normal, enabled account. */
  const NormalAccount := 512

  /** One search result: `mail` is present, as the filter `(mail=*)` asks. */
  datatype JobEntry = JobEntry(mail: string, pwdLastSet: PwdValue, uac: Option<int>)

  /** `AD_PASSWORD_POLICY_DAYS` and `ADMIN_EMAILS`. */
  datatype JobEnv = JobEnv(policy: Option<string>, adminEmails: Option<string>)

  datatype JobDirectory = JobDirectory(fault: Option<Fault>, entries: seq<JobEntry>)

  /** The mails the command sends: a user's warning (the body quotes the
      remaining days) or the administrators' summary. */
  datatype Sent =
    | UserWarning(to: string, days: int)
    | AdminSummary(to: string, subject: string, text: string)

  /** What the command writes on its standard output. */
  datatype Outcome = Completed(count: nat) | LdapFailed(detail: string) | Unexpected(detail: string)

  function OutcomeText(o: Outcome): string {
    match o
    case Completed(n) => "Notificación completada. " + NatToString(n) + " usuarios notificados."
    case LdapFailed(d) => "Error en la conexión LDAP: " + d
    case Unexpected(d) => "Error inesperado: " + d
  }

  /** Python truthiness of the attribute values: `None`, `0` and `''` are
      false; a datetime is always true. */
  predicate PwdFalsy(v: PwdValue) {
    v.PwdAbsent? || v == PwdTicks(0) || v == PwdText("")
  }

  predicate UacFalsy(u: Option<int>) {
    u.None? || u == Some(0)
  }

  /** `s.replace('Z', '+00:00')`. */
  function ReplaceZ(s: string): (r: string)
    ensures 'Z' !in r
    ensures 'Z' !in s ==> r == s
  {
    if s == [] then []
    else (if s[0] == 'Z' then "+00:00" else [s[0]]) + ReplaceZ(s[1..])
  }

  /** The days left for one entry, or `None` when it is skipped, either by
      the falsy test or by an exception: an integer `pwdLastSet` cannot be
      added to a `timedelta`, a text that is not ISO-8601 does not parse,
      and a date beyond the calendar overflows. */
  function DaysLeft(e: JobEntry, policy: int, now: Instant, parseIso: string -> Option<Instant>): Option<int> {
    if PwdFalsy(e.pwdLastSet) || UacFalsy(e.uac) then None
    else
      var last :=
        match e.pwdLastSet
        case PwdTime(at) => Some(at)
        case PwdText(s) => parseIso(ReplaceZ(s))
        case _ => None;
      match last
      case None => None
      case Some(t) =>
        match AddDays(t, policy)
        case None => None
        case Some(expiry) => Some(DaysBetween(expiry, now))
  }

  /** The entry gets a warning: its account is exactly a normal enabled
      one, and 1 to 30 days remain. */
  function Candidate(e: JobEntry, policy: int, now: Instant, parseIso: string -> Option<Instant>): (r: Option<int>)
    ensures r.Some? <==>
      (DaysLeft(e, policy, now, parseIso).Some? && e.uac == Some(NormalAccount) &&
       0 < DaysLeft(e, policy, now, parseIso).value <= DaysToNotify)
    ensures r.Some? ==> r == DaysLeft(e, policy, now, parseIso)
  {
    match DaysLeft(e, policy, now, parseIso)
    case None => None
    case Some(d) => if e.uac == Some(NormalAccount) && 0 < d <= DaysToNotify then Some(d) else None
  }

  function NoticeLine(mail: string, days: int): string {
    mail + " - " + IntToString(days) + " días restantes"
  }

  /** The warnings sent for a prefix of the search results. */
  function Warnings(entries: seq<JobEntry>, policy: int, now: Instant, parseIso: string -> Option<Instant>): (r: seq<Sent>)
    ensures |r| <= |entries|
    ensures forall k :: 0 <= k < |r| ==> r[k].UserWarning? && 0 < r[k].days <= DaysToNotify
  {
    if entries == [] then []
    else
      var e := entries[|entries| - 1];
      Warnings(entries[..|entries| - 1], policy, now, parseIso) +
      (match Candidate(e, policy, now, parseIso) case None => [] case Some(d) => [UserWarning(e.mail, d)])
  }

  /** A warning goes to `m` with `d` days exactly when some entry with that
      mail is a candidate with `d` days left. */
  lemma {:induction false} WarningsExactly(entries: seq<JobEntry>, policy: int, now: Instant,
                                           parseIso: string -> Option<Instant>, m: string, d: int)
    ensures UserWarning(m, d) in Warnings(entries, policy, now, parseIso) <==>
      exists i :: 0 <= i < |entries| && entries[i].mail == m && Candidate(entries[i], policy, now, parseIso) == Some(d)
  {
    if entries != [] {
      var n := |entries| - 1;
      var init := entries[..n];
      var e := entries[n];
      WarningsExactly(init, policy, now, parseIso, m, d);
      var tail := match Candidate(e, policy, now, parseIso) case None => [] case Some(d') => [UserWarning(e.mail, d')];
      assert Warnings(entries, policy, now, parseIso) == Warnings(init, policy, now, parseIso) + tail;
      assert UserWarning(m, d) in tail <==> e.mail == m && Candidate(e, policy, now, parseIso) == Some(d);
      assert forall i :: 0 <= i < n ==> init[i] == entries[i];
    }
  }

  /** The summary lines: one per warning the mail server accepted. */
  function Lines(entries: seq<JobEntry>, policy: int, now: Instant, parseIso: string -> Option<Instant>,
                 delivered: nat -> bool): (r: seq<string>)
    ensures |r| <= |Warnings(entries, policy, now, parseIso)|
  {
    if entries == [] then []
    else
      var i := |entries| - 1;
      var e := entries[i];
      Lines(entries[..i], policy, now, parseIso, delivered) +
      (match Candidate(e, policy, now, parseIso)
       case Some(d) => if delivered(i) then [NoticeLine(e.mail, d)] else []
       case None => [])
  }

  /** Each summary line names an entry that was warned and whose warning
      was delivered, with its remaining days. */
  lemma {:induction false} LinesSource(entries: seq<JobEntry>, policy: int, now: Instant,
                                       parseIso: string -> Option<Instant>, delivered: nat -> bool, k: int)
    requires 0 <= k < |Lines(entries, policy, now, parseIso, delivered)|
    ensures exists i ::
      && 0 <= i < |entries| && delivered(i)
      && Candidate(entries[i], policy, now, parseIso).Some?
      && Lines(entries, policy, now, parseIso, delivered)[k] ==
           NoticeLine(entries[i].mail, Candidate(entries[i], policy, now, parseIso).value)
  {
    var n := |entries| - 1;
    var init := entries[..n];
    var before := Lines(init, policy, now, parseIso, delivered);
    if k < |before| {
      LinesSource(init, policy, now, parseIso, delivered, k);
      var i :| 0 <= i < |init| && delivered(i) && Candidate(init[i], policy, now, parseIso).Some? &&
        before[k] == NoticeLine(init[i].mail, Candidate(init[i], policy, now, parseIso).value);
      assert entries[i] == init[i];
    } else {
      assert delivered(n) && Candidate(entries[n], policy, now, parseIso).Some?;
    }
  }

  /** A run where every warning is delivered lists every warned entry. */
  lemma {:induction false} AllDelivered(entries: seq<JobEntry>, policy: int, now: Instant,
                                        parseIso: string -> Option<Instant>, delivered: nat -> bool)
    requires forall i :: 0 <= i < |entries| ==> delivered(i)
    ensures |Lines(entries, policy, now, parseIso, delivered)| == |Warnings(entries, policy, now, parseIso)|
  {
    if entries != [] {
      AllDelivered(entries[..|entries| - 1], policy, now, parseIso, delivered);
    }
  }

  /** An entry is never warned unless its account control is exactly 512:
      a disabled account (514) or one whose password never expires (66048)
      gets nothing. */
  lemma OnlyNormalAccounts(e: JobEntry, policy: int, now: Instant, parseIso: string -> Option<Instant>)
    requires e.uac != Some(NormalAccount)
    ensures Candidate(e, policy, now, parseIso).None?
  {
  }

  /** A password that expires in exactly 30 days is warned; at the expiry
      instant itself (0 days left) it is not. */
  lemma WarningWindow(mail: string, last: Instant, policy: int, now: Instant, parseIso: string -> Option<Instant>)
    requires 0 < policy <= MaxTimedeltaDays && AddDays(last, policy).Some?
    ensures var e := JobEntry(mail, PwdTime(last), Some(NormalAccount));
      (AddDays(last, policy).value == now + 30 * MicrosPerDay ==> Candidate(e, policy, now, parseIso) == Some(30)) &&
      (AddDays(last, policy).value == now ==> Candidate(e, policy, now, parseIso).None?)
  {
    DaysBetweenWhole(now, 30);
    DaysAtExpiry(now);
  }

  /** `"Listado de usuarios notificados ({}):\n\n{}".format(count, '\n'.join(lines))`. */
  function SummaryText(count: nat, lines: seq<string>): string {
    "Listado de usuarios notificados (" + NatToString(count) + "):\n\n" + Join(lines, "\n")
  }

  function SummarySubject(count: nat): string {
    "Usuarios con contraseña próxima a expirar: " + NatToString(count)
  }

  /** One summary per comma-separated part of `ADMIN_EMAILS`, stripped; a
      blank part is not dropped. */
  function AdminMails(parts: seq<string>, count: nat, text: string): (r: seq<Sent>)
    ensures |r| == |parts|
    ensures forall k :: 0 <= k < |parts| ==> r[k] == AdminSummary(PyStrip(parts[k]), SummarySubject(count), text)
  {
    seq(|parts|, k requires 0 <= k < |parts| => AdminSummary(PyStrip(parts[k]), SummarySubject(count), text))
  }

  /** The loop over the search results: a warning per candidate; a line and
      one more in the count per delivered warning. */
  method NotifyEntries(entries: seq<JobEntry>, policy: int, now: Instant,
                       parseIso: string -> Option<Instant>, delivered: nat -> bool)
    returns (lines: seq<string>, count: nat, sent: seq<Sent>)
    ensures lines == Lines(entries, policy, now, parseIso, delivered)
    ensures sent == Warnings(entries, policy, now, parseIso)
    ensures count == |lines|
  {
    lines, count, sent := [], 0, [];
    var i := 0;
    while i < |entries|
      invariant 0 <= i <= |entries|
      invariant lines == Lines(entries[..i], policy, now, parseIso, delivered)
      invariant sent == Warnings(entries[..i], policy, now, parseIso)
      invariant count == |lines|
    {
      var e := entries[i];
      assert entries[..i + 1][..i] == entries[..i];
      assert entries[..i + 1][i] == e;
      match Candidate(e, policy, now, parseIso) {
        case None =>
        case Some(d) =>
          sent := sent + [UserWarning(e.mail, d)];
          if delivered(i) {
            lines := lines + [NoticeLine(e.mail, d)];
            count := count + 1;
          }
      }
      i := i + 1;
    }
    assert entries[..i] == entries;
  }

  /** `Command.handle` at `now`: the policy (default 90 days) and the
      administrators' list are read before the directory is searched; a
      malformed policy or an unset list fails the run before any mail. The
      summary goes out only when some warning was delivered. */
  method Handle(env: JobEnv, dir: JobDirectory, now: Instant,
                parseIso: string -> Option<Instant>, delivered: nat -> bool)
    returns (outcome: Outcome, sent: seq<Sent>)
    ensures PolicyDays(env.policy, 90).None? ==>
      outcome == Unexpected("invalid literal for int() with base 10: '" + env.policy.value + "'") && sent == []
    ensures PolicyDays(env.policy, 90).Some? && env.adminEmails.None? ==>
      outcome == Unexpected("'NoneType' object has no attribute 'split'") && sent == []
    ensures PolicyDays(env.policy, 90).Some? && env.adminEmails.Some? && dir.fault.Some? ==>
      sent == [] &&
      outcome == (if dir.fault.value.OtherFault? then Unexpected(dir.fault.value.detail) else LdapFailed(dir.fault.value.detail))
    ensures outcome.Completed? <==> PolicyDays(env.policy, 90).Some? && env.adminEmails.Some? && dir.fault.None?
    ensures outcome.Completed? ==>
      var policy := PolicyDays(env.policy, 90).value;
      var lines := Lines(dir.entries, policy, now, parseIso, delivered);
      outcome.count == |lines| &&
      sent == Warnings(dir.entries, policy, now, parseIso) +
        (if lines == [] then []
         else AdminMails(Split(env.adminEmails.value, ','), |lines|, SummaryText(|lines|, lines)))
  {
    var policy := PolicyDays(env.policy, 90);
    if policy.None? {
      return Unexpected("invalid literal for int() with base 10: '" + env.policy.value + "'"), [];
    }
    if env.adminEmails.None? {
      return Unexpected("'NoneType' object has no attribute 'split'"), [];
    }
    if dir.fault.Some? {
      var f := dir.fault.value;
      return (if f.OtherFault? then Unexpected(f.detail) else LdapFailed(f.detail)), [];
    }
    var lines, count, warnings := NotifyEntries(dir.entries, policy.value, now, parseIso, delivered);
    sent := warnings;
    if lines != [] {
      var summary := SummaryText(count, lines);
      sent := sent + AdminMails(Split(env.adminEmails.value, ','), count, summary);
    }
    outcome := Completed(count);
  }

  /** No administrator mail is sent in a run where nothing was delivered. */
  lemma NoSummaryWithoutNotices(entries: seq<JobEntry>, policy: int, now: Instant,
                                parseIso: string -> Option<Instant>)
    ensures Lines(entries, policy, now, parseIso, (i: nat) => false) == []
    decreases |entries|
  {
    if entries != [] {
      NoSummaryWithoutNotices(entries[..|entries| - 1], policy, now, parseIso);
    }
  }
}
