/** The browser side of the services page: the uptime formatter, the CSRF
    cookie reader, and the toggle that starts and stops the bot while a
    five-second poll tracks its status. Network replies, the clock and
    `decodeURIComponent` are parameters; the page state is a class. */
module ServicesPanel {
  import opened Common

  // ---------------------------------------------------------------------
  // formatUptime
  // ---------------------------------------------------------------------

  const SecondsPerDay := 86400
  const SecondsPerMonth := 2592000
  const SecondsPerYear := 31536000

  /** The six displayed fields. */
  datatype Fields = Fields(years: nat, months: nat, days: nat, hours: nat, mins: nat, secs: nat)

  /** `nY, nM, nd, HH:MM:SS`, listing only the non-zero leading parts. */
  function Render(f: Fields): string {
    var parts :=
      (if f.years > 0 then [NatToString(f.years) + "Y"] else []) +
      (if f.months > 0 then [NatToString(f.months) + "M"] else []) +
      (if f.days > 0 then [NatToString(f.days) + "d"] else []);
    var time := Pad2(f.hours) + ":" + Pad2(f.mins) + ":" + Pad2(f.secs);
    if parts != [] then Join(parts, ", ") + ", " + time else time
  }

  /** The fields as `formatUptime` computes them: each one from the total,
      days modulo 30 and months modulo 12 on their own. */
  function WrittenFields(t: nat): Fields {
    Fields(t / SecondsPerYear, (t / SecondsPerMonth) % 12, (t / SecondsPerDay) % 30,
           (t / 3600) % 24, (t / 60) % 60, t % 60)
  }

  /** `formatUptime(totalSeconds)` as written. */
  function FormatUptime(t: int): string {
    if t < 0 then "00:00:00" else Render(WrittenFields(t))
  }

  /** The fields as remainders of one another: months and days are counted
      within the current year, so nothing is dropped. */
  function FixedFields(t: nat): (f: Fields)
    ensures f.months <= 12 && f.days < 30 && f.hours < 24 && f.mins < 60 && f.secs < 60
  {
    var r := t % SecondsPerYear;
    Fields(t / SecondsPerYear, r / SecondsPerMonth, r % SecondsPerMonth / SecondsPerDay,
           r % SecondsPerDay / 3600, r % 3600 / 60, r % 60)
  }

  /** The corrected formatter the uptime display uses. */
  function FormatUptimeFixed(t: int): string {
    if t < 0 then "00:00:00" else Render(FixedFields(t))
  }

  function Seconds(f: Fields): int {
    f.years * SecondsPerYear + f.months * SecondsPerMonth + f.days * SecondsPerDay +
    f.hours * 3600 + f.mins * 60 + f.secs
  }

  lemma RenderZero()
    ensures Render(Fields(0, 0, 0, 0, 0, 0)) == "00:00:00"
  {
  }

  /** 360 days of uptime: 12 months modulo 12 and 360 days modulo 30 are
      both 0 and a year has not passed, so the display reads like a fresh
      start. */
  lemma UptimeCollision()
    ensures WrittenFields(31104000) == WrittenFields(0)
    ensures FormatUptime(31104000) == FormatUptime(0) == "00:00:00"
  {
    var zero := Fields(0, 0, 0, 0, 0, 0);
    assert WrittenFields(31104000) == zero by {
      assert 31104000 / SecondsPerMonth == 12;
      assert 31104000 / SecondsPerDay == 360;
      assert 31104000 / 3600 == 8640;
      assert 31104000 / 60 == 518400;
    }
    assert WrittenFields(0) == zero;
    RenderZero();
  }

  // A month is 30 days, a day 24 hours and an hour 60 minutes, so each
  // remainder of a remainder is the remainder by the smaller unit.
  lemma ModMonthDay(r: int)
    ensures r % SecondsPerMonth % SecondsPerDay == r % SecondsPerDay
  {
    var q := r / SecondsPerMonth;
    assert r % SecondsPerMonth == r - (30 * q) * SecondsPerDay;
  }

  lemma ModDayHour(r: int)
    ensures r % SecondsPerDay % 3600 == r % 3600
  {
    var q := r / SecondsPerDay;
    assert r % SecondsPerDay == r - (24 * q) * 3600;
  }

  lemma ModHourMinute(r: int)
    ensures r % 3600 % 60 == r % 60
  {
    var q := r / 3600;
    assert r % 3600 == r - (60 * q) * 60;
  }

  /** The corrected fields give back the total: every second is shown. */
  lemma FixedFieldsLossless(t: nat)
    ensures Seconds(FixedFields(t)) == t
  {
    var r := t % SecondsPerYear;
    var a := r % SecondsPerMonth;
    var b := r % SecondsPerDay;
    var c := r % 3600;
    ModMonthDay(r);
    ModDayHour(r);
    ModHourMinute(r);
    assert r == r / SecondsPerMonth * SecondsPerMonth + a;
    assert a == a / SecondsPerDay * SecondsPerDay + b;
    assert b == b / 3600 * 3600 + c;
    assert c == c / 60 * 60 + r % 60;
    assert t == t / SecondsPerYear * SecondsPerYear + r;
  }

  /** So two different uptimes never get the same corrected fields. */
  lemma FixedFieldsInjective(t1: nat, t2: nat)
    requires FixedFields(t1) == FixedFields(t2)
    ensures t1 == t2
  {
    FixedFieldsLossless(t1);
    FixedFieldsLossless(t2);
  }

  /** The 360-day uptime that the written formatter hides. */
  lemma FixedShowsMonths()
    ensures FixedFields(31104000) == Fields(0, 12, 0, 0, 0, 0)
    ensures FormatUptimeFixed(31104000) == "12M, 00:00:00"
  {
    assert NatToString(12) == "12" by {
      assert NatToString(1) == "1";
    }
  }

  /** `updateUptime()`: elapsed seconds as the page shows them, through the
      formatter as written; the counter runs only while the bot runs with a
      known start time. */
  function UptimeText(botRunning: bool, startTime: Option<int>, now: int): string {
    if botRunning && Truthy(startTime) then FormatUptime(now - startTime.value) else "--:--:--"
  }

  /** The same display through the corrected formatter. */
  function UptimeTextFixed(botRunning: bool, startTime: Option<int>, now: int): string {
    if botRunning && Truthy(startTime) then FormatUptimeFixed(now - startTime.value) else "--:--:--"
  }

  /** Every rendering ends with the seconds' last digit. */
  lemma RenderEndsInDigit(f: Fields)
    ensures var r := Render(f); |r| > 0 && IsDigit(r[|r| - 1])
  {
    NatToStringDigits(f.secs);
    var d := NatToString(f.secs);
    var p := Pad2(f.secs);
    assert p[|p| - 1] == d[|d| - 1];
  }

  /** The placeholder `--:--:--` is shown exactly when the counter is
      stopped: a running counter always ends in a digit. */
  lemma UptimePlaceholder(botRunning: bool, startTime: Option<int>, now: int)
    ensures UptimeText(botRunning, startTime, now) == "--:--:--" <==> !(botRunning && Truthy(startTime))
    ensures UptimeTextFixed(botRunning, startTime, now) == "--:--:--" <==> !(botRunning && Truthy(startTime))
  {
    if botRunning && Truthy(startTime) {
      var t := now - startTime.value;
      FormatEndsInDigit(t);
      NotPlaceholder(FormatUptime(t));
      NotPlaceholder(FormatUptimeFixed(t));
    }
  }

  lemma NotPlaceholder(r: string)
    requires |r| > 0 && IsDigit(r[|r| - 1])
    ensures r != "--:--:--"
  {
    var p := "--:--:--";
    assert p[|p| - 1] == '-' && !IsDigit('-');
  }

  lemma FormatEndsInDigit(t: int)
    ensures var r := FormatUptime(t); |r| > 0 && IsDigit(r[|r| - 1])
    ensures var r := FormatUptimeFixed(t); |r| > 0 && IsDigit(r[|r| - 1])
  {
    if t >= 0 {
      RenderEndsInDigit(WrittenFields(t));
      RenderEndsInDigit(FixedFields(t));
    }
  }

  // ---------------------------------------------------------------------
  // getCSRFToken
  // ---------------------------------------------------------------------

  const TokenPrefix := "csrftoken="

  /** `decodeURIComponent` either gives text or throws `URIError`. */
  datatype Token = NoToken | TokenValue(value: string) | DecodeFailed

  predicate IsTokenCookie(c: string) {
    StartsWith(JsTrim(c), TokenPrefix)
  }

  /** What follows `csrftoken=` in a trimmed token cookie. */
  function TokenText(c: string): string
    requires IsTokenCookie(c)
  {
    JsTrim(c)[|TokenPrefix|..]
  }

  /** The first position holding `true`. */
  function FirstTrue(flags: seq<bool>): (r: Option<nat>)
    ensures r.Some? ==> r.value < |flags| && flags[r.value]
    ensures r.Some? ==> forall j :: 0 <= j < r.value ==> !flags[j]
    ensures r.None? ==> forall j :: 0 <= j < |flags| ==> !flags[j]
  {
    if flags == [] then None
    else if flags[0] then Some(0)
    else match FirstTrue(flags[1..])
      case None => None
      case Some(i) => Some(i + 1)
  }

  lemma FirstTrueAt(flags: seq<bool>, i: nat)
    requires i < |flags| && flags[i]
    requires forall j :: 0 <= j < i ==> !flags[j]
    ensures FirstTrue(flags) == Some(i)
  {
  }

  lemma FirstTrueNone(flags: seq<bool>)
    requires forall j :: 0 <= j < |flags| ==> !flags[j]
    ensures FirstTrue(flags) == None
  {
  }

  /** Which cookies, once trimmed, start with `csrftoken=`. */
  function Marks(cookies: seq<string>): (m: seq<bool>)
    ensures |m| == |cookies|
    ensures forall i :: 0 <= i < |cookies| ==> m[i] == IsTokenCookie(cookies[i])
  {
    seq(|cookies|, i requires 0 <= i < |cookies| => IsTokenCookie(cookies[i]))
  }

  /** The value of the first `csrftoken` cookie, decoded. */
  function FirstToken(cookies: seq<string>, decode: string -> Option<string>): Token {
    match FirstTrue(Marks(cookies))
    case None => NoToken
    case Some(i) => Decoded(decode(TokenText(cookies[i])))
  }

  function Decoded(d: Option<string>): Token {
    match d case None => DecodeFailed case Some(v) => TokenValue(v)
  }

  /** The token comes from the first cookie that, trimmed, starts with
      `csrftoken=`, whatever the later cookies hold. */
  lemma FirstTokenAt(cookies: seq<string>, decode: string -> Option<string>, i: nat)
    requires i < |cookies| && IsTokenCookie(cookies[i])
    requires forall j :: 0 <= j < i ==> !IsTokenCookie(cookies[j])
    ensures FirstToken(cookies, decode) == Decoded(decode(TokenText(cookies[i])))
  {
    FirstTrueAt(Marks(cookies), i);
  }

  /** There is no token exactly when no cookie is a token cookie. */
  lemma FirstTokenAbsent(cookies: seq<string>, decode: string -> Option<string>)
    ensures FirstToken(cookies, decode) == NoToken <==>
            forall j :: 0 <= j < |cookies| ==> !IsTokenCookie(cookies[j])
  {
    var marks := Marks(cookies);
    if forall j :: 0 <= j < |cookies| ==> !IsTokenCookie(cookies[j]) {
      FirstTrueNone(marks);
    }
  }

  /** One turn of that loop: the cookie is trimmed and, when it starts
      with `csrftoken=`, what follows is its value. */
  method MatchCookie(cookie: string) returns (found: bool, value: string)
    ensures found == IsTokenCookie(cookie)
    ensures found ==> value == TokenText(cookie)
  {
    var c := JsTrim(cookie);
    found := StartsWith(c, TokenPrefix);
    value := if found then c[|TokenPrefix|..] else "";
  }

  /** The `for` loop of `getCSRFToken()` over the `;`-separated cookies:
      it stops at the first one that, trimmed, starts with `csrftoken=`. */
  method ScanCookies(cookies: seq<string>, decode: string -> Option<string>) returns (r: Token)
    ensures r == FirstToken(cookies, decode)
  {
    var i := 0;
    while i < |cookies|
      invariant 0 <= i <= |cookies|
      invariant forall j :: 0 <= j < i ==> !IsTokenCookie(cookies[j])
    {
      var found, value := MatchCookie(cookies[i]);
      if found {
        FirstTokenAt(cookies, decode, i);
        return Decoded(decode(value));
      }
      i := i + 1;
    }
    FirstTokenAbsent(cookies, decode);
    return NoToken;
  }

  /** `getCSRFToken()` over `document.cookie`: an empty cookie string has
      no token. */
  method GetCsrfToken(cookie: string, decode: string -> Option<string>) returns (r: Token)
    ensures cookie == "" ==> r == NoToken
    ensures cookie != "" ==> r == FirstToken(Split(cookie, ';'), decode)
  {
    r := NoToken;
    if cookie != "" {
      r := ScanCookies(Split(cookie, ';'), decode);
    }
  }

  // ---------------------------------------------------------------------
  // The status toggle
  // ---------------------------------------------------------------------

  /** JavaScript truthiness of a start time: `null` and `0` are false. */
  predicate Truthy(t: Option<int>) {
    t.Some? && t.value != 0
  }

  /** What the toggle container shows. */
  datatype View = Spinner | Toggle(checked: bool)

  /** The notifications the page shows. */
  datatype Notice =
    | BotStopped | BotStarted | BotRestarted
    | StartAccepted | StartRefused(message: string)
    | StopAccepted | StopRefused(message: string)
    | ConnectionError

  function NoticeText(n: Notice): string {
    match n
    case BotStopped => "🔴 El bot ha sido <strong>detenido</strong>."
    case BotStarted => "🟢 El bot ha sido <strong>iniciado</strong>."
    case BotRestarted => "🔄 El bot ha sido <strong>reiniciado</strong>."
    case StartAccepted => "🚀 Bot <strong>iniciado</strong>."
    case StartRefused(m) => "❌ Error al iniciar: " + m
    case StopAccepted => "🛑 Bot <strong>detenido</strong>."
    case StopRefused(m) => "❌ Error al detener: " + m
    case ConnectionError => "⚠️ Error de conexión."
  }

  /** A reply of the status, start or stop endpoint: a failed request (an
      HTTP error or no JSON), a reply whose status is not `success`, or a
      success carrying the bot's state. */
  datatype Reply = RequestFailed | Refused(message: string) | Succeeded(running: bool, startTime: Option<int>)

  /** The notices added by a status change from `last` to `now`. */
  function ChangeNotices(last: bool, now: bool, processing: bool, oldStart: Option<int>, newStart: Option<int>): seq<Notice> {
    (if last && !now && processing then [BotStopped] else []) +
    (if !last && now then [BotStarted] else []) +
    (if now && Truthy(oldStart) && Truthy(newStart) && newStart != oldStart then [BotRestarted] else [])
  }

  class StatusPanel {
    var botRunning: bool
    var startTime: Option<int>
    var lastKnownRunning: Option<bool>
    var isProcessing: bool
    var view: View
    var counting: bool
    var modalOpen: bool
    var notices: seq<Notice>

    /** The page as loaded. */
    constructor ()
      ensures !botRunning && startTime.None? && lastKnownRunning.None? && !isProcessing
      ensures !counting && !modalOpen && notices == []
    {
      botRunning, startTime, lastKnownRunning, isProcessing := false, None, None, false;
      view, counting, modalOpen, notices := Spinner, false, false, [];
    }

    /** `handleStatusChange(newState, newStartTime)`: the first call only
        records the state; later calls notify the transition, release the
        guard and the toggle when the bot stopped while a start request held
        the guard (only `startTelegram` sets it), and record the new state and
        start time. */
    method HandleStatusChange(newState: bool, newStart: Option<int>)
      modifies this
      ensures botRunning == old(botRunning) && modalOpen == old(modalOpen)
      ensures lastKnownRunning == Some(newState)
      ensures old(lastKnownRunning).None? ==>
        startTime == old(startTime) && isProcessing == old(isProcessing) &&
        view == old(view) && counting == old(counting) && notices == old(notices)
      ensures old(lastKnownRunning).Some? ==>
        var released := old(lastKnownRunning).value && !newState && old(isProcessing);
        startTime == newStart &&
        isProcessing == (old(isProcessing) && !released) &&
        view == (if released then Toggle(false) else old(view)) &&
        counting == (old(counting) && !released) &&
        notices == old(notices) + ChangeNotices(old(lastKnownRunning).value, newState, old(isProcessing), old(startTime), newStart)
    {
      if lastKnownRunning.None? {
        lastKnownRunning := Some(newState);
        return;
      }
      var last := lastKnownRunning.value;
      var added: seq<Notice> := [];
      if last && !newState {
        if isProcessing {
          added := added + [BotStopped];
          view := Toggle(false);
          counting := false;
          isProcessing := false;
        }
      } else if !last && newState {
        added := added + [BotStarted];
      }
      if newState && Truthy(startTime) && Truthy(newStart) && newStart != startTime {
        added := added + [BotRestarted];
      }
      notices := notices + added;
      startTime := newStart;
      lastKnownRunning := Some(newState);
    }

    /** The guard at the top of `getTelegramStatus`: no request is made
        while a start is in progress. */
    method PollRequest() returns (sent: bool)
      ensures sent == !isProcessing
    {
      sent := !isProcessing;
    }

    /** The rest of `getTelegramStatus`, once the status reply arrives: the
        new state and start time are stored before `handleStatusChange`
        sees them, so it compares the new start time with itself and the
        restart notice can never appear. The toggle is redrawn when the
        state or the start time changed, after `handleStatusChange` may have
        released it. A start time is `null` or a number: JavaScript's
        `undefined`, which `!==` tells apart from `null`, is not modelled. */
    method PollResponse(reply: Reply)
      modifies this
      ensures !reply.Succeeded? ==> unchanged(this)
      ensures reply.Succeeded? ==>
        var released := old(lastKnownRunning) == Some(true) && !reply.running && old(isProcessing);
        var changed := old(botRunning) != reply.running || reply.startTime != old(startTime);
        && botRunning == reply.running && startTime == reply.startTime
        && lastKnownRunning == Some(reply.running)
        && counting == (reply.running && Truthy(reply.startTime))
        && isProcessing == (old(isProcessing) && !released)
        && modalOpen == old(modalOpen)
        && view == (if changed then Toggle(reply.running) else if released then Toggle(false) else old(view))
        && notices == old(notices) + (if old(lastKnownRunning).None? then []
             else ChangeNotices(old(lastKnownRunning).value, reply.running, old(isProcessing), reply.startTime, reply.startTime))
      ensures reply.Succeeded? ==>
        |notices| >= |old(notices)| && notices[..|old(notices)|] == old(notices) &&
        BotRestarted !in notices[|old(notices)|..]
    {
      if !reply.Succeeded? {
        return;
      }
      var wasRunning := botRunning;
      var oldStart := startTime;
      botRunning := reply.running;
      startTime := reply.startTime;
      HandleStatusChange(botRunning, startTime);
      if wasRunning != botRunning || startTime != oldStart {
        view := Toggle(botRunning);
      }
      counting := botRunning && Truthy(startTime);
    }

    /** The status reply handled with the previous start time still in
        place: a changed start time of a running bot is reported as a
        restart. */
    method PollResponseFixed(reply: Reply)
      modifies this
      ensures !reply.Succeeded? ==> unchanged(this)
      ensures reply.Succeeded? ==>
        var released := old(lastKnownRunning) == Some(true) && !reply.running && old(isProcessing);
        var changed := old(botRunning) != reply.running || reply.startTime != old(startTime);
        && botRunning == reply.running && startTime == reply.startTime
        && lastKnownRunning == Some(reply.running)
        && counting == (reply.running && Truthy(reply.startTime))
        && isProcessing == (old(isProcessing) && !released)
        && modalOpen == old(modalOpen)
        && view == (if changed then Toggle(reply.running) else if released then Toggle(false) else old(view))
        && notices == old(notices) + (if old(lastKnownRunning).None? then []
             else ChangeNotices(old(lastKnownRunning).value, reply.running, old(isProcessing), old(startTime), reply.startTime))
      ensures reply.Succeeded? ==>
        |notices| >= |old(notices)| && notices[..|old(notices)|] == old(notices) &&
        (BotRestarted in notices[|old(notices)|..] <==>
          old(lastKnownRunning).Some? && reply.running && Truthy(old(startTime)) &&
          Truthy(reply.startTime) && reply.startTime != old(startTime))
    {
      if !reply.Succeeded? {
        return;
      }
      var wasRunning := botRunning;
      var oldStart := startTime;
      botRunning := reply.running;
      HandleStatusChange(reply.running, reply.startTime);
      startTime := reply.startTime;
      if wasRunning != botRunning || startTime != oldStart {
        view := Toggle(botRunning);
      }
      counting := botRunning && Truthy(startTime);
    }

    /** The start of `startTelegram`, up to the request: ignored while
        another start is in progress, otherwise it takes the guard and
        shows the spinner. */
    method StartRequest() returns (sent: bool)
      modifies this
      ensures sent == !old(isProcessing)
      ensures !sent ==> unchanged(this)
      ensures sent ==> isProcessing && view == Spinner
      ensures botRunning == old(botRunning) && startTime == old(startTime) && notices == old(notices)
      ensures lastKnownRunning == old(lastKnownRunning) && counting == old(counting) && modalOpen == old(modalOpen)
    {
      if isProcessing {
        return false;
      }
      isProcessing := true;
      view := Spinner;
      return true;
    }

    /** The rest of `startTelegram`, once the reply arrives at `now`
        seconds: the `finally` releases the guard on every path. */
    method StartResponse(reply: Reply, now: int)
      modifies this
      ensures !isProcessing
      ensures lastKnownRunning == old(lastKnownRunning) && modalOpen == old(modalOpen)
      ensures reply.Succeeded? ==>
        botRunning && startTime == (if Truthy(reply.startTime) then reply.startTime else Some(now)) &&
        counting && view == Toggle(true) && notices == old(notices) + [StartAccepted]
      ensures reply.Refused? ==>
        botRunning == old(botRunning) && startTime == old(startTime) && counting == old(counting) &&
        view == Toggle(false) && notices == old(notices) + [StartRefused(reply.message)]
      ensures reply.RequestFailed? ==>
        botRunning == old(botRunning) && startTime == old(startTime) && counting == old(counting) &&
        view == Toggle(false) && notices == old(notices) + [ConnectionError]
    {
      match reply {
        case Succeeded(_, st) =>
          botRunning := true;
          startTime := if Truthy(st) then st else Some(now);
          counting := true;
          view := Toggle(true);
          notices := notices + [StartAccepted];
        case Refused(m) =>
          view := Toggle(false);
          notices := notices + [StartRefused(m)];
        case RequestFailed =>
          view := Toggle(false);
          notices := notices + [ConnectionError];
      }
      isProcessing := false;
    }

    /** `stopTelegram()`, confirmed in the dialog: it never takes or releases
        the guard. A refused or failed stop puts the toggle back on and
        restarts the counter; an accepted one leaves the spinner until the
        next poll. */
    method StopTelegram(reply: Reply)
      modifies this
      ensures isProcessing == old(isProcessing) && !modalOpen
      ensures startTime == old(startTime) && lastKnownRunning == old(lastKnownRunning)
      ensures reply.Succeeded? ==>
        !botRunning && view == Spinner && counting == old(counting) && notices == old(notices) + [StopAccepted]
      ensures reply.Refused? ==>
        botRunning && counting && view == Toggle(true) && notices == old(notices) + [StopRefused(reply.message)]
      ensures reply.RequestFailed? ==>
        botRunning && counting && view == Toggle(true) && notices == old(notices) + [ConnectionError]
    {
      modalOpen := false;
      view := Spinner;
      match reply {
        case Succeeded(_, _) =>
          botRunning := false;
          notices := notices + [StopAccepted];
        case Refused(m) =>
          botRunning := true;
          counting := true;
          view := Toggle(true);
          notices := notices + [StopRefused(m)];
        case RequestFailed =>
          botRunning := true;
          counting := true;
          notices := notices + [ConnectionError];
          view := Toggle(true);
      }
    }

    /** The toggle's change handler: while a start is in progress it only
        puts the toggle back to the known state; otherwise switching on
        starts the bot and switching off opens the confirmation dialog. */
    method OnToggle(checked: bool) returns (startSent: bool)
      modifies this
      ensures old(isProcessing) ==>
        !startSent && view == Toggle(old(botRunning)) && isProcessing &&
        botRunning == old(botRunning) && startTime == old(startTime) && notices == old(notices) &&
        modalOpen == old(modalOpen) && counting == old(counting) && lastKnownRunning == old(lastKnownRunning)
      ensures !old(isProcessing) && checked ==> startSent && isProcessing && view == Spinner && modalOpen == old(modalOpen)
      ensures !old(isProcessing) && !checked ==> !startSent && !isProcessing && view == Spinner && modalOpen
      ensures botRunning == old(botRunning) && startTime == old(startTime) && notices == old(notices)
    {
      if isProcessing {
        view := Toggle(botRunning);
        return false;
      }
      if checked {
        startSent := StartRequest();
      } else {
        view := Spinner;
        modalOpen := true;
        startSent := false;
      }
    }

    /** Dismissing the dialog puts the toggle back on. */
    method CancelStop()
      modifies this
      ensures !modalOpen && view == Toggle(true)
      ensures botRunning == old(botRunning) && isProcessing == old(isProcessing) && notices == old(notices)
      ensures startTime == old(startTime) && counting == old(counting) && lastKnownRunning == old(lastKnownRunning)
    {
      modalOpen := false;
      view := Toggle(true);
    }
  }
}
