/** The conversation engine of the Telegram bot: the step handlers of the
    three conversations (changing one's own password, an administrator
    changing another user's password, an administrator checking another
    user's expiry) and the stand-alone handlers around them (`/start`, a
    shared contact, the own expiry check, closing the session).

    Each handler is one step. It reads the incoming text and the
    environment of that moment, updates the conversation's state, the
    chat's scratch map (`context.user_data`, which holds the typed password
    between two steps) and the sessions table, and returns what it sent and
    called, in order, as a sequence of effects. Both copies of the engine
    (`telegram_bot/handlers.py` and the older `bot_handler/bot_handler.py`)
    share every handler here except the confirmation of one's own new
    password, which the two copies write differently. */
module Engine {
  import opened Common
  import opened Chrono
  import opened Markdown
  import opened EmailSyntax
  import opened BotText
  import opened AdOperations
  import opened Sessions
  import opened UsersDb

  // ---------------------------------------------------------------------
  // States, scratch keys, notices and effects
  // ---------------------------------------------------------------------

  /** `ConversationHandler.END` and the states of the three conversations. */
  const End := -1
  const GetEmail := 1
  const GetNewPassword := 2
  const GetPasswordConfirmation := 3
  const GetUserEmail := 10
  const GetUserNewPassword := 11
  const GetUserPasswordConfirmation := 12

  /** The three conversation handlers; each keeps its own state per chat. */
  datatype Conversation = ChangeOwn | ChangeOther | CheckOther

  /** A handler's return value: a state, or Python's `None`, which starts
      nothing and leaves the conversation where it was. */
  datatype Next = Stay | Goto(state: int)

  const NewPasswordKey := "new_password"
  const TargetEmailKey := "target_email"
  const TargetPasswordKey := "target_new_password"

  /** The messages the handlers send. The wording differs between the two
      copies and, in the newer one, may come from the message catalogue;
      the notice names the message, and carries the values it shows. */
  datatype Notice =
    | NoSession | SessionTimedOut
    | SessionClosed | NoSessionToClose
    | AskContact(greeting: Greeting, firstName: string)
    | ContactMismatch | UnknownPhone | AccountDisabled | AuthFailed
    | Welcome(name: string, mail: string)
    | AskNewPassword | AskConfirmation | ProcessingError
    | NoInitialPassword | PasswordsDiffer | NoSessionEmail
    | Changed | ChangedForUser | ChangeFailed(text: string) | ConfirmationError
    | AdminOnly | InternalError
    | AskTargetEmail | InvalidEmail | ChangeFor(email: string) | AskTargetConfirmation
    | InsufficientData
    | AskFullEmail | AskValidEmail | Processing(email: string) | RequestFailed
    | VerifyFailed(text: string)
    | Cancelled

  /** What a step does outside the chat's own state, in order. */
  datatype Effect =
    | Send(notice: Notice)
      /** A MarkdownV2 message. */
    | SendMarkdown(text: string)
      /** A message with an inline keyboard, given by its callback data. */
    | SendMenu(menu: Notice, rows: seq<seq<string>>)
      /** The user's message holding a password is deleted. */
    | DeleteIncoming
      /** `cambiar_password_usuario(email, password)`. */
    | CallChange(email: string, password: string)
      /** `notificar_cambio_contrasena_usuario(to, password)`. */
    | MailUser(to: string, password: string)
      /** `notificar_cambio_contrasena_admin(admins, about)`. */
    | MailAdmins(admins: seq<string>, about: string)

  /** Everything a step reads besides the chat's state: the clock and its
      hour, the directory and its configuration (`AD_USE_SSL`, `AD_GROUP`,
      `AD_PASSWORD_POLICY_DAYS`), `ADMIN_EMAILS`, `SESSION_DURATION`, and
      whether the database raises or deleting the incoming message fails. */
  datatype Env = Env(
    now: Instant,
    hour: int,
    dir: Directory,
    useSsl: bool,
    groupDn: Option<string>,
    policyEnv: Option<string>,
    adminEmails: string,
    duration: int,
    dbFault: bool,
    deleteFails: bool)

  /** No call to `cambiar_password_usuario`. */
  predicate NoChangeCall(out: seq<Effect>) {
    forall i :: 0 <= i < |out| ==> !out[i].CallChange?
  }

  /** Every call to `cambiar_password_usuario` is with this address and
      password. */
  predicate ChangeCallsOnly(out: seq<Effect>, email: string, pw: string) {
    forall i :: 0 <= i < |out| && out[i].CallChange? ==> out[i] == CallChange(email, pw)
  }

  /** No mail is sent. */
  predicate NoMail(out: seq<Effect>) {
    forall i :: 0 <= i < |out| ==> !out[i].MailUser? && !out[i].MailAdmins?
  }

  /** The administrators' notice, when sent, goes to the configured list,
      names only the affected address, and never carries a password. */
  predicate AdminMailsAbout(out: seq<Effect>, admins: seq<string>, email: string) {
    forall i :: 0 <= i < |out| && out[i].MailAdmins? ==> out[i] == MailAdmins(admins, email)
  }

  /** Some administrators' notice is sent. */
  predicate AdminsMailed(out: seq<Effect>) {
    exists i :: 0 <= i < |out| && out[i].MailAdmins?
  }

  /** Some user's notice is sent. */
  predicate UserMailed(out: seq<Effect>) {
    exists i :: 0 <= i < |out| && out[i].MailUser?
  }

  /** What follows a matching confirmation, given the directory's answer:
      the call that changes the password, then on success the success
      notice and the mails, and on failure the failure notice showing the
      directory's message after `prefix`. */
  function ChangeEffects(result: ChangeResult, admins: seq<string>, email: string, pw: string, done: Notice, prefix: string): (r: seq<Effect>)
    ensures |r| >= 2 && r[0] == CallChange(email, pw) && ChangeCallsOnly(r, email, pw)
    ensures AdminMailsAbout(r, admins, email)
    ensures UserMailed(r) <==> result.success
    ensures AdminsMailed(r) <==> result.success && admins != []
    ensures forall i :: 0 < i < |r| ==> !r[i].CallChange?
    ensures result.success ==> |r| >= 3 && r[1] == Send(done) && r[2] == MailUser(email, pw)
    ensures !result.success ==> r == [CallChange(email, pw), Send(ChangeFailed(prefix + result.message))]
  {
    if !result.success then
      [CallChange(email, pw), Send(ChangeFailed(prefix + result.message))]
    else if admins == [] then
      var r := [CallChange(email, pw), Send(done), MailUser(email, pw)];
      assert r[2].MailUser?;
      r
    else
      var r := [CallChange(email, pw), Send(done), MailUser(email, pw), MailAdmins(admins, email)];
      assert r[2].MailUser? && r[3].MailAdmins?;
      r
  }

  // ---------------------------------------------------------------------
  // Pure parts shared by the handlers
  // ---------------------------------------------------------------------

  /** `not value` for a stored text: missing or empty. */
  predicate Held(scratch: map<string, string>, key: string) {
    key in scratch && scratch[key] != ""
  }

  /** The stripped confirmation equals a stored, non-empty password. */
  predicate Confirms(scratch: map<string, string>, key: string, text: string) {
    Held(scratch, key) && scratch[key] == PyStrip(text)
  }

  /** A session row with a usable e-mail. */
  predicate HasEmail(s: Session) {
    s.email.Some? && s.email.value != ""
  }

  /** The session row can be read, exists, and has an e-mail. */
  predicate AddressedRow(rows: map<string, Session>, key: string, dbFault: bool) {
    !dbFault && key in rows && HasEmail(rows[key])
  }

  /** What an f-string shows for the nullable e-mail. */
  function EmailText(e: Option<string>): string {
    match e
    case None => "None"
    case Some(m) => m
  }

  /** `contact.phone_number.lstrip('+')`. */
  function StripPlus(phone: string): (r: string)
    ensures |r| <= |phone| && r == phone[|phone| - |r|..]
    ensures r != [] ==> r[0] != '+'
    ensures forall k :: 0 <= k < |phone| - |r| ==> phone[k] == '+'
  {
    TrimStart(phone, c => c == '+')
  }

  const OwnRow := ["check_expiry", "change_password"]
  const AdminRow := ["check_user_expiry", "change_user_password"]
  const CloseRow := ["terminar_bot"]

  /** The inline keyboard after a successful authentication: the own
      actions first, the administrators' row only for group members, and
      the button that closes the session always last. */
  function Menu(member: bool): (rows: seq<seq<string>>)
    ensures |rows| >= 2 && rows[0] == OwnRow && rows[|rows| - 1] == CloseRow
    ensures AdminRow in rows <==> member
  {
    assert OwnRow != AdminRow && CloseRow != AdminRow by {
      assert OwnRow[0] != AdminRow[0];
    }
    [OwnRow] + (if member then [AdminRow] else []) + [CloseRow]
  }

  /** How a shared contact ends: refused with a notice, or admitted with
      the contact found and whether it belongs to the administrators'
      group. */
  datatype LoginOutcome = Refused(notice: Notice) | Admitted(contact: Contact, member: bool)

  /** The checks of `handle_contact` after the phone lookup, in order: the
      user must be found, active in the directory, and of a membership
      that can be determined. */
  function Login(found: Option<Contact>, env: Env): LoginOutcome {
    match found
    case None => Refused(UnknownPhone)
    case Some(c) =>
      if !IsUserActive(env.dir, c.mail) then Refused(AccountDisabled)
      else match CheckGroupMembership(env.dir, env.groupDn, c.mail)
        case Err(_) => Refused(AuthFailed)
        case Ok(member) => Admitted(c, member)
  }

  /** A user is admitted exactly when found, active and of known
      membership, and then with the contact found and its membership; the
      menu offers the administrators' row exactly to members. A refusal
      names the first check that failed. */
  lemma LoginAdmits(found: Option<Contact>, env: Env)
    ensures Login(found, env).Admitted? <==>
      found.Some? && IsUserActive(env.dir, found.value.mail) &&
      CheckGroupMembership(env.dir, env.groupDn, found.value.mail).Ok?
    ensures Login(found, env).Admitted? ==>
      && Login(found, env).contact == found.value
      && Login(found, env).member == CheckGroupMembership(env.dir, env.groupDn, found.value.mail).value
      && (AdminRow in Menu(Login(found, env).member) <==> Login(found, env).member)
    ensures found.None? ==> Login(found, env) == Refused(UnknownPhone)
    ensures found.Some? && !IsUserActive(env.dir, found.value.mail) ==> Login(found, env) == Refused(AccountDisabled)
  {
  }

  /** The report of a password past its expiry, showing how many days ago. */
  function ExpiredReport(email: string, days: int): string {
    "🔴 CONTRASEÑA EXPIRADA\n📧 Email: " + email + "\n🗓️ Expiró hace " + IntToString(-days) + " días"
  }

  /** The report of a password still valid. */
  function ValidReport(email: string, date: string, days: string): string {
    "🟢 CONTRASEÑA VIGENTE\n📧 Email: " + email + "\n🗓️ Expira: " + date + "\n⌛ Días restantes: " + days
  }

  /** The report built from an expiry record, or `None` when building it
      raises: the expired branch negates `days_remaining`, which `None`
      refuses with `TypeError`. */
  function Report(email: string, info: ExpiryInfo): Option<string> {
    if info.isExpired then
      match info.daysRemaining
      case None => None
      case Some(d) => Some(ExpiredReport(email, d))
    else
      Some(ValidReport(email, EmailText(info.expiryDate),
        match info.daysRemaining case None => "None" case Some(d) => IntToString(d)))
  }

  /** The report for a password that expires at `expiry`, read at `now`. */
  function ReportAt(email: string, expiry: Instant, now: Instant): string {
    var days := DaysBetween(expiry, now);
    if expiry < now then ExpiredReport(email, days)
    else ValidReport(email, FormatUtc(expiry), IntToString(days))
  }

  /** A record built from an expiry instant gives the report of that
      instant, and one holding an error gives none; the report sent is
      escaped and unescapes back to it. */
  lemma ReportOfRecord(dir: Directory, policyEnv: Option<string>, email: string, now: Instant, info: ExpiryInfo)
    requires info.email == email
    requires info.error.Some? <==> info.daysRemaining.None?
    requires info.expiryDate.Some? <==> info.daysRemaining.Some?
    requires info.error.Some? ==> info.isExpired
    requires info.daysRemaining.Some? ==> info.isExpired == (info.daysRemaining.value < 0)
    requires match ExpiryOf(dir, policyEnv, email)
      case Err(e) => info.error == Some(e)
      case Ok(expiry) =>
        info.expiryDate == Some(FormatUtc(expiry)) &&
        info.daysRemaining == Some(DaysBetween(expiry, now)) &&
        (info.isExpired <==> expiry < now)
    ensures ExpiryOf(dir, policyEnv, email).Err? <==> Report(email, info).None?
    ensures ExpiryOf(dir, policyEnv, email).Ok? ==>
      Report(email, info) == Some(ReportAt(email, ExpiryOf(dir, policyEnv, email).value, now))
    ensures Report(email, info).Some? ==>
      WellEscaped(Escape(Report(email, info).value)) &&
      Unescape(Escape(Report(email, info).value)) == Report(email, info).value
  {
    if Report(email, info).Some? {
      EscapeWellEscaped(Report(email, info).value);
      UnescapeEscape(Report(email, info).value);
    }
  }

  /** The report for `email`, or the exception that prevents it: the
      functional reading of `get_password_expiry` followed by the report. */
  function ReportResult(env: Env, email: string): Result<string, ExpiryError> {
    match ExpiryOf(env.dir, env.policyEnv, email)
    case Ok(expiry) => Ok(ReportAt(email, expiry, env.now))
    case Err(e) => Err(e)
  }

  /** Runs `get_password_expiry` and builds the report from the record it
      fills in: the same as the functional reading, and reported exactly
      when the record holds no error. */
  method BuildReport(env: Env, email: string) returns (r: Result<string, ExpiryError>)
    ensures r == ReportResult(env, email)
    ensures r.Ok? ==> Unescape(Escape(r.value)) == r.value && WellEscaped(Escape(r.value))
  {
    var info := GetPasswordExpiry(env.dir, env.policyEnv, email, env.now);
    ReportOfRecord(env.dir, env.policyEnv, email, env.now, info);
    match Report(email, info) {
      case None => r := Err(info.error.value);
      case Some(text) => r := Ok(text);
    }
  }

  /** The text of the exception `TypeError` raised by `-None`. */
  const NegateNoneText := "bad operand type for unary -: 'NoneType'"

  /** What `check_expiry` reports for a record holding an error: the
      error's text, re-raised; an empty text is falsy and is not re-raised,
      so the expired branch negates the missing `days_remaining` and the
      `TypeError` is reported instead. Either way the text is not empty. */
  function FailureText(e: ExpiryError): (r: string)
    ensures r != ""
    ensures ExpiryErrorText(e) != "" ==> r == ExpiryErrorText(e)
    ensures ExpiryErrorText(e) == "" ==> r == NegateNoneText
  {
    if ExpiryErrorText(e) != "" then ExpiryErrorText(e) else NegateNoneText
  }

  /** An expired report shows a positive number of days. */
  lemma ExpiredReportPositive(expiry: Instant, now: Instant)
    requires expiry < now
    ensures -DaysBetween(expiry, now) > 0
  {
    DaysBetweenNegative(expiry, now);
  }

  // ---------------------------------------------------------------------
  // The confirmation steps and the expiry answer, as values
  // ---------------------------------------------------------------------

  /** `cambiar_password_usuario` against the directory of the moment: the
      answer the handlers get for an address and a password. */
  function DirectoryCall(env: Env): (string, string) -> ChangeResult {
    (email, pw) => ChangePassword(env.dir, env.useSsl, email, pw).result
  }

  /** The outcome of one conversation step on the chat's own state: the
      handler's return value, the scratch after it, and what it did. */
  datatype Step = Step(next: Next, scratch: map<string, string>, out: seq<Effect>)

  /** A matching confirmation whose session row has an e-mail: the only
      case in which the directory is asked to change the password. */
  predicate OwnChangeReached(rows: map<string, Session>, key: string, scratch: map<string, string>, text: string, env: Env) {
    !env.deleteFails && Confirms(scratch, NewPasswordKey, text) && AddressedRow(rows, key, env.dbFault)
  }

  /** `process_password_confirmation` as `telegram_bot/handlers.py` writes
      it, reading the session row of the chat (`key`). A failed deletion,
      a missing session row and a database error are exceptions, whose
      handler clears the scratch; a mismatch drops the stored password and
      asks for it again; every other refusal ends and keeps the scratch. */
  function ConfirmOwnStep(rows: map<string, Session>, key: string, scratch: map<string, string>, text: string, env: Env, call: (string, string) -> ChangeResult): Step {
    if env.deleteFails then Step(Goto(End), map[], [Send(ProcessingError)])
    else if !Held(scratch, NewPasswordKey) then Step(Goto(End), scratch, [DeleteIncoming, Send(NoInitialPassword)])
    else if scratch[NewPasswordKey] != PyStrip(text) then
      Step(Goto(GetNewPassword), scratch - {NewPasswordKey}, [DeleteIncoming, Send(PasswordsDiffer), Send(AskNewPassword)])
    else if env.dbFault || key !in rows then Step(Goto(End), map[], [DeleteIncoming, Send(ProcessingError)])
    else if !HasEmail(rows[key]) then Step(Goto(End), scratch, [DeleteIncoming, Send(NoSessionEmail)])
    else
      var email := rows[key].email.value;
      var pw := scratch[NewPasswordKey];
      var result := call(email, pw);
      Step(Goto(End), if result.success then map[] else scratch,
        [DeleteIncoming] + ChangeEffects(result, AdminList(env.adminEmails), email, pw, Changed, "⚠️ Error al cambiar contraseña: "))
  }

  /** The effects of a reached change hold a call to the directory. */
  lemma ChangeIsCalled(out: seq<Effect>, result: ChangeResult, admins: seq<string>, email: string, pw: string, done: Notice, prefix: string)
    requires out == [DeleteIncoming] + ChangeEffects(result, admins, email, pw, done, prefix)
    ensures !NoChangeCall(out)
  {
    assert out[1].CallChange?;
  }

  /** The directory is called exactly when the change is reached. */
  lemma ConfirmOwnCalls(rows: map<string, Session>, key: string, scratch: map<string, string>, text: string, env: Env, call: (string, string) -> ChangeResult)
    ensures NoChangeCall(ConfirmOwnStep(rows, key, scratch, text, env, call).out) <==> !OwnChangeReached(rows, key, scratch, text, env)
  {
    if OwnChangeReached(rows, key, scratch, text, env) {
      var email := rows[key].email.value;
      var pw := scratch[NewPasswordKey];
      ConfirmOwnChange(rows, key, scratch, text, env, call);
      ChangeIsCalled(ConfirmOwnStep(rows, key, scratch, text, env, call).out, call(email, pw), AdminList(env.adminEmails), email, pw, Changed, "⚠️ Error al cambiar contraseña: ");
    } else {
      ConfirmOwnRefused(rows, key, scratch, text, env, call);
    }
  }

  /** A confirmation that stops short sends notices only. */
  lemma ConfirmOwnRefused(rows: map<string, Session>, key: string, scratch: map<string, string>, text: string, env: Env, call: (string, string) -> ChangeResult)
    requires !OwnChangeReached(rows, key, scratch, text, env)
    ensures NoChangeCall(ConfirmOwnStep(rows, key, scratch, text, env, call).out)
  {
    var out := ConfirmOwnStep(rows, key, scratch, text, env, call).out;
    if env.deleteFails {
      assert out == [Send(ProcessingError)];
    } else if !Held(scratch, NewPasswordKey) {
      assert out == [DeleteIncoming, Send(NoInitialPassword)];
    } else if scratch[NewPasswordKey] != PyStrip(text) {
      assert out == [DeleteIncoming, Send(PasswordsDiffer), Send(AskNewPassword)];
    } else if env.dbFault || key !in rows {
      assert out == [DeleteIncoming, Send(ProcessingError)];
    } else {
      assert out == [DeleteIncoming, Send(NoSessionEmail)];
    }
  }

  /** A reached change calls the directory with the session's e-mail and
      the stored password, and what follows is what its answer decides. */
  lemma ConfirmOwnChange(rows: map<string, Session>, key: string, scratch: map<string, string>, text: string, env: Env, call: (string, string) -> ChangeResult)
    requires OwnChangeReached(rows, key, scratch, text, env)
    ensures var email := rows[key].email.value;
      var pw := scratch[NewPasswordKey];
      ConfirmOwnStep(rows, key, scratch, text, env, call).out ==
        [DeleteIncoming] + ChangeEffects(call(email, pw), AdminList(env.adminEmails), email, pw, Changed, "⚠️ Error al cambiar contraseña: ")
  {
  }

  /** Only a mismatch asks again; every other confirmation ends the
      conversation. */
  lemma ConfirmOwnNext(rows: map<string, Session>, key: string, scratch: map<string, string>, text: string, env: Env, call: (string, string) -> ChangeResult)
    ensures ConfirmOwnStep(rows, key, scratch, text, env, call).next ==
      if !env.deleteFails && Held(scratch, NewPasswordKey) && !Confirms(scratch, NewPasswordKey, text) then Goto(GetNewPassword)
      else Goto(End)
  {
  }

  /** The scratch after a confirmation: cleared after a successful change
      and after an exception, without the password after a mismatch, and
      otherwise untouched, so a change the directory refused leaves the
      typed password stored. */
  lemma ConfirmOwnScratch(rows: map<string, Session>, key: string, scratch: map<string, string>, text: string, env: Env, call: (string, string) -> ChangeResult)
    ensures var s := ConfirmOwnStep(rows, key, scratch, text, env, call).scratch;
      && (env.deleteFails ==> s == map[])
      && (!env.deleteFails && Held(scratch, NewPasswordKey) && !Confirms(scratch, NewPasswordKey, text) ==>
            s == scratch - {NewPasswordKey})
      && (!env.deleteFails && Confirms(scratch, NewPasswordKey, text) && (env.dbFault || key !in rows) ==> s == map[])
      && (OwnChangeReached(rows, key, scratch, text, env) ==>
            (s == map[] <==> call(rows[key].email.value, scratch[NewPasswordKey]).success))
    ensures var s := ConfirmOwnStep(rows, key, scratch, text, env, call).scratch;
      OwnChangeReached(rows, key, scratch, text, env) &&
      !call(rows[key].email.value, scratch[NewPasswordKey]).success ==>
        NewPasswordKey in s && s[NewPasswordKey] == PyStrip(text)
  {
  }

  /** `process_password_confirmation` as the older
      `bot_handler/bot_handler.py` writes it, reading the session row of
      the user (`key`): a mismatch ends instead of asking again, and its
      `finally` clears the scratch and ends the conversation on every
      path. */
  function LegacyConfirmOwnStep(rows: map<string, Session>, key: string, scratch: map<string, string>, text: string, env: Env, call: (string, string) -> ChangeResult): Step {
    var out :=
      if env.deleteFails then [Send(ConfirmationError)]
      else if !Held(scratch, NewPasswordKey) then [DeleteIncoming, Send(NoInitialPassword)]
      else if scratch[NewPasswordKey] != PyStrip(text) then [DeleteIncoming, Send(PasswordsDiffer)]
      else if env.dbFault || key !in rows then [DeleteIncoming, Send(ConfirmationError)]
      else if !HasEmail(rows[key]) then [DeleteIncoming, Send(NoSessionEmail)]
      else
        var email := rows[key].email.value;
        var pw := scratch[NewPasswordKey];
        [DeleteIncoming] + ChangeEffects(call(email, pw), AdminList(env.adminEmails), email, pw, Changed, "⚠️ Error: ");
    Step(Goto(End), map[], out)
  }

  /** The older confirmation always ends with an empty scratch, and calls
      the directory exactly when the change is reached. */
  lemma LegacyConfirmOwnCalls(rows: map<string, Session>, key: string, scratch: map<string, string>, text: string, env: Env, call: (string, string) -> ChangeResult)
    ensures LegacyConfirmOwnStep(rows, key, scratch, text, env, call).next == Goto(End)
    ensures LegacyConfirmOwnStep(rows, key, scratch, text, env, call).scratch == map[]
    ensures NoChangeCall(LegacyConfirmOwnStep(rows, key, scratch, text, env, call).out) <==> !OwnChangeReached(rows, key, scratch, text, env)
    ensures OwnChangeReached(rows, key, scratch, text, env) ==>
      var email := rows[key].email.value;
      var pw := scratch[NewPasswordKey];
      LegacyConfirmOwnStep(rows, key, scratch, text, env, call).out ==
        [DeleteIncoming] + ChangeEffects(call(email, pw), AdminList(env.adminEmails), email, pw, Changed, "⚠️ Error: ")
  {
    var out := LegacyConfirmOwnStep(rows, key, scratch, text, env, call).out;
    if env.deleteFails {
      assert out == [Send(ConfirmationError)];
    } else if !Held(scratch, NewPasswordKey) {
      assert out == [DeleteIncoming, Send(NoInitialPassword)];
    } else if scratch[NewPasswordKey] != PyStrip(text) {
      assert out == [DeleteIncoming, Send(PasswordsDiffer)];
    } else if env.dbFault || key !in rows {
      assert out == [DeleteIncoming, Send(ConfirmationError)];
    } else if !HasEmail(rows[key]) {
      assert out == [DeleteIncoming, Send(NoSessionEmail)];
    } else {
      var email := rows[key].email.value;
      var pw := scratch[NewPasswordKey];
      assert out == [DeleteIncoming] + ChangeEffects(call(email, pw), AdminList(env.adminEmails), email, pw, Changed, "⚠️ Error: ");
      ChangeIsCalled(out, call(email, pw), AdminList(env.adminEmails), email, pw, Changed, "⚠️ Error: ");
    }
  }

  /** Both a target address and a matching, non-empty password are
      stored. */
  predicate OtherChangeReached(scratch: map<string, string>, text: string, env: Env) {
    !env.deleteFails && Held(scratch, TargetEmailKey) && Confirms(scratch, TargetPasswordKey, text)
  }

  /** `process_user_password_confirmation`: a mismatch aborts, and its
      `finally` clears the scratch and ends the conversation on every
      path. */
  function ConfirmOtherStep(scratch: map<string, string>, text: string, env: Env, call: (string, string) -> ChangeResult): Step {
    var out :=
      if env.deleteFails then [Send(ConfirmationError)]
      else if !Held(scratch, TargetPasswordKey) || !Held(scratch, TargetEmailKey) then [DeleteIncoming, Send(InsufficientData)]
      else if scratch[TargetPasswordKey] != PyStrip(text) then [DeleteIncoming, Send(PasswordsDiffer)]
      else
        var email := scratch[TargetEmailKey];
        var pw := scratch[TargetPasswordKey];
        [DeleteIncoming] + ChangeEffects(call(email, pw), AdminList(env.adminEmails), email, pw, ChangedForUser, "⚠️ Error: ");
    Step(Goto(End), map[], out)
  }

  /** The administrator's confirmation always ends with an empty scratch,
      and calls the directory exactly when the change is reached, with the
      stored target and password. */
  lemma ConfirmOtherCalls(scratch: map<string, string>, text: string, env: Env, call: (string, string) -> ChangeResult)
    ensures ConfirmOtherStep(scratch, text, env, call).next == Goto(End)
    ensures ConfirmOtherStep(scratch, text, env, call).scratch == map[]
    ensures NoChangeCall(ConfirmOtherStep(scratch, text, env, call).out) <==> !OtherChangeReached(scratch, text, env)
    ensures OtherChangeReached(scratch, text, env) ==>
      var email := scratch[TargetEmailKey];
      var pw := scratch[TargetPasswordKey];
      ConfirmOtherStep(scratch, text, env, call).out ==
        [DeleteIncoming] + ChangeEffects(call(email, pw), AdminList(env.adminEmails), email, pw, ChangedForUser, "⚠️ Error: ")
  {
    var out := ConfirmOtherStep(scratch, text, env, call).out;
    if env.deleteFails {
      assert out == [Send(ConfirmationError)];
    } else if !Held(scratch, TargetPasswordKey) || !Held(scratch, TargetEmailKey) {
      assert out == [DeleteIncoming, Send(InsufficientData)];
    } else if scratch[TargetPasswordKey] != PyStrip(text) {
      assert out == [DeleteIncoming, Send(PasswordsDiffer)];
    } else {
      var email := scratch[TargetEmailKey];
      var pw := scratch[TargetPasswordKey];
      assert out == [DeleteIncoming] + ChangeEffects(call(email, pw), AdminList(env.adminEmails), email, pw, ChangedForUser, "⚠️ Error: ");
      ChangeIsCalled(out, call(email, pw), AdminList(env.adminEmails), email, pw, ChangedForUser, "⚠️ Error: ");
    }
  }

  /** What is sent for a valid address: the notice of the request, then
      the report escaped for MarkdownV2, or the failure notice when the
      expiry could not be read. */
  function AnswerFor(email: string, report: Result<string, ExpiryError>): (r: seq<Effect>)
    ensures NoChangeCall(r) && NoMail(r)
    ensures |r| == 2 && r[0] == Send(Processing(email))
    ensures r[1].SendMarkdown? <==> report.Ok?
    ensures report.Ok? ==> Unescape(r[1].text) == report.value && WellEscaped(r[1].text)
    ensures report.Err? ==> r[1] == Send(RequestFailed)
  {
    match report
    case Ok(text) =>
      UnescapeEscape(text);
      EscapeWellEscaped(text);
      [Send(Processing(email)), SendMarkdown(Escape(text))]
    case Err(_) => [Send(Processing(email)), Send(RequestFailed)]
  }

  /** What `process_email` sends after a verified session: a request for
      an address when the text is missing or empty, the refusal of a
      malformed address, and for a valid one the answer for its report.
      It never changes a password or sends mail. */
  function EmailAnswer(text: Option<string>, env: Env): (r: seq<Effect>)
    ensures NoChangeCall(r) && NoMail(r)
  {
    if text.None? || text.value == "" then [Send(AskValidEmail)]
    else
      var email := LowerAscii(PyStrip(text.value));
      if !MatchesPattern(email) then [Send(InvalidEmail)]
      else AnswerFor(email, ReportResult(env, email))
  }

  /** A report is sent exactly for a valid address whose expiry is known,
      and it unescapes back to the report of that address. */
  lemma EmailAnswerReport(text: Option<string>, env: Env)
    ensures var out := EmailAnswer(text, env);
      (|out| == 2 && out[1].SendMarkdown?) <==>
        (text.Some? && text.value != "" && IsValidEmailInput(text.value) &&
         ReportResult(env, LowerAscii(PyStrip(text.value))).Ok?)
    ensures var out := EmailAnswer(text, env);
      |out| == 2 && out[1].SendMarkdown? ==>
        Unescape(out[1].text) == ReportResult(env, LowerAscii(PyStrip(text.value))).value
  {
  }

  /** Builds the expiry answer: `get_password_expiry` is run for a valid
      address, and what is sent is the functional answer. */
  method AnswerEmail(text: Option<string>, env: Env) returns (out: seq<Effect>)
    ensures out == EmailAnswer(text, env)
  {
    if text.None? || text.value == "" {
      return [Send(AskValidEmail)];
    }
    var email := LowerAscii(PyStrip(text.value));
    if !MatchesPattern(email) {
      return [Send(InvalidEmail)];
    }
    var report := BuildReport(env, email);
    out := AnswerFor(email, report);
  }

  // ---------------------------------------------------------------------
  // The chat
  // ---------------------------------------------------------------------

  class ChatEngine {
    /** The Telegram user id as text, the session key. */
    const userId: string
    /** The chat id as text; in a private chat it equals `userId`. */
    const chatId: string
    const store: SessionStore
    const users: UserTable
    var conv: map<Conversation, int>
    var scratch: map<string, string>

    ghost predicate Valid()
      reads this, store
    {
      store.Valid()
    }

    constructor (userId: string, chatId: string, store: SessionStore, users: UserTable)
      requires store.Valid()
      ensures Valid()
      ensures this.userId == userId && this.chatId == chatId && this.store == store && this.users == users
      ensures conv == map[ChangeOwn := End, ChangeOther := End, CheckOther := End] && scratch == map[]
    {
      this.userId := userId;
      this.chatId := chatId;
      this.store := store;
      this.users := users;
      conv := map[ChangeOwn := End, ChangeOther := End, CheckOther := End];
      scratch := map[];
    }

    /** The user's session can be read, exists and has not expired. */
    predicate Verified(rows: map<string, Session>, env: Env) {
      !env.dbFault && userId in rows && Live(rows[userId], env.now)
    }

    /** What `verify_session` sends when it refuses: nothing on a database
        error, otherwise the notice of an expired or a missing session. */
    function Refusal(rows: map<string, Session>, env: Env): seq<Effect> {
      if env.dbFault then [] else if userId in rows then [Send(SessionTimedOut)] else [Send(NoSession)]
    }

    /** `verify_session`: a live session is refreshed and nothing is sent;
        a missing or expired one is refused with its notice and nothing is
        written; a database error is refused silently. */
    method VerifySession(env: Env) returns (ok: bool, out: seq<Effect>)
      requires Valid()
      modifies store
      ensures Valid()
      ensures ok <==> Verified(old(store.rows), env)
      ensures ok ==> store.rows == old(store.rows)[userId := Saved(old(store.rows)[userId], env.now)]
      ensures !ok ==> store.rows == old(store.rows)
      ensures out == if ok then [] else Refusal(old(store.rows), env)
    {
      var notice: Option<SessionNotice>;
      ok, notice := store.VerifySession(userId, env.now, env.duration, env.dbFault);
      out := match notice
        case None => []
        case Some(SessionInactive) => [Send(NoSession)]
        case Some(SessionExpired) => [Send(SessionTimedOut)];
    }

    /** `start`: any existing session is deleted and the user is greeted by
        the hour and asked to share the contact. A database error escapes
        before anything is sent. */
    method Start(firstName: string, env: Env) returns (out: seq<Effect>)
      requires Valid()
      modifies store
      ensures Valid()
      ensures env.dbFault ==> store.rows == old(store.rows) && out == []
      ensures !env.dbFault ==> store.rows == old(store.rows) - {userId}
      ensures !env.dbFault ==> out == [Send(AskContact(GreetingFor(env.hour), firstName))]
    {
      if env.dbFault {
        return [];
      }
      if userId in store.rows {
        var _ := store.DeleteSession(userId, false);
      }
      out := [Send(AskContact(GreetingFor(env.hour), firstName))];
    }

    /** `handle_contact`: a contact that is not the sender's own is
        refused; otherwise the phone without leading `+` is looked up in the
        users table and the login decided by `Login`. Only an admitted user
        gets a session and the menu. */
    method HandleContact(contactUserId: string, phone: string, env: Env) returns (out: seq<Effect>)
      requires Valid()
      modifies store
      ensures Valid()
      ensures contactUserId != userId ==> out == [Send(ContactMismatch)] && store.rows == old(store.rows)
      ensures contactUserId == userId ==>
        match Login(old(users.GetUserByPhone(StripPlus(phone), env.dbFault)), env)
        case Refused(notice) => out == [Send(notice)] && store.rows == old(store.rows)
        case Admitted(c, member) =>
          && store.rows == old(store.rows)[userId := Session(userId, c.name, Some(c.mail), env.now, env.now, env.now + SaveWindow)]
          && out == [SendMenu(Welcome(c.name, c.mail), Menu(member))]
    {
      if contactUserId != userId {
        return [Send(ContactMismatch)];
      }
      var usuario := users.GetUserByPhone(StripPlus(phone), env.dbFault);
      match Login(usuario, env) {
        case Refused(notice) =>
          out := [Send(notice)];
        case Admitted(c, member) =>
          out := Admit(c, member, env);
      }
    }

    /** The admitted user's session and menu. */
    method Admit(c: Contact, member: bool, env: Env) returns (out: seq<Effect>)
      requires Valid()
      modifies store
      ensures Valid()
      ensures store.rows == old(store.rows)[userId := Session(userId, c.name, Some(c.mail), env.now, env.now, env.now + SaveWindow)]
      ensures out == [SendMenu(Welcome(c.name, c.mail), Menu(member))]
    {
      store.UpdateOrCreate(userId, c.name, c.mail, env.now, env.duration);
      out := [SendMenu(Welcome(c.name, c.mail), Menu(member))];
    }

    /** `terminate_bot`: the user's session is deleted, and the reply says
        whether there was one to close. */
    method TerminateBot(env: Env) returns (out: seq<Effect>)
      requires Valid()
      modifies store
      ensures Valid()
      ensures userId !in store.rows || env.dbFault
      ensures !env.dbFault ==> store.rows == old(store.rows) - {userId}
      ensures env.dbFault ==> store.rows == old(store.rows)
      ensures out == [Send(if !env.dbFault && userId in old(store.rows) then SessionClosed else NoSessionToClose)]
    {
      var count := store.DeleteSession(userId, env.dbFault);
      out := [Send(if count > 0 then SessionClosed else NoSessionToClose)];
    }

    /** `check_expiry`, the user's own expiry: after a verified session, the
        report of the session's e-mail is sent escaped for MarkdownV2 when
        the expiry record has no error; a missing e-mail or a record with an
        error is reported as a failure with its text (see FailureText). */
    method CheckExpiry(env: Env) returns (out: seq<Effect>)
      requires Valid()
      modifies store
      ensures Valid()
      ensures Verified(old(store.rows), env) ==> store.rows == old(store.rows)[userId := Saved(old(store.rows)[userId], env.now)]
      ensures !Verified(old(store.rows), env) ==> store.rows == old(store.rows) && out == Refusal(old(store.rows), env)
      ensures NoChangeCall(out) && NoMail(out)
      ensures Verified(old(store.rows), env) && HasEmail(old(store.rows)[userId]) ==>
        match ReportResult(env, old(store.rows)[userId].email.value)
        case Ok(report) => out == [SendMarkdown(Escape(report))]
        case Err(e) => out == [Send(VerifyFailed("⚠️ Error al verificar: " + FailureText(e)))]
      ensures Verified(old(store.rows), env) && !HasEmail(old(store.rows)[userId]) ==>
        out == [Send(VerifyFailed("⚠️ Error al verificar: 📧 Email no registrado en sesión"))]
    {
      var ok;
      ok, out := VerifySession(env);
      if !ok {
        return;
      }
      var session := store.Get(userId).value;
      if !HasEmail(session) {
        return [Send(VerifyFailed("⚠️ Error al verificar: 📧 Email no registrado en sesión"))];
      }
      var report := BuildReport(env, session.email.value);
      match report {
        case Ok(text) => out := [SendMarkdown(Escape(text))];
        case Err(e) => out := [Send(VerifyFailed("⚠️ Error al verificar: " + FailureText(e)))];
      }
    }

    /** `cancel`, the fallback of every conversation: it ends the
        conversation and leaves the scratch as it is. */
    method Cancel(c: Conversation) returns (next: Next, out: seq<Effect>)
      modifies this
      ensures next == Goto(End) && conv == old(conv)[c := End]
      ensures scratch == old(scratch)
      ensures out == [Send(Cancelled)]
    {
      next := Goto(End);
      conv := conv[c := End];
      out := [Send(Cancelled)];
    }

    // ------------------------------------------------------------------
    // Changing one's own password
    // ------------------------------------------------------------------

    /** `start_change_password`: the conversation starts only with a
        verified session. */
    method StartChangePassword(env: Env) returns (next: Next, out: seq<Effect>)
      requires Valid()
      modifies this, store
      ensures Valid()
      ensures scratch == old(scratch)
      ensures next == Goto(if Verified(old(store.rows), env) then GetNewPassword else End)
      ensures conv == old(conv)[ChangeOwn := next.state]
      ensures Verified(old(store.rows), env) ==>
        store.rows == old(store.rows)[userId := Saved(old(store.rows)[userId], env.now)] && out == [Send(AskNewPassword)]
      ensures !Verified(old(store.rows), env) ==> store.rows == old(store.rows) && out == Refusal(old(store.rows), env)
      ensures NoChangeCall(out) && NoMail(out)
    {
      var ok;
      ok, out := VerifySession(env);
      if !ok {
        next := Goto(End);
      } else {
        out := [Send(AskNewPassword)];
        next := Goto(GetNewPassword);
      }
      conv := conv[ChangeOwn := next.state];
    }

    /** `process_new_password`: the stripped text is kept as the new
        password, but only once the message holding it has been deleted;
        when the deletion fails the conversation ends and nothing is kept. */
    method ProcessNewPassword(text: string, env: Env) returns (next: Next, out: seq<Effect>)
      modifies this
      ensures env.deleteFails ==> next == Goto(End) && scratch == old(scratch) && out == [Send(ProcessingError)]
      ensures !env.deleteFails ==>
        next == Goto(GetPasswordConfirmation) &&
        scratch == old(scratch)[NewPasswordKey := PyStrip(text)] &&
        out == [DeleteIncoming, Send(AskConfirmation)]
      ensures conv == old(conv)[ChangeOwn := next.state]
    {
      if env.deleteFails {
        next, out := Goto(End), [Send(ProcessingError)];
      } else {
        scratch := scratch[NewPasswordKey := PyStrip(text)];
        next, out := Goto(GetPasswordConfirmation), [DeleteIncoming, Send(AskConfirmation)];
      }
      conv := conv[ChangeOwn := next.state];
    }

    /** `process_password_confirmation` as `telegram_bot/handlers.py` writes
        it. It reads the session row of the chat and does not check the
        session's expiry again. */
    method ProcessPasswordConfirmation(text: string, env: Env) returns (next: Next, out: seq<Effect>)
      modifies this
      ensures var r := ConfirmOwnStep(store.rows, chatId, old(scratch), text, env, DirectoryCall(env));
        next == r.next && scratch == r.scratch && out == r.out
      ensures next.Goto? && conv == old(conv)[ChangeOwn := next.state]
    {
      var r := ConfirmOwnStep(store.rows, chatId, scratch, text, env, DirectoryCall(env));
      next, scratch, out := r.next, r.scratch, r.out;
      conv := conv[ChangeOwn := next.state];
    }

    /** The older copy's confirmation, which reads the session row of the
        user. */
    method LegacyProcessPasswordConfirmation(text: string, env: Env) returns (next: Next, out: seq<Effect>)
      modifies this
      ensures var r := LegacyConfirmOwnStep(store.rows, userId, old(scratch), text, env, DirectoryCall(env));
        next == r.next && scratch == r.scratch && out == r.out
      ensures conv == old(conv)[ChangeOwn := End]
    {
      var r := LegacyConfirmOwnStep(store.rows, userId, scratch, text, env, DirectoryCall(env));
      next, scratch, out := r.next, r.scratch, r.out;
      conv := conv[ChangeOwn := End];
    }

    // ------------------------------------------------------------------
    // An administrator changing another user's password
    // ------------------------------------------------------------------

    /** `start_change_user_password`: the conversation starts only with a
        verified session whose e-mail is a member of the group; a
        membership check that raises ends it with an internal error. */
    method StartChangeUserPassword(env: Env) returns (next: Next, out: seq<Effect>)
      requires Valid()
      modifies this, store
      ensures Valid()
      ensures scratch == old(scratch)
      ensures next.Goto? && conv == old(conv)[ChangeOther := next.state]
      ensures NoChangeCall(out) && NoMail(out)
      ensures !Verified(old(store.rows), env) ==>
        next == Goto(End) && store.rows == old(store.rows) && out == Refusal(old(store.rows), env)
      ensures Verified(old(store.rows), env) ==> store.rows == old(store.rows)[userId := Saved(old(store.rows)[userId], env.now)]
      ensures Verified(old(store.rows), env) ==>
        var member := CheckGroupMembership(env.dir, env.groupDn, EmailText(old(store.rows)[userId].email));
        && (member == Ok(true) ==> next == Goto(GetUserEmail) && out == [Send(AskTargetEmail)])
        && (member == Ok(false) ==> next == Goto(End) && out == [Send(AdminOnly)])
        && (member.Err? ==> next == Goto(End) && out == [Send(InternalError)])
    {
      var ok;
      ok, out := VerifySession(env);
      if !ok {
        next := Goto(End);
      } else {
        var session := store.Get(userId).value;
        var member := CheckGroupMembership(env.dir, env.groupDn, EmailText(session.email));
        if member.Err? {
          next, out := Goto(End), [Send(InternalError)];
        } else if !member.value {
          next, out := Goto(End), [Send(AdminOnly)];
        } else {
          next, out := Goto(GetUserEmail), [Send(AskTargetEmail)];
        }
      }
      conv := conv[ChangeOther := next.state];
    }

    /** `process_user_email`: a text that is not an address after
        stripping and lower-casing asks again in the same state; a valid
        one is kept as the target. */
    method ProcessUserEmail(text: string) returns (next: Next, out: seq<Effect>)
      modifies this
      ensures !IsValidEmailInput(text) ==>
        next == Goto(GetUserEmail) && scratch == old(scratch) && out == [Send(InvalidEmail)]
      ensures IsValidEmailInput(text) ==>
        var target := LowerAscii(PyStrip(text));
        next == Goto(GetUserNewPassword) && scratch == old(scratch)[TargetEmailKey := target] &&
        out == [Send(ChangeFor(target))]
      ensures conv == old(conv)[ChangeOther := next.state]
    {
      var target := LowerAscii(PyStrip(text));
      if !MatchesPattern(target) {
        next, out := Goto(GetUserEmail), [Send(InvalidEmail)];
      } else {
        scratch := scratch[TargetEmailKey := target];
        next, out := Goto(GetUserNewPassword), [Send(ChangeFor(target))];
      }
      conv := conv[ChangeOther := next.state];
    }

    /** `process_user_new_password`: as for one's own password, the
        password is kept only once its message has been deleted. */
    method ProcessUserNewPassword(text: string, env: Env) returns (next: Next, out: seq<Effect>)
      modifies this
      ensures env.deleteFails ==> next == Goto(End) && scratch == old(scratch) && out == [Send(ProcessingError)]
      ensures !env.deleteFails ==>
        next == Goto(GetUserPasswordConfirmation) &&
        scratch == old(scratch)[TargetPasswordKey := PyStrip(text)] &&
        out == [DeleteIncoming, Send(AskTargetConfirmation)]
      ensures conv == old(conv)[ChangeOther := next.state]
    {
      if env.deleteFails {
        next, out := Goto(End), [Send(ProcessingError)];
      } else {
        scratch := scratch[TargetPasswordKey := PyStrip(text)];
        next, out := Goto(GetUserPasswordConfirmation), [DeleteIncoming, Send(AskTargetConfirmation)];
      }
      conv := conv[ChangeOther := next.state];
    }

    /** `process_user_password_confirmation`. */
    method ProcessUserPasswordConfirmation(text: string, env: Env) returns (next: Next, out: seq<Effect>)
      modifies this
      ensures var r := ConfirmOtherStep(old(scratch), text, env, DirectoryCall(env));
        next == r.next && scratch == r.scratch && out == r.out
      ensures conv == old(conv)[ChangeOther := End]
    {
      var r := ConfirmOtherStep(scratch, text, env, DirectoryCall(env));
      next, scratch, out := r.next, r.scratch, r.out;
      conv := conv[ChangeOther := End];
    }

    // ------------------------------------------------------------------
    // An administrator checking another user's expiry
    // ------------------------------------------------------------------

    /** `check_user_expiry`: without a verified session it returns `None`
        and the conversation does not start; otherwise only a group member
        is asked for the address. */
    method CheckUserExpiry(env: Env) returns (next: Next, out: seq<Effect>)
      requires Valid()
      modifies this, store
      ensures Valid()
      ensures scratch == old(scratch)
      ensures next.Stay? ==> conv == old(conv)
      ensures next.Goto? ==> conv == old(conv)[CheckOther := next.state]
      ensures NoChangeCall(out) && NoMail(out)
      ensures !Verified(old(store.rows), env) ==>
        next == Stay && store.rows == old(store.rows) && out == Refusal(old(store.rows), env)
      ensures Verified(old(store.rows), env) ==> store.rows == old(store.rows)[userId := Saved(old(store.rows)[userId], env.now)]
      ensures Verified(old(store.rows), env) ==>
        var member := CheckGroupMembership(env.dir, env.groupDn, EmailText(old(store.rows)[userId].email));
        && (member == Ok(true) ==> next == Goto(GetEmail) && out == [Send(AskFullEmail)])
        && (member == Ok(false) ==> next == Goto(End) && out == [Send(AdminOnly)])
        && (member.Err? ==> next == Goto(End) && out == [Send(InternalError)])
    {
      var ok;
      ok, out := VerifySession(env);
      if !ok {
        return Stay, out;
      }
      var session := store.Get(userId).value;
      var member := CheckGroupMembership(env.dir, env.groupDn, EmailText(session.email));
      if member.Err? {
        next, out := Goto(End), [Send(InternalError)];
      } else if !member.value {
        next, out := Goto(End), [Send(AdminOnly)];
      } else {
        next, out := Goto(GetEmail), [Send(AskFullEmail)];
      }
      conv := conv[CheckOther := next.state];
    }

    /** `process_email`. The session is verified first; when it is not,
        the conversation ends and the scratch is kept. Otherwise its
        `finally` returns `END`, which overrides the `return GET_EMAIL` of an
        empty or malformed address, so the conversation always ends here and
        the scratch is always cleared. For a valid address the report is
        sent escaped for MarkdownV2; an expiry record with an error fails
        while the report is built. */
    method ProcessEmail(text: Option<string>, env: Env) returns (next: Next, out: seq<Effect>)
      requires Valid()
      modifies this, store
      ensures Valid()
      ensures next == Goto(End) && conv == old(conv)[CheckOther := End]
      ensures Verified(old(store.rows), env) ==> store.rows == old(store.rows)[userId := Saved(old(store.rows)[userId], env.now)]
      ensures !Verified(old(store.rows), env) ==>
        store.rows == old(store.rows) && scratch == old(scratch) && out == Refusal(old(store.rows), env)
      ensures Verified(old(store.rows), env) ==> scratch == map[]
      ensures NoChangeCall(out) && NoMail(out)
      ensures Verified(old(store.rows), env) ==> out == EmailAnswer(text, env)
    {
      var ok;
      ok, out := VerifySession(env);
      next := Goto(End);
      conv := conv[CheckOther := End];
      if !ok {
        return;
      }
      out := AnswerEmail(text, env);
      scratch := map[];
    }
  }
}
