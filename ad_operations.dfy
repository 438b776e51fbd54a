/** The Active Directory operations the bot relies on. The directory is a
    value: the accounts a search can return, in the order the server returns
    them, plus the outcome of the connection steps (a fault raised while
    connecting or searching, whether the connection is bound, whether
    StartTLS succeeds, the reply to a modify request). */
module AdOperations {
  import opened Common
  import opened Chrono

  newtype byte = x: int | 0 <= x < 256

  // ---------------------------------------------------------------------
  // The `unicodePwd` value: the password in double quotes, UTF-16LE.
  // ---------------------------------------------------------------------

  /** The UTF-16LE bytes of one character: one code unit below U+10000, a
      surrogate pair above. */
  function CharBytes(c: char): (r: seq<byte>)
    ensures |r| == 2 || |r| == 4
  {
    var v := c as int;
    if v < 0x1_0000 then [(v % 256) as byte, (v / 256) as byte]
    else
      var u := v - 0x1_0000;
      var hi := 0xD800 + u / 0x400;
      var lo := 0xDC00 + u % 0x400;
      [(hi % 256) as byte, (hi / 256) as byte, (lo % 256) as byte, (lo / 256) as byte]
  }

  /** `text.encode('utf-16-le')`. */
  function EncodeUtf16Le(s: string): (r: seq<byte>)
    ensures |r| % 2 == 0 && 2 * |s| <= |r| <= 4 * |s|
  {
    if s == [] then [] else CharBytes(s[0]) + EncodeUtf16Le(s[1..])
  }

  /** UTF-16LE decoding; `None` for an odd length, a lone or reversed
      surrogate. */
  function DecodeUtf16Le(b: seq<byte>): Option<string>
    decreases |b|
  {
    if b == [] then Some([])
    else if |b| < 2 then None
    else
      var w := b[0] as int + 256 * b[1] as int;
      if w < 0xD800 || 0xE000 <= w then
        match DecodeUtf16Le(b[2..])
        case None => None
        case Some(rest) => Some([w as char] + rest)
      else if w < 0xDC00 && |b| >= 4 then
        var w2 := b[2] as int + 256 * b[3] as int;
        if 0xDC00 <= w2 < 0xE000 then
          var v := 0x1_0000 + (w - 0xD800) * 0x400 + (w2 - 0xDC00);
          match DecodeUtf16Le(b[4..])
          case None => None
          case Some(rest) => Some([v as char] + rest)
        else None
      else None
  }

  /** Decoding reads one character back from the front of its bytes. */
  lemma DecodeCharBytes(c: char, rest: seq<byte>)
    ensures DecodeUtf16Le(CharBytes(c) + rest) ==
      match DecodeUtf16Le(rest) case None => None case Some(t) => Some([c] + t)
  {
    var b := CharBytes(c) + rest;
    var v := c as int;
    if v < 0x1_0000 {
      assert b[0] as int + 256 * b[1] as int == v;
      assert b[2..] == rest;
    } else {
      var u := v - 0x1_0000;
      var hi := 0xD800 + u / 0x400;
      var lo := 0xDC00 + u % 0x400;
      assert b[0] as int + 256 * b[1] as int == hi;
      assert b[2] as int + 256 * b[3] as int == lo;
      assert 0x1_0000 + (hi - 0xD800) * 0x400 + (lo - 0xDC00) == v;
      assert b[4..] == rest;
    }
  }

  /** The encoding is lossless: decoding gives the text back. */
  lemma {:induction false} DecodeEncode(s: string)
    ensures DecodeUtf16Le(EncodeUtf16Le(s)) == Some(s)
  {
    if s != [] {
      DecodeEncode(s[1..]);
      DecodeCharBytes(s[0], EncodeUtf16Le(s[1..]));
      assert [s[0]] + s[1..] == s;
    }
  }

  lemma {:induction false} EncodeAppend(a: string, b: string)
    ensures EncodeUtf16Le(a + b) == EncodeUtf16Le(a) + EncodeUtf16Le(b)
  {
    if a == [] {
      assert a + b == b;
    } else {
      assert (a + b)[0] == a[0];
      assert (a + b)[1..] == a[1..] + b;
      EncodeAppend(a[1..], b);
    }
  }

  /** `('"' + new_password + '"').encode('utf-16-le')`. */
  function PasswordValue(pw: string): seq<byte> {
    EncodeUtf16Le("\"" + pw + "\"")
  }

  /** The value starts and ends with the quote's code unit 0x0022, and the
      password is recovered by decoding and dropping the quotes. */
  lemma PasswordValueShape(pw: string)
    ensures var v := PasswordValue(pw);
      |v| >= 4 && v[..2] == [0x22, 0x00] && v[|v| - 2..] == [0x22, 0x00]
    ensures DecodeUtf16Le(PasswordValue(pw)) == Some("\"" + pw + "\"")
  {
    EncodeAppend("\"" + pw, "\"");
    EncodeAppend("\"", pw);
    DecodeEncode("\"" + pw + "\"");
    assert EncodeUtf16Le("\"") == [0x22, 0x00];
  }

  // ---------------------------------------------------------------------
  // The directory.
  // ---------------------------------------------------------------------

  /** The value of `pwdLastSet` as the LDAP library hands it over: a
      timezone-aware datetime, a raw FILETIME integer, text, or nothing. */
  datatype PwdValue = PwdAbsent | PwdTime(at: Instant) | PwdTicks(ticks: int) | PwdText(text: string)

  /** One user entry. `groups` holds the distinguished names of the groups it
      belongs to directly or through nested groups, which is what the
      LDAP_MATCHING_RULE_IN_CHAIN rule (OID 1.2.840.113556.1.4.1941) tests. */
  datatype Account = Account(
    dn: string,
    samAccountName: Option<string>,
    displayName: Option<string>,
    mail: Option<string>,
    phone: Option<string>,
    uac: Option<int>,
    pwdLastSet: PwdValue,
    groups: set<string>)

  /** An exception raised by the LDAP library: `LDAPBindError`, another
      `LDAPException`, or anything else; `detail` is its `str()`. */
  datatype Fault = BindFault(detail: string) | LdapFault(detail: string) | OtherFault(detail: string)

  /** `conn.result` after a modify request. */
  datatype ModifyReply = ModifyReply(code: int, description: Option<string>, message: Option<string>)

  datatype Directory = Directory(
    fault: Option<Fault>,
    bound: bool,
    startTls: bool,
    reply: ModifyReply,
    accounts: seq<Account>)

  /** The entries a search returns. A connection that is not bound, yet
      raised nothing, searches anonymously and finds no entries. */
  function Search(dir: Directory): seq<Account> {
    if dir.bound then dir.accounts else []
  }

  /** The first entry of a search on `(mail=email)`. */
  function FindByMail(accounts: seq<Account>, email: string): (r: Option<nat>)
    ensures r.Some? ==> r.value < |accounts| && accounts[r.value].mail == Some(email)
    ensures r.Some? ==> forall j :: 0 <= j < r.value ==> accounts[j].mail != Some(email)
    ensures r.None? ==> forall j :: 0 <= j < |accounts| ==> accounts[j].mail != Some(email)
  {
    if accounts == [] then None
    else if accounts[0].mail == Some(email) then Some(0)
    else match FindByMail(accounts[1..], email)
      case None => None
      case Some(i) => Some(i + 1)
  }

  // ---------------------------------------------------------------------
  // cambiar_password_usuario
  // ---------------------------------------------------------------------

  datatype ChangeResult = ChangeResult(success: bool, message: string)

  /** The modify request sent: the entry's DN and the encoded password. */
  datatype PasswordWrite = PasswordWrite(dn: string, value: seq<byte>)

  datatype ChangeOutcome = ChangeOutcome(result: ChangeResult, write: Option<PasswordWrite>)

  const MsgChanged := "La contraseña fue cambiada exitosamente."
  const MsgNotBound := "No se pudo conectar al Active Directory."
  const MsgStartTls := "StartTLS falló. Conexión no segura para cambiar contraseña."
  const MsgNotFound := "Usuario no encontrado en Active Directory."
  const MsgBindError := "Error al autenticar contra el AD."

  function OrNA(v: Option<string>): string {
    match v case None => "N/A" case Some(s) => s
  }

  /** The message of a rejected modify request. */
  function RejectedMessage(reply: ModifyReply): string {
    "El cambio de contraseña falló. Razón: " + OrNA(reply.description) + ", Mensaje: " + OrNA(reply.message)
  }

  /** The messages of the three exception handlers. */
  function FaultMessage(f: Fault): string {
    match f
    case BindFault(_) => MsgBindError
    case LdapFault(d) => "Error en la operación LDAP: " + d
    case OtherFault(d) => "Error inesperado: " + d
  }

  /** The connection is usable for a password change: no fault, bound, and
      either LDAPS or a successful StartTLS. */
  predicate SecureSession(dir: Directory, useSsl: bool) {
    dir.fault.None? && dir.bound && (useSsl || dir.startTls)
  }

  /** `cambiar_password_usuario(email, new_password)`: never raises; a
      password is written only over a secure connection to an entry found by
      its mail, and the change succeeds exactly when the server answers the
      modify request with result code 0. */
  function ChangePassword(dir: Directory, useSsl: bool, email: string, pw: string): (r: ChangeOutcome)
    ensures r.write.Some? <==> SecureSession(dir, useSsl) && FindByMail(dir.accounts, email).Some?
    ensures r.write.Some? ==>
      r.write.value == PasswordWrite(dir.accounts[FindByMail(dir.accounts, email).value].dn, PasswordValue(pw))
    ensures r.result.success <==> r.write.Some? && dir.reply.code == 0
    ensures r.result.success ==> r.result.message == MsgChanged
    ensures dir.fault.Some? ==> r.result.message == FaultMessage(dir.fault.value)
    ensures dir.fault.None? && !dir.bound ==> r.result.message == MsgNotBound
    ensures dir.fault.None? && dir.bound && !useSsl && !dir.startTls ==> r.result.message == MsgStartTls
    ensures SecureSession(dir, useSsl) && FindByMail(dir.accounts, email).None? ==> r.result.message == MsgNotFound
    ensures r.write.Some? && dir.reply.code != 0 ==> r.result.message == RejectedMessage(dir.reply)
  {
    if dir.fault.Some? then ChangeOutcome(ChangeResult(false, FaultMessage(dir.fault.value)), None)
    else if !dir.bound then ChangeOutcome(ChangeResult(false, MsgNotBound), None)
    else if !useSsl && !dir.startTls then ChangeOutcome(ChangeResult(false, MsgStartTls), None)
    else match FindByMail(dir.accounts, email)
      case None => ChangeOutcome(ChangeResult(false, MsgNotFound), None)
      case Some(i) =>
        var write := PasswordWrite(dir.accounts[i].dn, PasswordValue(pw));
        if dir.reply.code == 0 then ChangeOutcome(ChangeResult(true, MsgChanged), Some(write))
        else ChangeOutcome(ChangeResult(false, RejectedMessage(dir.reply)), Some(write))
  }

  /** The success message is never one of the failure messages, so a caller
      that passes the message through cannot report a failure as success. */
  lemma ChangeMessagesDistinct(dir: Directory, useSsl: bool, email: string, pw: string)
    ensures ChangePassword(dir, useSsl, email, pw).result.message == MsgChanged <==>
      ChangePassword(dir, useSsl, email, pw).result.success ||
      (dir.fault.Some? && dir.fault.value.LdapFault? && "Error en la operación LDAP: " + dir.fault.value.detail == MsgChanged) ||
      (dir.fault.Some? && dir.fault.value.OtherFault? && "Error inesperado: " + dir.fault.value.detail == MsgChanged)
  {
    var r := ChangePassword(dir, useSsl, email, pw);
    if !r.result.success && r.write.Some? {
      assert RejectedMessage(dir.reply)[0] == 'E';
    }
  }

  // ---------------------------------------------------------------------
  // is_user_active
  // ---------------------------------------------------------------------

  /** Bit 0x2 (ACCOUNTDISABLE) of `userAccountControl`, as Python's `x & 2`
      on the two's-complement value: the two lowest bits are `x % 4`
      (Dafny's `%` is never negative), and bit 0x2 is set when they are
      `10` or `11`. */
  predicate DisabledBit(x: int) {
    x % 4 >= 2
  }

  /** The same bit read by halving: the lowest bit of `x / 2`. */
  lemma DisabledBitHalving(x: int)
    ensures DisabledBit(x) <==> (x / 2) % 2 == 1
  {
  }

  /** The values directories commonly hold: a normal account (512), a
      disabled one (514), and both with "password never expires" (66048,
      66050). */
  lemma DisabledBitExamples()
    ensures !DisabledBit(512) && DisabledBit(514) && !DisabledBit(66048) && DisabledBit(66050)
    ensures DisabledBit(-2) && !DisabledBit(-3)
  {
  }

  /** `is_user_active(email)`: fails closed. A fault, a missing entry or an
      entry without `userAccountControl` is inactive. */
  function IsUserActive(dir: Directory, email: string): (r: bool)
    ensures r <==> (dir.fault.None? && FindByMail(Search(dir), email).Some? &&
      var a := Search(dir)[FindByMail(Search(dir), email).value];
      a.uac.Some? && !DisabledBit(a.uac.value))
  {
    if dir.fault.Some? then false
    else match FindByMail(Search(dir), email)
      case None => false
      case Some(i) =>
        match Search(dir)[i].uac
        case None => false
        case Some(x) => !DisabledBit(x)
  }

  // ---------------------------------------------------------------------
  // check_group_membership
  // ---------------------------------------------------------------------

  datatype GroupError = GroupNotConfigured | GroupFault(fault: Fault)

  /** `check_group_membership(email)`: raises `ValueError` when `AD_GROUP` is
      unset or empty and lets a directory fault propagate, among them the
      `LDAPBindError` of a refused bind, which ldap3 raises when the `with`
      block binds; otherwise tells whether the search finds some entry with
      this mail in the group's nested chain. */
  function CheckGroupMembership(dir: Directory, groupDn: Option<string>, email: string): (r: Result<bool, GroupError>)
    ensures r == Err(GroupNotConfigured) <==> groupDn.None? || groupDn.value == ""
    ensures r.Ok? <==> groupDn.Some? && groupDn.value != "" && dir.fault.None?
    ensures r == Ok(true) <==> (groupDn.Some? && groupDn.value != "" && dir.fault.None? &&
      exists i :: 0 <= i < |Search(dir)| && Search(dir)[i].mail == Some(email) && groupDn.value in Search(dir)[i].groups)
  {
    if groupDn.None? || groupDn.value == "" then Err(GroupNotConfigured)
    else if dir.fault.Some? then Err(GroupFault(dir.fault.value))
    else Ok(AnyMemberWithMail(Search(dir), email, groupDn.value))
  }

  /** A refused bind raises and is an error; an unbound connection that
      raised nothing finds no entries, so the answer is no. */
  lemma GroupCheckWithoutBind(dir: Directory, groupDn: Option<string>, email: string)
    requires groupDn.Some? && groupDn.value != ""
    ensures dir.fault.Some? && dir.fault.value.BindFault? ==>
      CheckGroupMembership(dir, groupDn, email) == Err(GroupFault(dir.fault.value))
    ensures dir.fault.None? && !dir.bound ==> CheckGroupMembership(dir, groupDn, email) == Ok(false)
    ensures dir.fault.None? && !dir.bound ==> !IsUserActive(dir, email)
  {
  }

  function AnyMemberWithMail(accounts: seq<Account>, email: string, group: string): (r: bool)
    ensures r <==> exists i :: 0 <= i < |accounts| && accounts[i].mail == Some(email) && group in accounts[i].groups
  {
    if accounts == [] then false
    else if accounts[0].mail == Some(email) && group in accounts[0].groups then true
    else
      var rest := AnyMemberWithMail(accounts[1..], email, group);
      assert rest ==> exists i :: 0 <= i < |accounts| && accounts[i].mail == Some(email) && group in accounts[i].groups by {
        if rest {
          var i :| 0 <= i < |accounts[1..]| && accounts[1..][i].mail == Some(email) && group in accounts[1..][i].groups;
          assert accounts[i + 1] == accounts[1..][i];
        }
      }
      rest
  }

  // ---------------------------------------------------------------------
  // fetch_ad_users
  // ---------------------------------------------------------------------

  /** One row of the users table as `fetch_ad_users` produces it. */
  datatype UserRecord = UserRecord(username: string, name: string, email: string, phone: string)

  function OrEmpty(v: Option<string>): string {
    match v case None => "" case Some(s) => s
  }

  /** The mapping of one entry: `name` falls back to `sAMAccountName`,
      `email` and `phone` default to the empty text. An entry without
      `sAMAccountName` is taken to raise `AttributeError` and is skipped;
      that reading of ldap3's entries is an assumption about the library,
      which is not part of this model. */
  function MapEntry(a: Account): Option<UserRecord> {
    match a.samAccountName
    case None => None
    case Some(user) =>
      Some(UserRecord(user, match a.displayName case None => user case Some(n) => n, OrEmpty(a.mail), OrEmpty(a.phone)))
  }

  /** The records of all mappable entries, in search order. */
  function MappedUsers(entries: seq<Account>): (r: seq<UserRecord>)
    ensures |r| <= |entries|
  {
    if entries == [] then []
    else
      MappedUsers(entries[..|entries| - 1]) +
      (match MapEntry(entries[|entries| - 1]) case None => [] case Some(u) => [u])
  }

  /** Entries that all carry `sAMAccountName` map one to one, in order. */
  lemma {:induction false} MappedUsersComplete(entries: seq<Account>)
    requires forall i :: 0 <= i < |entries| ==> entries[i].samAccountName.Some?
    ensures |MappedUsers(entries)| == |entries|
    ensures forall i :: 0 <= i < |entries| ==> MappedUsers(entries)[i] == MapEntry(entries[i]).value
  {
    if entries != [] {
      MappedUsersComplete(entries[..|entries| - 1]);
    }
  }

  /** Every record comes from an entry: its user name is the entry's
      `sAMAccountName` and its name that entry's display name or, lacking
      one, the user name. */
  lemma {:induction false} MappedUsersSource(entries: seq<Account>, k: int)
    requires 0 <= k < |MappedUsers(entries)|
    ensures exists i :: 0 <= i < |entries| && MapEntry(entries[i]) == Some(MappedUsers(entries)[k])
  {
    var init := entries[..|entries| - 1];
    var last := entries[|entries| - 1];
    if k < |MappedUsers(init)| {
      MappedUsersSource(init, k);
      var i :| 0 <= i < |init| && MapEntry(init[i]) == Some(MappedUsers(init)[k]);
      assert entries[i] == init[i];
    } else {
      assert MapEntry(entries[|entries| - 1]) == Some(MappedUsers(entries)[k]);
    }
  }

  lemma MapEntryDefaults(a: Account)
    requires a.samAccountName.Some?
    ensures MapEntry(a).Some?
    ensures MapEntry(a).value.username == a.samAccountName.value
    ensures a.displayName.None? ==> MapEntry(a).value.name == a.samAccountName.value
    ensures a.mail.None? ==> MapEntry(a).value.email == ""
    ensures a.phone.None? ==> MapEntry(a).value.phone == ""
  {
  }

  /** The loop over `conn.entries` that appends each mapped entry. */
  method MapEntries(entries: seq<Account>) returns (users: seq<UserRecord>)
    ensures users == MappedUsers(entries)
  {
    users := [];
    var i := 0;
    while i < |entries|
      invariant 0 <= i <= |entries|
      invariant users == MappedUsers(entries[..i])
    {
      assert entries[..i + 1][..i] == entries[..i];
      match MapEntry(entries[i]) {
        case None =>
        case Some(u) => users := users + [u];
      }
      i := i + 1;
    }
    assert entries[..i] == entries;
  }

  /** The first successful attempt among `from .. retries`, if any. */
  function FirstSuccess(retries: int, connect: nat -> Result<seq<Account>, Fault>, from: nat): (k: Option<nat>)
    requires from >= 1
    ensures k.Some? ==> from <= k.value <= retries && connect(k.value).Ok?
    ensures k.Some? ==> forall j :: from <= j < k.value ==> connect(j).Err?
    ensures k.None? ==> forall j :: from <= j <= retries ==> connect(j).Err?
    decreases retries - from
  {
    if from > retries then None
    else if connect(from).Ok? then Some(from)
    else FirstSuccess(retries, connect, from + 1)
  }

  /** `fetch_ad_users(retries)`: attempts 1 to `retries` in turn, sleeping
      after every failed attempt but the last; returns the mapped users of
      the first successful attempt, re-raises the last attempt's fault when
      all fail, and returns an empty list when no attempt is allowed.
      `connect(k)` is what attempt `k` yields; `sleeps` counts the delays. */
  method FetchAdUsers(retries: int, connect: nat -> Result<seq<Account>, Fault>)
    returns (r: Result<seq<UserRecord>, Fault>, sleeps: nat)
    ensures retries <= 0 ==> r == Ok([]) && sleeps == 0
    ensures retries > 0 ==> match FirstSuccess(retries, connect, 1)
      case Some(k) => r == Ok(MappedUsers(connect(k).value)) && sleeps == k - 1
      case None => r == Err(connect(retries).error) && sleeps == retries - 1
  {
    sleeps := 0;
    var attempt: nat := 1;
    while attempt <= retries
      invariant 1 <= attempt
      invariant retries > 0 ==> attempt <= retries
      invariant retries <= 0 ==> attempt == 1
      invariant forall j :: 1 <= j < attempt ==> connect(j).Err?
      invariant sleeps == attempt - 1
      decreases retries - attempt
    {
      match connect(attempt) {
        case Ok(entries) =>
          var users := MapEntries(entries);
          assert FirstSuccess(retries, connect, attempt) == Some(attempt);
          FirstSuccessFrom(retries, connect, attempt);
          r := Ok(users);
          return;
        case Err(fault) =>
          if attempt < retries {
            sleeps := sleeps + 1;
          } else {
            FirstSuccessFrom(retries, connect, attempt);
            r := Err(fault);
            return;
          }
      }
      attempt := attempt + 1;
    }
    r := Ok([]);
  }

  /** Failed attempts before `from` do not change the first success. */
  lemma FirstSuccessFrom(retries: int, connect: nat -> Result<seq<Account>, Fault>, from: nat)
    requires from >= 1
    requires forall j :: 1 <= j < from ==> connect(j).Err?
    ensures FirstSuccess(retries, connect, 1) == FirstSuccess(retries, connect, from)
    decreases from
  {
    if from > 1 {
      FirstSuccessFrom(retries, connect, from - 1);
      SkipFailure(retries, connect, from - 1);
    }
  }

  lemma SkipFailure(retries: int, connect: nat -> Result<seq<Account>, Fault>, from: nat)
    requires from >= 1 && connect(from).Err?
    ensures FirstSuccess(retries, connect, from) == FirstSuccess(retries, connect, from + 1)
  {
  }

  // ---------------------------------------------------------------------
  // get_password_expiry
  // ---------------------------------------------------------------------

  /** The exceptions `get_password_expiry` turns into its `error` field. */
  datatype ExpiryError =
    | PolicyNotInteger(text: string)
    | PolicyNotPositive
    | PolicyTooLong(days: int)
    | ExpiryFault(fault: Fault)
    | UserNotFound(email: string)
    | PwdNotInteger(detail: string)
    | DateOutOfRange

  /** The largest C `int`. `timedelta` converts its day count to one before
      checking the magnitude, so a larger count fails with the conversion's
      `OverflowError` instead. */
  const MaxCInt: int := 2147483647
  const CIntOverflowText := "Python int too large to convert to C int"

  /** `str(e)` of each exception. */
  function ExpiryErrorText(e: ExpiryError): string {
    match e
    case PolicyNotInteger(t) => "invalid literal for int() with base 10: '" + t + "'"
    case PolicyNotPositive => "AD_PASSWORD_POLICY_DAYS debe ser mayor a 0"
    case PolicyTooLong(d) =>
      if d > MaxCInt then CIntOverflowText else "days=" + IntToString(d) + "; must have magnitude <= 999999999"
    case ExpiryFault(f) => f.detail
    case UserNotFound(m) => "Usuario " + m + " no encontrado en AD"
    case PwdNotInteger(d) => d
    case DateOutOfRange => "date value out of range"
  }

  /** A policy beyond `timedelta`'s limit is reported with the magnitude
      message up to the largest C `int`, and with the conversion's message
      above it. */
  lemma OversizedPolicyText(d: int)
    requires d > MaxTimedeltaDays
    ensures ExpiryErrorText(PolicyTooLong(d)) == CIntOverflowText <==> d > MaxCInt
  {
    if d <= MaxCInt {
      var t := "days=" + IntToString(d) + "; must have magnitude <= 999999999";
      assert t[0] == 'd' && CIntOverflowText[0] == 'P';
    }
  }

  /** The result record: everything but `email` and `is_expired` starts as
      `None`, and `is_expired` as `True`. */
  datatype ExpiryInfo = ExpiryInfo(
    email: string,
    expiryDate: Option<string>,
    daysRemaining: Option<int>,
    isExpired: bool,
    error: Option<ExpiryError>)

  const DefaultPolicyDays := 180

  /** The instant of the last password change: a datetime is used as is, any
      other value goes through `int()` and is read as FILETIME ticks. */
  function LastSet(v: PwdValue): Result<Instant, ExpiryError> {
    match v
    case PwdTime(at) => Ok(at)
    case PwdAbsent =>
      Err(PwdNotInteger("int() argument must be a string, a bytes-like object or a real number, not 'NoneType'"))
    case PwdTicks(n) =>
      (match FromFiletime(n) case None => Err(DateOutOfRange) case Some(t) => Ok(t))
    case PwdText(s) =>
      match ParseInt(s)
      case None => Err(PwdNotInteger("invalid literal for int() with base 10: '" + s + "'"))
      case Some(n) => match FromFiletime(n) case None => Err(DateOutOfRange) case Some(t) => Ok(t)
  }

  /** The expiry instant, or the first exception on the way: the policy is
      read and checked, the entry is looked up, its `pwdLastSet` converted and
      the policy added. */
  function ExpiryOf(dir: Directory, policyEnv: Option<string>, email: string): (r: Result<Instant, ExpiryError>)
    ensures r.Ok? ==>
      (exists p ::
        && PolicyDays(policyEnv, DefaultPolicyDays) == Some(p) && p > 0
        && FindByMail(Search(dir), email).Some?
        && LastSet(Search(dir)[FindByMail(Search(dir), email).value].pwdLastSet).Ok?
        && r.value == LastSet(Search(dir)[FindByMail(Search(dir), email).value].pwdLastSet).value + p * MicrosPerDay)
    ensures PolicyDays(policyEnv, DefaultPolicyDays).None? ==> r == Err(PolicyNotInteger(policyEnv.value))
    ensures (exists p :: PolicyDays(policyEnv, DefaultPolicyDays) == Some(p) && p <= 0) ==> r == Err(PolicyNotPositive)
    ensures PolicyDays(policyEnv, DefaultPolicyDays).Some? && PolicyDays(policyEnv, DefaultPolicyDays).value > 0 ==>
      (dir.fault.Some? ==> r == Err(ExpiryFault(dir.fault.value))) &&
      (dir.fault.None? && FindByMail(Search(dir), email).None? ==> r == Err(UserNotFound(email)))
  {
    match PolicyDays(policyEnv, DefaultPolicyDays)
    case None => Err(PolicyNotInteger(policyEnv.value))
    case Some(p) =>
      if p <= 0 then Err(PolicyNotPositive)
      else if dir.fault.Some? then Err(ExpiryFault(dir.fault.value))
      else match FindByMail(Search(dir), email)
        case None => Err(UserNotFound(email))
        case Some(i) =>
          match LastSet(Search(dir)[i].pwdLastSet)
          case Err(e) => Err(e)
          case Ok(last) =>
            if p > MaxTimedeltaDays then Err(PolicyTooLong(p))
            else match AddDays(last, p)
              case None => Err(DateOutOfRange)
              case Some(expiry) => Ok(expiry)
  }

  /** `get_password_expiry(email)` at the instant `now`: the record starts
      as "expired, nothing known"; any exception sets only `error`, and the
      date, the remaining days and the expired flag are set together from
      the expiry instant, with whole days rounded down. */
  method GetPasswordExpiry(dir: Directory, policyEnv: Option<string>, email: string, now: Instant)
    returns (info: ExpiryInfo)
    ensures info.email == email
    ensures info.error.Some? <==> info.daysRemaining.None?
    ensures info.expiryDate.Some? <==> info.daysRemaining.Some?
    ensures info.error.Some? ==> info.isExpired
    ensures info.daysRemaining.Some? ==> info.isExpired == (info.daysRemaining.value < 0)
    ensures match ExpiryOf(dir, policyEnv, email)
      case Err(e) => info.error == Some(e)
      case Ok(expiry) =>
        info.expiryDate == Some(FormatUtc(expiry)) &&
        info.daysRemaining == Some(DaysBetween(expiry, now)) &&
        (info.isExpired <==> expiry < now)
  {
    info := ExpiryInfo(email, None, None, true, None);
    var policy := PolicyDays(policyEnv, DefaultPolicyDays);
    if policy.None? {
      info := info.(error := Some(PolicyNotInteger(policyEnv.value)));
      return;
    }
    var p := policy.value;
    if p <= 0 {
      info := info.(error := Some(PolicyNotPositive));
      return;
    }
    if dir.fault.Some? {
      info := info.(error := Some(ExpiryFault(dir.fault.value)));
      return;
    }
    var found := FindByMail(Search(dir), email);
    if found.None? {
      info := info.(error := Some(UserNotFound(email)));
      return;
    }
    var last := LastSet(Search(dir)[found.value].pwdLastSet);
    if last.Err? {
      info := info.(error := Some(last.error));
      return;
    }
    if p > MaxTimedeltaDays {
      info := info.(error := Some(PolicyTooLong(p)));
      return;
    }
    var expiry := AddDays(last.value, p);
    if expiry.None? {
      info := info.(error := Some(DateOutOfRange));
      return;
    }
    var days := DaysBetween(expiry.value, now);
    DaysBetweenNegative(expiry.value, now);
    info := info.(expiryDate := Some(FormatUtc(expiry.value)), daysRemaining := Some(days), isExpired := days < 0);
  }

  /** A password set exactly `p` policy days before `now` expires now: no day
      remains and it is not yet expired; a microsecond later it is. */
  lemma ExpiryBoundary(last: Instant, p: int, now: Instant)
    requires 0 < p <= MaxTimedeltaDays
    requires AddDays(last, p).Some?
    ensures AddDays(last, p).value == now ==> DaysBetween(now, now) == 0
    ensures AddDays(last, p).value + 1 == now ==> DaysBetween(AddDays(last, p).value, now) == -1
    ensures DaysBetween(AddDays(last, p).value, last) == p
  {
    DaysAtExpiry(AddDays(last, p).value);
  }

  /** A policy of zero or fewer days is refused before the directory is
      consulted, whatever the directory holds. */
  lemma NonPositivePolicyFails(dir: Directory, text: string, email: string)
    requires ParseInt(text).Some? && ParseInt(text).value <= 0
    ensures ExpiryOf(dir, Some(text), email) == Err(PolicyNotPositive)
  {
  }

  /** A `pwdLastSet` of 0 (the password must be changed at next logon)
      reads as 1601-01-01, so the password counts as expired long ago. */
  lemma NeverSetPassword(dir: Directory, email: string)
    requires dir.fault.None? && FindByMail(Search(dir), email).Some?
    requires Search(dir)[FindByMail(Search(dir), email).value].pwdLastSet == PwdTicks(0)
    ensures ExpiryOf(dir, None, email) == Ok(180 * MicrosPerDay)
  {
  }

  /** An unset policy variable means 180 days. */
  lemma DefaultPolicy(dir: Directory, email: string, last: Instant)
    requires dir.fault.None? && FindByMail(Search(dir), email).Some?
    requires Search(dir)[FindByMail(Search(dir), email).value].pwdLastSet == PwdTime(last)
    requires InRange(last + 180 * MicrosPerDay)
    ensures ExpiryOf(dir, None, email) == Ok(last + 180 * MicrosPerDay)
  {
  }
}
