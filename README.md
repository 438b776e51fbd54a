# Password-change bot: a Dafny model

This project models the core of a Telegram bot for an organisation's Active
Directory, together with the scripts and web panel around it. A user shares
their phone contact. The bot looks the phone number up in a local copy of the
directory's users. If the account is active, the bot opens a 30-minute session
and offers a menu:

- the user can check when their own password expires;
- the user can change their own password;
- members of an administrators' group can also check or change another
  user's password.

The model covers:

- **Conversation steps.** Each handler is one step over the chat's state: the
  state of each conversation, the scratch map that holds a typed password
  between two steps, and the sessions table.
  - `Engine` models both copies of the engine: `telegram_bot/handlers.py` and
    the older `bot_handler/bot_handler.py`.
  - Each step returns what it sent and called, in order, as a sequence of
    effects: messages, the deletion of the message that held a password, the
    call that changes a password in the directory, and the notification mails.
  - This lets the model state which paths reach the password change, which
    paths clear the stored password, and where Python's `finally: return`
    decides the outcome.
- **Sessions** (`Sessions`). A session is valid while `now <= last_updated`.
  Every save resets that instant to 30 minutes ahead, which overrides the
  duration a caller assigned. Deletion returns a count.
- **Users table** (`UsersDb`). The bulk refresh is atomic. Phone lookup returns
  the first exact match.
- **Directory operations** (`AdOperations`), with time in `Chrono`:
  - the UTF-16LE `unicodePwd` value;
  - the password change and its messages;
  - the disabled bit of `userAccountControl`;
  - nested-group membership;
  - the bounded retry loop of the user import and its entry mapping;
  - the expiry computation: FILETIME ticks, days rounded down as Python's
    `timedelta.days` does, and a result record that fails closed.
- **Nightly expiry warning** (`ExpirationJob`): who is warned, the count, and
  the administrators' summary.
- **Small codecs**:
  - MarkdownV2 escaping (`Markdown`);
  - the e-mail syntax check (`EmailSyntax`);
  - the greeting and the administrators' list (`BotText`);
  - the boolean settings table and the log line (`AppSettings`);
  - the services page: uptime formatter, CSRF cookie reader and the start/stop
    toggle with its status poll (`ServicesPanel`).

Time is an integer number of microseconds since 1601-01-01 UTC, the FILETIME
epoch.

The directory, the clock and hour, the configuration variables, mail delivery
and ISO-8601 parsing are inputs to each step:

- outside `Engine`, they are parameters of each operation;
- inside `Engine`, they are the fields of `Env`;
- in the confirmation steps, the directory's answer to a change request is a
  function parameter (`call`). The class methods pass the concrete directory's
  answer, `DirectoryCall(env)`.

The code behaves as follows where a reader might expect otherwise:

- `check_group_membership` raises when `AD_GROUP` is unset, and it lets a
  directory fault propagate. It does not answer "not a member". Its callers
  turn the exception into an internal-error reply, or into a failed login in
  `handle_contact`.
- In both `process_new_password` steps, the message holding the password is
  deleted before the password is stored. If the deletion fails, the step ends
  the conversation with an error and stores nothing; it is not a logged,
  non-fatal event.
- In the newer copy, a mismatched confirmation of one's own password asks for
  the password again; the older copy aborts.
- The newer copy clears the scratch only after a successful change or an
  exception. When the directory refuses the change, the typed password stays
  stored (`ConfirmOwnScratch`).
- `process_email` validates the address, but its `finally` returns `END`. An
  empty or malformed address therefore ends the administrator's expiry check
  instead of asking again (`ChatEngine.ProcessEmail`).
- `SESSION_DURATION` is read and assigned by `verify_session` and
  `handle_contact`, but `Session.save` overwrites it with 30 minutes
  (`SaveOverridesDuration`).

## Model

Lemmas about one literal input (the `…Example` lemmas, `CivilOf…`, `DaysOf…`, `YearDigits`, `PadExamples`, `DateText`, `StripPadded`, `QuotedYes`, `QuotedOn` and the like) only illustrate a definition. The properties are carried by the all-inputs lemmas beside them.

| member | source | states |
|---|---|---|
| Common.TrimStart | telegram_bot/handlers.py:150 | the result is a suffix of the input; it does not start with a dropped character; every removed character is a dropped one (`lstrip`) |
| Common.TrimEnd | web_interface/models.py:33 | the result is a prefix of the input; it does not end with a dropped character; every removed character is a dropped one |
| Common.TrimStartNoop | telegram_bot/handlers.py:150 | a text that does not start with a dropped character is its own left strip |
| Common.TrimEndNoop | web_interface/models.py:33 | a text that does not end with a dropped character is its own right strip |
| Common.TrimIdempotent | telegram_bot/handlers.py:221 | stripping twice equals stripping once, and nothing strippable is left at either end |
| Common.TrimSlice | telegram_bot/handlers.py:234 | a stripped text is a contiguous piece of the input |
| Common.LowerAscii | telegram_bot/handlers.py:312 | `.lower()` on ASCII: same length, each character lower-cased on its own |
| Common.Split | telegram_bot/handlers.py:271 | `split(",")` yields at least one part, and no part contains the separator |
| Common.JoinSplit | telegram_bot/management/commands/password_expiration.py:153-155 | joining the parts of a split with the same separator gives the text back |
| Common.JoinLength | telegram_bot/management/commands/password_expiration.py:154 | the length of `'\n'.join` is the parts' lengths plus one separator between each pair |
| Common.NatToString | telegram_bot/handlers.py:432 | `str(n)` of a natural number is never empty |
| Common.Pad2 | ad_connector/ad_operations.py:338 | two-digit fields are at least two characters wide |
| Common.NatToStringDigits | telegram_bot/handlers.py:432 | `str(n)` gives decimal digits whose value is `n` |
| Common.ParseSignedDigits | ad_connector/ad_operations.py:277 | `int()` reads a digit string as its value, and a leading `-` negates it |
| Common.DigitNotWhitespace | ad_connector/ad_operations.py:277 | digits and the minus sign are not whitespace for `strip()` |
| Common.ParseIntToString | ad_connector/ad_operations.py:277 | `int(str(i)) == i` for every integer |
| Common.StripNoop | ad_connector/ad_operations.py:277 | `strip()` leaves a text with no whitespace at either end unchanged |
| Common.PyStrip | telegram_bot/handlers.py:312 | `strip()` with no argument: the whitespace characters of Python removed from both ends; TrimSlice, TrimIdempotent and StripNoop state what it keeps |
| Common.ParseInt | ad_connector/ad_operations.py:277 | `int()` of a text; ParseSignedDigits and ParseIntToString state which texts it reads and that it inverts `str()` |
| Chrono.FromFiletime | ad_connector/ad_operations.py:319-324 | the instant is the tick count divided by 10 and rounded down; the result is absent exactly when that instant is outside the `datetime` range (OverflowError) |
| Chrono.AddDays | ad_connector/ad_operations.py:329 | `+ timedelta(days=p)` adds exactly `p` days; it fails beyond 999999999 days or outside the calendar range |
| Chrono.DaysBetween | ad_connector/ad_operations.py:334 | `(expiry - now).days` is rounded toward minus infinity: `d` days means `d <= difference < d + 1` days |
| Chrono.DaysBetweenNegative | ad_connector/ad_operations.py:340 | the day count is negative exactly when the expiry has passed, so `is_expired` agrees with `expiry < now` |
| Chrono.DaysAtExpiry | ad_connector/ad_operations.py:334-340 | the count is 0 at the expiry instant and -1 one microsecond later; it is 0 almost a day before and 1 a full day before |
| Chrono.DaysBetweenStep | ad_connector/ad_operations.py:334 | one day later, one day fewer remains |
| Chrono.DaysBetweenWhole | telegram_bot/management/commands/password_expiration.py:127-128 | counting from `days` days earlier gives exactly `days` |
| Chrono.PolicyDays | ad_connector/ad_operations.py:277 | an unset variable gives the default; a set one gives what `int()` reads from it |
| Chrono.CivilFromDays | ad_connector/ad_operations.py:338 | the computed month is in 1..12 and the day in 1..31 |
| Chrono.CivilOfFiletimeEpoch | ad_connector/ad_operations.py:321 | day 0 of the FILETIME epoch is 1601-01-01 |
| Chrono.CivilOfUnixEpoch | ad_connector/ad_operations.py:338 | 1970-01-01 is the Unix epoch day |
| Chrono.CivilOfMillenniumEve | ad_connector/ad_operations.py:338 | 1999-12-31 has the expected day number |
| Chrono.CivilOfLeapDay | ad_connector/ad_operations.py:338 | 2024-02-29 is a valid date with the expected day number |
| Chrono.CivilAfterLeapDay | ad_connector/ad_operations.py:338 | the day after 2024-02-29 is 2024-03-01 |
| Chrono.DaysOfFiletimeEpoch | ad_connector/ad_operations.py:321 | the inverse conversion maps 1601-01-01 back to its day number |
| Chrono.DaysOfLeapDay | ad_connector/ad_operations.py:338 | the inverse conversion maps 2024-02-29 back to its day number |
| Chrono.YearDigits | ad_connector/ad_operations.py:338 | the year 2024 is written `2024` |
| Chrono.PadExamples | ad_connector/ad_operations.py:338 | `%d`, `%m`, `%H` and `%M` pad to two digits |
| Chrono.DateText | ad_connector/ad_operations.py:338 | the pieces of the format join into `29/02/2024 12:34 UTC` |
| Chrono.FormatExample | ad_connector/ad_operations.py:338 | `strftime('%d/%m/%Y %H:%M UTC')` of 2024-02-29 12:34 is `29/02/2024 12:34 UTC` |
| Chrono.FormatUtc | ad_connector/ad_operations.py:338 | `strftime('%d/%m/%Y %H:%M UTC')`; its calendar fields are stated by CivilFromDays and the examples above |
| Markdown.EscapeLength | telegram_bot/handlers.py:86-88 | the output length is the input length plus the number of reserved characters |
| Markdown.EscapeAppend | telegram_bot/handlers.py:86-88 | escaping a concatenation is the concatenation of the escapes |
| Markdown.UnescapeEscape | telegram_bot/handlers.py:86-88 | removing each inserted backslash recovers the input |
| Markdown.EscapeWellEscaped | telegram_bot/handlers.py:86-88 | every reserved character of the output is preceded by a backslash, and every backslash starts such a pair |
| Markdown.EscapeUnescape | telegram_bot/handlers.py:86-88 | every well-escaped text is the escape of its unescaped form, so escaping is a bijection onto well-escaped texts |
| Markdown.Escape | telegram_bot/handlers.py:86-88 | a backslash before every MarkdownV2 reserved character; EscapeLength, EscapeWellEscaped, UnescapeEscape and EscapeUnescape state what it does |
| Markdown.EscapePlain | telegram_bot/handlers.py:86-88 | characters outside the reserved set pass through unchanged |
| EmailSyntax.FirstIndex | telegram_bot/handlers.py:314 | the position of the first occurrence of the character, or none when it does not occur |
| EmailSyntax.LastIndex | telegram_bot/handlers.py:314 | the position of the last occurrence of the character, or none when it does not occur |
| EmailSyntax.ScanShapeCorrect | telegram_bot/handlers.py:314 | the deterministic scanner accepts exactly the texts `L@D.T` with L over `[A-Za-z0-9._%+-]`, D over `[A-Za-z0-9.-]`, both non-empty, and `T` at least two letters |
| EmailSyntax.MatchesPatternCorrect | telegram_bot/handlers.py:314 | `re.match` of the pattern, including `$` matching before a final newline, is decided by the scanner |
| EmailSyntax.ValidEmailInputShape | telegram_bot/handlers.py:312-314 | the text is stripped and lower-cased first, and is accepted exactly when the result has the `L@D.T` form |
| EmailSyntax.MatchesPattern | telegram_bot/handlers.py:314 | `re.match` of the address pattern; MatchesPatternCorrect states the language it accepts |
| EmailSyntax.IsValidEmailInput | telegram_bot/handlers.py:312-314 | the text stripped, lower-cased and matched; ValidEmailInputShape states it |
| EmailSyntax.ShapeSingleAt | telegram_bot/handlers.py:314 | an accepted address holds exactly one `@` |
| EmailSyntax.AcceptsTaggedAddress | telegram_bot/handlers.py:314 | `user.name+tag@sub.example.com` is accepted |
| EmailSyntax.StripPadded | telegram_bot/handlers.py:312 | `strip()` drops the surrounding blank and newline |
| EmailSyntax.LowerExample | telegram_bot/handlers.py:312 | `lower()` of `Ana@Corp.IO` is `ana@corp.io` |
| EmailSyntax.AcceptsLowerExample | telegram_bot/handlers.py:314 | `ana@corp.io` matches the pattern |
| EmailSyntax.AcceptsPaddedCapitals | telegram_bot/handlers.py:312-314 | a padded, capitalised address is accepted |
| EmailSyntax.RejectsDoubleAt | telegram_bot/handlers.py:314 | `user@@example` is rejected |
| EmailSyntax.RejectsMissingAt | telegram_bot/handlers.py:314 | `no-at-sign.com` is rejected |
| EmailSyntax.RejectsEmptyDomain | telegram_bot/handlers.py:314 | `user@.com` is rejected |
| BotText.GreetingFor | bot_handler/bot_handler.py:82-90 | hours 5-11 are morning, 12-18 afternoon, every other hour night, each as an if-and-only-if |
| BotText.GreetingMatchesTable | telegram_bot/handlers.py:77-84 | each of the 24 hours maps to exactly the greeting of an hour-by-hour table |
| BotText.StrippedNonEmpty | telegram_bot/handlers.py:271 | the filtered list is no longer than the parts |
| BotText.StrippedNonEmptyMembers | telegram_bot/handlers.py:271 | an element is kept exactly when it is the non-empty stripped form of some part |
| BotText.StripClean | telegram_bot/handlers.py:271 | a stripped, non-blank comma-free part is a clean address |
| BotText.StrippedNonEmptyClean | telegram_bot/handlers.py:271 | every kept element of comma-free parts is non-blank, unpadded and comma-free |
| BotText.AdminListShape | telegram_bot/handlers.py:270-271 | `ADMIN_EMAILS` yields exactly the non-blank stripped comma-separated pieces, each clean |
| BotText.AdminList | telegram_bot/handlers.py:270-271 | the administrators' addresses from `ADMIN_EMAILS`; AdminListShape and AdminListBlank state what it keeps |
| BotText.StripBlank | telegram_bot/handlers.py:271 | a text holding only blanks strips to nothing |
| BotText.StrippedBlank | telegram_bot/handlers.py:271 | parts that are all blank give an empty list |
| BotText.SplitPieces | telegram_bot/handlers.py:271 | every character of a part is a character of the text |
| BotText.AdminListBlank | telegram_bot/handlers.py:270-272 | a value made only of commas and spaces, including the empty default of an unset `ADMIN_EMAILS`, gives an empty list, so the administrators are not notified |
| BotText.SplitNoSep | telegram_bot/handlers.py:271 | a text without a comma is one part |
| BotText.SplitAtSep | telegram_bot/handlers.py:271 | a comma splits off the part on its left |
| BotText.SplitExample | telegram_bot/handlers.py:271 | `" a@x, ,b@y"` splits into three parts |
| BotText.StripExamples | telegram_bot/handlers.py:271 | the three parts strip to `a@x`, empty and `b@y` |
| BotText.StrippedExample | telegram_bot/handlers.py:271 | the blank part is dropped |
| BotText.AdminListExample | telegram_bot/handlers.py:270-271 | `" a@x, ,b@y"` gives `["a@x", "b@y"]` |
| AdOperations.CharBytes | ad_connector/ad_operations.py:100 | a character is two UTF-16LE bytes, or four for a surrogate pair |
| AdOperations.EncodeUtf16Le | ad_connector/ad_operations.py:100 | the encoding has even length, between two and four bytes per character |
| AdOperations.DecodeCharBytes | ad_connector/ad_operations.py:100 | decoding reads one character back from the front of its bytes |
| AdOperations.DecodeEncode | ad_connector/ad_operations.py:100 | UTF-16LE decoding of the encoding gives the text back |
| AdOperations.EncodeAppend | ad_connector/ad_operations.py:100 | encoding a concatenation is the concatenation of the encodings |
| AdOperations.PasswordValueShape | ad_connector/ad_operations.py:100-101 | the `unicodePwd` value starts and ends with the quote's code unit and decodes to the quoted password |
| AdOperations.PasswordValue | ad_connector/ad_operations.py:100 | the double-quoted password encoded as UTF-16LE |
| AdOperations.FindByMail | ad_connector/ad_operations.py:85-97 | the first entry whose mail is the address, or none when no entry has it |
| AdOperations.ChangePassword | ad_connector/ad_operations.py:47-123 | a password is written only over a bound, secure connection (LDAPS or StartTLS) to the first entry found by mail, with the encoded value; the change succeeds exactly when the modify result code is 0; every failure, including every exception, returns its own message and never raises |
| AdOperations.ChangeMessagesDistinct | ad_connector/ad_operations.py:104-123 | the success message is returned exactly on success, unless an exception's own text happens to equal it |
| AdOperations.DisabledBitHalving | ad_connector/ad_operations.py:251 | the bit `x & 2` tests is the lowest bit of `x // 2`, for negative values too |
| AdOperations.DisabledBitExamples | ad_connector/ad_operations.py:251 | 512 and 66048 are enabled; 514 and 66050 are disabled; the test also holds for negative values |
| AdOperations.IsUserActive | ad_connector/ad_operations.py:227-258 | active exactly when there is no fault and the search over a bound connection finds an entry with `userAccountControl` whose bit 0x2 is clear; fails closed |
| AdOperations.CheckGroupMembership | ad_connector/ad_operations.py:200-225 | an unset or empty `AD_GROUP` is an error, a directory fault (a refused bind among them) is an error, since it raises rather than failing closed, and otherwise the answer is true exactly when the search over a bound connection finds an entry with that mail in the group's nested chain |
| AdOperations.Search | ad_connector/ad_operations.py:214-225 | a search over a connection that is not bound finds no entries |
| AdOperations.GroupCheckWithoutBind | ad_connector/ad_operations.py:214-225 | a refused bind raises, so the membership check fails with that fault; an unbound connection that raised nothing answers no, and the user is not active |
| AdOperations.AnyMemberWithMail | ad_connector/ad_operations.py:209-225 | true exactly when some entry has the mail and lists the group |
| AdOperations.MappedUsers | ad_connector/ad_operations.py:173-187 | there are no more records than entries |
| AdOperations.MappedUsersComplete | ad_connector/ad_operations.py:174-185 | when every entry has `sAMAccountName`, each maps to one record, in order |
| AdOperations.MappedUsersSource | ad_connector/ad_operations.py:174-185 | every record is the mapping of some entry |
| AdOperations.MapEntryDefaults | ad_connector/ad_operations.py:176-181 | `name` falls back to `sAMAccountName`; `email` and `phone` default to empty |
| AdOperations.MapEntry | ad_connector/ad_operations.py:176-181 | one directory entry as a user record; MapEntryDefaults states its fallbacks |
| AdOperations.MapEntries | ad_connector/ad_operations.py:173-187 | the loop builds exactly the records of the mappable entries, skipping the entries that raise `AttributeError` |
| AdOperations.FirstSuccess | ad_connector/ad_operations.py:129-195 | the first successful attempt in the range, with every earlier one failed, or none when all fail |
| AdOperations.FetchAdUsers | ad_connector/ad_operations.py:125-197 | `retries <= 0` gives `[]`; otherwise the first successful attempt gives its mapped users after one sleep per earlier failure; when all fail, the last fault is re-raised after `retries - 1` sleeps |
| AdOperations.FirstSuccessFrom | ad_connector/ad_operations.py:129-195 | failed attempts before `from` do not change the first success |
| AdOperations.SkipFailure | ad_connector/ad_operations.py:189-193 | a failed attempt passes on to the next |
| AdOperations.ExpiryOf | ad_connector/ad_operations.py:275-334 | the expiry instant is `pwdLastSet` plus the positive policy in days; a bad policy, a policy of zero or less, a fault and a missing user give their own errors, in that order |
| AdOperations.LastSet | ad_connector/ad_operations.py:311-324 | a datetime `pwdLastSet` is used as is, anything else goes through `int()` and is read as FILETIME ticks; NeverSetPassword states the tick reading |
| AdOperations.ExpiryErrorText | ad_connector/ad_operations.py:343-345 | `str(e)` of each exception `get_password_expiry` catches |
| AdOperations.OversizedPolicyText | ad_connector/ad_operations.py:329 | `timedelta(days=p)` beyond 999999999 days reports the C `int` conversion overflow exactly when `p` exceeds 2147483647, and the magnitude message otherwise |
| AdOperations.GetPasswordExpiry | ad_connector/ad_operations.py:262-348 | the record starts as expired with nothing known; any exception sets only `error`; otherwise the date, the remaining days (rounded down) and the expired flag are set together from the expiry instant |
| AdOperations.ExpiryBoundary | ad_connector/ad_operations.py:329-340 | at the expiry instant 0 days remain, so it is not yet expired; one microsecond later the count is -1; counted from the last change, the expiry lies exactly `p` days ahead |
| AdOperations.NonPositivePolicyFails | ad_connector/ad_operations.py:280-281 | a policy of zero or fewer days fails before the directory is consulted |
| AdOperations.NeverSetPassword | ad_connector/ad_operations.py:316-324 | `pwdLastSet = 0` reads as 1601-01-01, so the expiry lies 180 days after it |
| AdOperations.DefaultPolicy | ad_connector/ad_operations.py:277 | an unset policy variable means 180 days |
| Sessions.Saved | telegram_bot/models.py:29-31 | `save()` keeps the id, data, e-mail and creation time, refreshes `updated_at`, and makes the session valid exactly up to 30 minutes later |
| Sessions.SaveOverridesDuration | telegram_bot/models.py:29-31 | the expiry a caller assigns before saving has no effect |
| Sessions.SavedLiveWindow | telegram_bot/models.py:29-31 | a freshly saved session is valid exactly until 30 minutes after the save |
| Sessions.SessionStore.Get | telegram_bot/models.py:19 | the row exists exactly when its key is stored, and it is that row |
| Sessions.SessionStore.Save | telegram_bot/models.py:29-31 | the row is stored under its id as `save()` writes it |
| Sessions.SessionStore.VerifySession | telegram_bot/handlers.py:91-116 | accepted exactly when the row exists and `now <= last_updated`, and it is then saved; a missing or expired row gives its own notice and nothing is written; an exception is refused silently |
| Sessions.SessionStore.UpdateOrCreate | telegram_bot/handlers.py:172-180 | the user's row is replaced by the new e-mail, name, creation time and a 30-minute expiry |
| Sessions.SessionStore.DeleteSession | db_handler/db_handler.py:62-73 | the count is 1 exactly when a row existed and no database error occurred; afterwards no row with the key remains, and other keys are untouched |
| UsersDb.ToRows | db_handler/db_handler.py:39-47 | one row per record, in order, with `email` stored as `mail` and `phone` as `telephonenumber` |
| UsersDb.FirstByPhone | db_handler/db_handler.py:55-57 | the first row whose phone is exactly the number, or none |
| UsersDb.UserTable.RefreshUsers | db_handler/db_handler.py:30-49 | succeeds exactly when usernames are unique and the database does not fail, then replaces the whole table and returns the record count; otherwise the previous table is kept |
| UsersDb.UserTable.GetUserByPhone | db_handler/db_handler.py:51-60 | name and mail of the first row with exactly that phone, or none when there is no match or on a database error |
| UsersDb.LookupAfterRefresh | db_handler/db_handler.py:30-60 | after a refresh, a phone search finds the first record with that phone |
| UsersDb.DuplicateRefused | telegram_bot/models.py:8 | two records sharing a username are refused |
| AppSettings.GetBool | web_interface/models.py:31-36 | a missing key gives the default; otherwise true exactly when the lower-cased, quote-stripped value is one of `true`, `1`, `yes`, `on` |
| AppSettings.Normalise | web_interface/models.py:33 | `value.lower().strip("'\"")`; NormalWord, Unquote and ReadBoolPadded state what it removes and keeps |
| AppSettings.ReadBool | web_interface/models.py:33-34 | the normalised text is one of the true words; ReadWriteBool is its round trip with WriteBool |
| AppSettings.NoQuotes | web_interface/models.py:33 | stripping quotes leaves a quote-free text alone |
| AppSettings.NormalWord | web_interface/models.py:33 | a lower-case word is its own normal form |
| AppSettings.ReadWriteBool | web_interface/models.py:33-45 | reading back a written boolean gives the boolean |
| AppSettings.Unquote | web_interface/models.py:33 | quotes around a word are removed |
| AppSettings.QuotedYes | web_interface/models.py:33-34 | `'YES'` reads as true |
| AppSettings.QuotedOn | web_interface/models.py:33-34 | `"On"` reads as true |
| AppSettings.ReadBoolQuotedCapitals | web_interface/models.py:33-34 | capitals and surrounding quotes are ignored |
| AppSettings.ReadBoolPadded | web_interface/models.py:33-34 | whitespace is not stripped, so `" true"` reads as false |
| AppSettings.SetBoolRows | web_interface/models.py:39-45 | the table keeps one row per key, the key holds `true`/`false` and the description, other keys are untouched, and `get_bool` then returns the value |
| AppSettings.SettingsTable.SetBool | web_interface/models.py:39-45 | `set_bool` upserts that row, after which `get_bool` returns the value |
| AppSettings.LogEntryText | web_interface/models.py:18-19 | `[level] ` followed by the first 60 characters of the message |
| ExpirationJob.ReplaceZ | telegram_bot/management/commands/password_expiration.py:123-124 | no `Z` remains, and a text without `Z` is unchanged |
| ExpirationJob.Candidate | telegram_bot/management/commands/password_expiration.py:118-132 | an entry is warned exactly when it is not skipped, `userAccountControl == 512`, and 1 to 30 days remain |
| ExpirationJob.DaysLeft | telegram_bot/management/commands/password_expiration.py:118-128 | the remaining days of one entry, or none when it is skipped by the falsy test or an exception; Candidate and WarningWindow state its use |
| ExpirationJob.Warnings | telegram_bot/management/commands/password_expiration.py:116-141 | every warning is a user warning with 1 to 30 days; which warnings there are is stated by WarningsExactly |
| ExpirationJob.WarningsExactly | telegram_bot/management/commands/password_expiration.py:116-141 | a warning goes to a mail with some days exactly when an entry with that mail is a candidate with those days |
| ExpirationJob.Lines | telegram_bot/management/commands/password_expiration.py:137-143 | there are no more summary lines than warnings |
| ExpirationJob.LinesSource | telegram_bot/management/commands/password_expiration.py:137-143 | each summary line names a warned entry whose warning was delivered, with its remaining days |
| ExpirationJob.AllDelivered | telegram_bot/management/commands/password_expiration.py:137-143 | when every mail is delivered, every warned entry is listed |
| ExpirationJob.OnlyNormalAccounts | telegram_bot/management/commands/password_expiration.py:131 | accounts other than exactly 512 are never warned |
| ExpirationJob.WarningWindow | telegram_bot/management/commands/password_expiration.py:127-132 | 30 days left is warned; 0 days left is not |
| ExpirationJob.AdminMails | telegram_bot/management/commands/password_expiration.py:156-161 | one summary for each comma-separated part of `ADMIN_EMAILS`, stripped; blank parts are kept |
| ExpirationJob.NotifyEntries | telegram_bot/management/commands/password_expiration.py:113-150 | the loop sends a warning per candidate, adds a line per delivered warning, and keeps `count == len(notified_users)` |
| ExpirationJob.Handle | telegram_bot/management/commands/password_expiration.py:51-172 | a bad policy, an unset `ADMIN_EMAILS` or a directory fault fail the run before any mail; otherwise the warnings are followed by the summaries, which are sent only when some warning was delivered |
| ExpirationJob.NoSummaryWithoutNotices | telegram_bot/management/commands/password_expiration.py:152 | with nothing delivered there are no summary lines, so no summary |
| ServicesPanel.FixedFields | web_interface/static/web_interface/js/services.js:79-84 | every corrected field is within its range |
| ServicesPanel.RenderZero | web_interface/static/web_interface/js/services.js:91-93 | all-zero fields render as `00:00:00` |
| ServicesPanel.UptimeCollision | web_interface/static/web_interface/js/services.js:76-94 | as written, a 360-day uptime renders like zero |
| ServicesPanel.FixedFieldsLossless | web_interface/static/web_interface/js/services.js:79-84 | the corrected fields add back up to the total |
| ServicesPanel.FixedFieldsInjective | web_interface/static/web_interface/js/services.js:79-84 | two different uptimes never get the same corrected fields |
| ServicesPanel.FixedShowsMonths | web_interface/static/web_interface/js/services.js:86-93 | the corrected formatter shows 360 days as `12M, 00:00:00` |
| ServicesPanel.FormatUptime | web_interface/static/web_interface/js/services.js:76-93 | `formatUptime(totalSeconds)` as written; UptimeCollision states what it hides |
| ServicesPanel.FormatUptimeFixed | web_interface/static/web_interface/js/services.js:76-93 | the corrected formatter; FixedFieldsLossless and FixedFieldsInjective state that it hides nothing |
| ServicesPanel.UptimeText | web_interface/static/web_interface/js/services.js:97-105 | `updateUptime()`: the formatter as written while the bot runs with a start time, the placeholder otherwise |
| ServicesPanel.UptimeTextFixed | web_interface/static/web_interface/js/services.js:97-105 | the same display through the corrected formatter |
| ServicesPanel.FormatEndsInDigit | web_interface/static/web_interface/js/services.js:91-93 | both formatters end with the last digit of the seconds |
| ServicesPanel.UptimePlaceholder | web_interface/static/web_interface/js/services.js:97-105 | the placeholder `--:--:--` is shown exactly when the bot is not running or has no start time, with either formatter |
| ServicesPanel.FirstTrue | web_interface/static/web_interface/js/services.js:48-53 | the first marked position, or none |
| ServicesPanel.FirstTrueAt | web_interface/static/web_interface/js/services.js:48-53 | the loop stops at the first marked position |
| ServicesPanel.FirstTrueNone | web_interface/static/web_interface/js/services.js:48-53 | without a mark the loop finds nothing |
| ServicesPanel.Marks | web_interface/static/web_interface/js/services.js:49-50 | a cookie is marked exactly when, trimmed, it starts with `csrftoken=` |
| ServicesPanel.FirstTokenAt | web_interface/static/web_interface/js/services.js:48-53 | the token is the decoded rest of the first matching cookie |
| ServicesPanel.FirstTokenAbsent | web_interface/static/web_interface/js/services.js:44-57 | there is no token exactly when no cookie matches |
| ServicesPanel.ScanCookies | web_interface/static/web_interface/js/services.js:47-54 | the loop returns the token of the first matching cookie |
| ServicesPanel.MatchCookie | web_interface/static/web_interface/js/services.js:49-52 | one cookie matches exactly when its trimmed text starts with `csrftoken=`, and its value is the rest |
| ServicesPanel.GetCsrfToken | web_interface/static/web_interface/js/services.js:44-57 | an empty cookie string has no token; otherwise the token comes from the first matching `;`-separated cookie |
| ServicesPanel.StatusPanel.HandleStatusChange | web_interface/static/web_interface/js/services.js:128-151 | the first call only records the state; later calls notify the transitions, release the guard and the toggle when the bot stopped while a start request held the guard, and record the new state and start time |
| ServicesPanel.StatusPanel.PollRequest | web_interface/static/web_interface/js/services.js:155 | no poll is made while a start is in progress |
| ServicesPanel.StatusPanel.PollResponse | web_interface/static/web_interface/js/services.js:170-189 | a failed poll changes nothing; a successful one stores the new state and start time, releases the guard and the toggle when the bot stopped while a start request held the guard, redraws the toggle when the state or start time changed, runs the counter exactly for a running bot with a start time, and adds the transition notices computed against the already overwritten start time, so never the restart notice |
| ServicesPanel.StatusPanel.PollResponseFixed | web_interface/static/web_interface/js/services.js:170-189 | the same new state as PollResponse, with the transition notices computed against the previous start time, so that a restart is notified exactly when a running bot's start time changed |
| ServicesPanel.StatusPanel.StartRequest | web_interface/static/web_interface/js/services.js:196-199 | a start is ignored while another is in progress; otherwise it takes the guard and shows the spinner |
| ServicesPanel.StatusPanel.StartResponse | web_interface/static/web_interface/js/services.js:200-233 | the guard is released on every path; each reply gives its state, toggle and notice |
| ServicesPanel.StatusPanel.StopTelegram | web_interface/static/web_interface/js/services.js:237-269 | the guard is untouched; an accepted stop leaves the spinner; a refused or failed stop turns the toggle and the counter back on |
| ServicesPanel.StatusPanel.OnToggle | web_interface/static/web_interface/js/services.js:272-294 | while a start is in progress, the handler only restores the toggle; otherwise switching on starts the bot and switching off opens the dialog |
| ServicesPanel.StatusPanel.CancelStop | web_interface/static/web_interface/js/services.js:288-292 | dismissing the dialog closes it and turns the toggle back on; the bot state, start time, counter, guard, last known state and notices stay as they were |
| Engine.ChangeEffects | telegram_bot/handlers.py:263-281 | the change is called exactly once, first, with the address and password; on success the effects go on with the done notice and then the user's mail, and by the administrators' mail only if the list is non-empty, which names the address but never the password; on failure the directory's message is shown after the prefix |
| Engine.StripPlus | telegram_bot/handlers.py:150 | `lstrip('+')` removes exactly the leading plus signs |
| Engine.Menu | telegram_bot/handlers.py:182-191 | the own actions come first and the close button last; the administrators' row is present exactly for members |
| Engine.LoginAdmits | telegram_bot/handlers.py:154-191 | a user is admitted exactly when found, active and of known membership, and then with that contact and membership; an unknown phone and a disabled account get their own refusals |
| Engine.Login | telegram_bot/handlers.py:154-191 | the login checks of `handle_contact` in order; LoginAdmits states their outcome |
| Engine.ReportOfRecord | telegram_bot/handlers.py:458-465 | a record holding an error gives no report; a record built from an expiry instant gives that instant's report; the report sent unescapes back to it and is well escaped |
| Engine.BuildReport | telegram_bot/handlers.py:423-435 | running `get_password_expiry` and building the report gives the report of the expiry instant, or the error |
| Engine.ReportResult | telegram_bot/handlers.py:423-435 | the report of the expiry instant, or the error that prevents it; BuildReport ties it to the record |
| Engine.FailureText | telegram_bot/handlers.py:458-468 | the reported failure is never empty: the error's text, or the `TypeError` of `-None` when that text is empty and so not re-raised |
| Engine.ExpiredReportPositive | telegram_bot/handlers.py:430 | an expired report shows a positive number of days |
| Engine.ChangeIsCalled | telegram_bot/handlers.py:263-281 | a step whose effects include the change effects does call the directory |
| Engine.ConfirmOwnCalls | telegram_bot/handlers.py:232-289 | the directory is called exactly when the deletion succeeds, the stripped confirmation equals the stored non-empty password, and the session row has an e-mail |
| Engine.ConfirmOwnRefused | telegram_bot/handlers.py:232-289 | a confirmation that fails the deletion, has no stored password, mismatches, hits a database fault or a missing row, or has no session e-mail sends notices only and never calls the directory |
| Engine.ConfirmOwnStep | telegram_bot/handlers.py:232-289 | `process_password_confirmation` as a step; ConfirmOwnCalls, ConfirmOwnChange, ConfirmOwnNext and ConfirmOwnScratch state it |
| Engine.ConfirmOwnChange | telegram_bot/handlers.py:256-281 | a reached change calls the directory with the session's e-mail and the stored password, and what follows is its answer's effects |
| Engine.ConfirmOwnNext | telegram_bot/handlers.py:238-254 | only a mismatch returns to `GET_NEW_PASSWORD`; every other path ends |
| Engine.ConfirmOwnScratch | telegram_bot/handlers.py:249-289 | the scratch is cleared after success and after an exception, loses only the password on a mismatch, and keeps the typed password when the directory refuses the change |
| Engine.LegacyConfirmOwnCalls | bot_handler/bot_handler.py:256-295 | the older copy ends and clears the scratch on every path, a mismatch aborts, and the directory is called exactly when the change is reached |
| Engine.LegacyConfirmOwnStep | bot_handler/bot_handler.py:256-295 | the older copy's confirmation as a step; LegacyConfirmOwnCalls states it |
| Engine.ConfirmOtherCalls | telegram_bot/handlers.py:344-374 | the administrator's confirmation ends and clears the scratch on every path, and calls the directory exactly when the target and a matching password are stored, with those |
| Engine.ConfirmOtherStep | telegram_bot/handlers.py:344-374 | `process_user_password_confirmation` as a step; ConfirmOtherCalls states it |
| Engine.AnswerFor | telegram_bot/handlers.py:421-438 | the processing notice, then the escaped report, which unescapes back to it, or a failure notice; no change call, no mail |
| Engine.EmailAnswer | telegram_bot/handlers.py:412-438 | what `process_email` sends never changes a password or sends mail |
| Engine.EmailAnswerReport | telegram_bot/handlers.py:412-438 | a report is sent exactly for a non-empty, valid address whose expiry is known, and it unescapes to that address's report |
| Engine.AnswerEmail | telegram_bot/handlers.py:412-438 | computing the answer, including the directory query, gives the functional answer |
| Engine.ChatEngine.VerifySession | telegram_bot/handlers.py:91-116 | accepted exactly for a live session, which is then refreshed; a missing or expired session gets its notice; a database error is silent |
| Engine.ChatEngine.Refusal | telegram_bot/handlers.py:91-116 | what a refusing `verify_session` sends: nothing on a database error, else the notice of an expired or missing session |
| Engine.ChatEngine.Start | telegram_bot/handlers.py:470-491 | any existing session is deleted and the user is greeted by the hour and asked for the contact; a database error escapes before anything is sent |
| Engine.ChatEngine.HandleContact | telegram_bot/handlers.py:141-207 | another user's contact is refused; otherwise the login decides: a refusal sends its notice and writes nothing, and an admitted user gets a fresh 30-minute session and the menu of their membership |
| Engine.ChatEngine.Admit | telegram_bot/handlers.py:172-200 | the admitted user's session row is replaced with a fresh one and the welcome is sent with the menu |
| Engine.ChatEngine.TerminateBot | telegram_bot/handlers.py:118-139 | the session is deleted; the reply says closed exactly when a row was removed |
| Engine.ChatEngine.CheckExpiry | telegram_bot/handlers.py:447-468 | without a verified session the refusal notice and no write; otherwise the session is refreshed and the escaped report of the session's e-mail is sent when the expiry is known; a missing e-mail or an error record is reported as a failure with FailureText |
| Engine.ChatEngine.Cancel | telegram_bot/handlers.py:443-445 | ends the conversation and leaves the scratch untouched |
| Engine.ChatEngine.StartChangePassword | telegram_bot/handlers.py:210-217 | a verified session is refreshed and asked for the new password, going to `GET_NEW_PASSWORD`; otherwise the refusal notice is sent, nothing is written and the conversation ends |
| Engine.ChatEngine.ProcessNewPassword | telegram_bot/handlers.py:219-230 | stores the stripped text and asks for confirmation, but only after the message has been deleted |
| Engine.ChatEngine.ProcessPasswordConfirmation | telegram_bot/handlers.py:232-289 | the state, scratch and effects are those of the newer copy's confirmation step |
| Engine.ChatEngine.LegacyProcessPasswordConfirmation | bot_handler/bot_handler.py:256-295 | the state, scratch and effects are those of the older copy's confirmation step |
| Engine.ChatEngine.StartChangeUserPassword | telegram_bot/handlers.py:292-308 | without a verified session the refusal notice, no write and the end; otherwise the session is refreshed and only a member goes on; a non-member gets the restricted notice; a membership check that raises gives an internal error |
| Engine.ChatEngine.ProcessUserEmail | telegram_bot/handlers.py:310-329 | an invalid address asks again in `GET_USER_EMAIL`; a valid one is stored lower-cased and stripped as the target |
| Engine.ChatEngine.ProcessUserNewPassword | telegram_bot/handlers.py:331-342 | stores the stripped password only after its message has been deleted |
| Engine.ChatEngine.ProcessUserPasswordConfirmation | telegram_bot/handlers.py:344-374 | the state, scratch and effects are those of the administrator's confirmation step |
| Engine.ChatEngine.CheckUserExpiry | telegram_bot/handlers.py:377-406 | without a verified session the refusal notice, no write and nothing starts; otherwise the session is refreshed, a member is asked for the address, and a non-member or a failing check ends |
| Engine.ChatEngine.ProcessEmail | telegram_bot/handlers.py:408-441 | the conversation always ends; after a verified session the session is refreshed, the scratch is cleared, because the `finally` overrides `return GET_EMAIL`, and what is sent is the expiry answer; without one the refusal notice is sent, the scratch is kept and the session table is untouched |

## Left out

- The Telegram transport and the async runtime: sending, `ConversationHandler` routing between conversations, the event loop and its threads. A handler is a step over the chat's state. Outgoing `send_message` failures are not modelled.
- The wording of the messages. The catalogue `messages.json` can override each text and is not part of this model, so a message is a `Notice` naming it. Default texts are modelled only where they carry data, such as the checked expiry's error text.
- The LDAP network layer: servers, TLS, binds and timeouts. The directory is a value with its accounts and the outcome of each connection step.
- `get_ad_config()` raising, when `AD_PORT` is unset or not a number. It is not modelled.
- LDAP filter matching is modelled as exact equality on `mail`. Escaping of filter metacharacters in the address is left out.
- The content of the mails (SMTP and HTML templates). Only who is mailed, and that the administrators' notice carries the address and not the password, is modelled.
- The `log_event` file and database logging.
- Django persistence. Tables are maps and sequences, and a database error is a flag.
- `authenticate_user` in `ad_operations.py` is a stub that always succeeds. It and `web_interface/auth_backend.py` are not part of this model.
- Python's `int()` accepts underscores between digits and non-ASCII digits. The model's `ParseInt` reads only ASCII digits with an optional sign, inside whitespace.
- Lower-casing is ASCII-only (`LowerAscii`). Python's `lower()` also folds non-ASCII capitals.
- Chrono.FormatUtc: `%Y` of years below 1000 is zero-padded by some C libraries. The model writes the year without padding, and only example dates are proved. The calendar round trip `DaysFromCivil(CivilFromDays(z)) == z` is not proved for all days.
- `decodeURIComponent` is a parameter. `URIError` is the `DecodeFailed` token.
- The DOM, toastr and `setInterval` on the services page. The page state is the `StatusPanel` class, and the counter is a flag, not a timer.
- `SESSION_DURATION` has the default 30 in the newer copy and no default in the older one, where it fails at import. The model takes it as an input, and `Session.save` overrides it anyway.
- A message without text makes `process_new_password` and both confirmation steps raise before `chat_id` is set. The `except` then raises `UnboundLocalError`. The model takes the text as present.
- `notificar_cambio_contrasena_usuario` and `notificar_cambio_contrasena_admin` can raise. That would turn a successful change into the exception path. These calls are modelled as not raising.
- The directory's answer inside `Engine` is the function parameter `call`. The class methods pass `DirectoryCall(env)`, which is `AdOperations.ChangePassword` on the directory of the moment.
- ExpirationJob.NotifyEntries: the body is formatted with `%` after the two URLs have been put into it, so a `%` in `PASSWORD_CHANGE_URL` or `TELEGRAM_BOT_URL` makes the formatting raise or misread its argument. The model formats the body as if the URLs held no `%`. A raise would skip every entry.
- ExpirationJob.Handle: inherits the gap above. A URL holding `%` would send no warnings at all, which the model does not show. The error text for an `AD_PASSWORD_POLICY_DAYS` that `int()` refuses always quotes the value with `'` and copies it whole. Python's `repr` would pick the quote character, escape the value and truncate it at 200 characters.
- AdOperations.ExpiryErrorText: the `int()` error quotes its argument with `repr`, which picks the quote character, escapes, and truncates at 200 characters. The model always quotes with `'` and copies the text unchanged. An overflow while converting `pwdLastSet` is always rendered as `date value out of range`, although the `timedelta(microseconds=...)` of that conversion can raise with a message of its own. A policy beyond the `timedelta` limit has the magnitude message, or above the largest C `int` the conversion's message (OversizedPolicyText). Both texts come from CPython's C `datetime` module.
- AdOperations.MapEntry: an entry without `sAMAccountName` is skipped as if reading it raised `AttributeError`. Whether ldap3 raises there depends on how it returns absent attributes. If it returns one with value `None`, the source keeps the record with no username, which the model does not show.
- AdOperations.LastSet: a `pwdLastSet` that `int()` refuses is carried as its text (`PwdNotInteger`). The `repr` quoting of that text in Python's message is left out, as for ExpiryErrorText.
- ServicesPanel.StatusPanel.PollResponse: a start time is `Some` or `None`. JavaScript's `undefined` and `null` are both `None`, although `!==` tells them apart, so a reply that switches between the two is not seen as a change.
- Engine.EmailAnswer: its own contract states only that no password is changed and no mail is sent. What is sent is stated by `Engine.EmailAnswerReport` and `Engine.AnswerFor`.

## Findings

| source | as written | input that shows it | evidently intended | confidence | as-written member | corrected member |
|---|---|---|---|---|---|---|
| web_interface/static/web_interface/js/services.js:82-84 | days are taken modulo 30 and months modulo 12, each from the total, with 365-day years | 31104000 seconds (360 days) renders `00:00:00`, like a fresh start | months and days counted within the current year, so every second is shown | not executed | ServicesPanel.UptimeCollision | ServicesPanel.FixedFieldsLossless |
| web_interface/static/web_interface/js/services.js:175-178 | `startTime` is overwritten with the reply's start time before `handleStatusChange` compares the two | a poll reporting a running bot with a new start time shows no restart notice | compare the new start time with the previous one | not executed | ServicesPanel.StatusPanel.PollResponse | ServicesPanel.StatusPanel.PollResponseFixed |
