/** The chat sessions table. A session is keyed by the Telegram user id as
    text, carries the user's directory e-mail and display name, and stays
    valid until its `last_updated` instant; every save moves that instant
    to 30 minutes after the save. Times are integer microseconds. */
module Sessions {
  import opened Common
  import opened Chrono

  /** The window `Session.save` grants: 30 minutes from the save. */
  const SaveWindow: int := 30 * MicrosPerMinute

  datatype Session = Session(
    sessionId: string,
    sessionData: string,
    email: Option<string>,
    createdAt: int,
    updatedAt: int,
    lastUpdated: int)

  /** A session is valid while the clock has not passed its expiry. */
  predicate Live(s: Session, now: int) {
    now <= s.lastUpdated
  }

  /** The row `save()` writes at `now`: `updated_at` is refreshed and
      `last_updated` overwritten, whatever the caller had assigned to it;
      every other field is kept. */
  function Saved(s: Session, now: int): (r: Session)
    ensures r.sessionId == s.sessionId && r.sessionData == s.sessionData && r.email == s.email
    ensures r.createdAt == s.createdAt && r.updatedAt == now
    ensures Live(r, now + SaveWindow) && !Live(r, now + SaveWindow + 1)
  {
    s.(updatedAt := now, lastUpdated := now + SaveWindow)
  }

  /** The expiry a caller assigns before saving has no effect: a configured
      session duration of `d1` or `d2` minutes gives the same row. */
  lemma SaveOverridesDuration(s: Session, now: int, d1: int, d2: int)
    ensures Saved(s.(lastUpdated := now + d1 * MicrosPerMinute), now) ==
            Saved(s.(lastUpdated := now + d2 * MicrosPerMinute), now)
  {
  }

  /** A freshly saved session is valid exactly up to 30 minutes later. */
  lemma SavedLiveWindow(s: Session, now: int, later: int)
    ensures Live(Saved(s, now), later) <==> later <= now + SaveWindow
  {
  }

  /** Why `verify_session` refused: no row, or a row whose expiry passed. */
  datatype SessionNotice = SessionInactive | SessionExpired

  class SessionStore {
    var rows: map<string, Session>

    /** `session_id` is the primary key: each row is stored under its own
        id, so there is at most one session per user id. */
    ghost predicate Valid()
      reads this
    {
      forall k :: k in rows ==> rows[k].sessionId == k
    }

    constructor ()
      ensures rows == map[] && Valid()
    {
      rows := map[];
    }

    /** `Session.objects.get(session_id=key)`: `None` for `DoesNotExist`. */
    function Get(key: string): (r: Option<Session>)
      reads this
      ensures r.Some? <==> key in rows
      ensures r.Some? ==> r.value == rows[key]
    {
      if key in rows then Some(rows[key]) else None
    }

    /** `session.save()` at `now`. */
    method Save(s: Session, now: int)
      requires Valid()
      modifies this
      ensures Valid()
      ensures rows == old(rows)[s.sessionId := Saved(s, now)]
    {
      rows := rows[s.sessionId := Saved(s, now)];
    }

    /** `verify_session` at `now` with the configured `SESSION_DURATION` of
        `duration` minutes; `dbFault` stands for any exception while reading
        or saving the row. A live session is refreshed and accepted; a
        missing or expired one is refused with its notice and nothing is
        written; an exception is refused silently. */
    method VerifySession(userId: string, now: int, duration: int, dbFault: bool)
      returns (ok: bool, notice: Option<SessionNotice>)
      requires Valid()
      modifies this
      ensures Valid()
      ensures ok <==> !dbFault && userId in old(rows) && Live(old(rows)[userId], now)
      ensures ok ==> rows == old(rows)[userId := Saved(old(rows)[userId], now)]
      ensures !ok ==> rows == old(rows)
      ensures ok ==> notice.None?
      ensures notice == Some(SessionInactive) <==> !dbFault && userId !in old(rows)
      ensures notice == Some(SessionExpired) <==> !dbFault && userId in old(rows) && !Live(old(rows)[userId], now)
      ensures dbFault ==> notice.None?
    {
      if dbFault {
        return false, None;
      }
      var found := Get(userId);
      if found.None? {
        return false, Some(SessionInactive);
      }
      var s := found.value;
      if now > s.lastUpdated {
        return false, Some(SessionExpired);
      }
      Save(s.(lastUpdated := now + duration * MicrosPerMinute), now);
      return true, None;
    }

    /** `Session.objects.update_or_create(session_id=userId, defaults=...)`
        in `handle_contact`: the defaults set e-mail, name, `created_at`
        and expiry, and the save then sets `updated_at` and the 30-minute
        expiry, so an existing row is replaced as a whole. */
    method UpdateOrCreate(userId: string, name: string, mail: string, now: int, duration: int)
      requires Valid()
      modifies this
      ensures Valid()
      ensures rows == old(rows)[userId := Session(userId, name, Some(mail), now, now, now + SaveWindow)]
    {
      var s := if userId in rows then rows[userId] else Session(userId, "", None, now, now, now);
      Save(s.(email := Some(mail), sessionData := name, createdAt := now,
              lastUpdated := now + duration * MicrosPerMinute), now);
    }

    /** `delete_session(key)`: the number of rows removed, at most one
        because the key is the primary key; a database error removes
        nothing and reports 0. */
    method DeleteSession(key: string, dbFault: bool) returns (count: nat)
      requires Valid()
      modifies this
      ensures Valid()
      ensures count == if !dbFault && key in old(rows) then 1 else 0
      ensures dbFault ==> rows == old(rows)
      ensures !dbFault ==> rows == old(rows) - {key}
      ensures key !in rows || dbFault
    {
      if dbFault {
        return 0;
      }
      count := if key in rows then 1 else 0;
      rows := rows - {key};
    }
  }
}
