/** The local copy of the directory's users, refreshed in bulk from the
    directory and searched by phone number when a user shares a contact. */
module UsersDb {
  import opened Common
  import opened AdOperations

  /** One row of the users table. */
  datatype Usuario = Usuario(username: string, name: string, mail: string, telephonenumber: string)

  /** What `get_user_by_phone` returns: `{'name': ..., 'mail': ...}`. */
  datatype Contact = Contact(name: string, mail: string)

  /** `username` is declared unique. */
  predicate UniqueUsernames(rows: seq<Usuario>) {
    forall i, j :: 0 <= i < j < |rows| ==> rows[i].username != rows[j].username
  }

  /** The rows `refresh_users` builds: one per record, in order, with
      `email` stored as `mail` and `phone` as `telephonenumber`. */
  function ToRows(data: seq<UserRecord>): (rows: seq<Usuario>)
    ensures |rows| == |data|
    ensures forall i :: 0 <= i < |data| ==>
      rows[i] == Usuario(data[i].username, data[i].name, data[i].email, data[i].phone)
  {
    seq(|data|, i requires 0 <= i < |data| => Usuario(data[i].username, data[i].name, data[i].email, data[i].phone))
  }

  /** The first row with exactly this phone number, as `.first()` returns it
      on rows kept in insertion order. */
  function FirstByPhone(rows: seq<Usuario>, phone: string): (r: Option<nat>)
    ensures r.Some? ==> r.value < |rows| && rows[r.value].telephonenumber == phone
    ensures r.Some? ==> forall j :: 0 <= j < r.value ==> rows[j].telephonenumber != phone
    ensures r.None? ==> forall j :: 0 <= j < |rows| ==> rows[j].telephonenumber != phone
  {
    if rows == [] then None
    else if rows[0].telephonenumber == phone then Some(0)
    else match FirstByPhone(rows[1..], phone)
      case None => None
      case Some(i) => Some(i + 1)
  }

  /** Why a refresh was rolled back. */
  datatype RefreshError = DuplicateUsername | DatabaseFault

  class UserTable {
    var rows: seq<Usuario>

    ghost predicate Valid()
      reads this
    {
      UniqueUsernames(rows)
    }

    constructor ()
      ensures rows == [] && Valid()
    {
      rows := [];
    }

    /** `refresh_users(users_data)`, one transaction: the whole table is
        replaced by the records, or, when an insert fails (a repeated user
        name, any other database error), the exception is raised and the
        previous table is kept. */
    method RefreshUsers(data: seq<UserRecord>, dbFault: bool) returns (r: Result<nat, RefreshError>)
      requires Valid()
      modifies this
      ensures Valid()
      ensures r.Ok? <==> !dbFault && UniqueUsernames(ToRows(data))
      ensures r.Ok? ==> r.value == |data| && rows == ToRows(data)
      ensures r.Err? ==> rows == old(rows)
      ensures !dbFault && !UniqueUsernames(ToRows(data)) ==> r == Err(DuplicateUsername)
    {
      var built := ToRows(data);
      if dbFault {
        return Err(DatabaseFault);
      }
      if !UniqueUsernames(built) {
        return Err(DuplicateUsername);
      }
      rows := built;
      return Ok(|built|);
    }

    /** `get_user_by_phone(phone)`: name and mail of the first row whose
        phone is exactly `phone`; `None` when there is none or the query
        raises `DatabaseError`. */
    function GetUserByPhone(phone: string, dbFault: bool): (r: Option<Contact>)
      reads this
      ensures r.Some? <==> !dbFault && exists i :: 0 <= i < |rows| && rows[i].telephonenumber == phone
      ensures r.Some? ==>
        exists i :: 0 <= i < |rows| && rows[i].telephonenumber == phone &&
          r.value == Contact(rows[i].name, rows[i].mail) &&
          forall j :: 0 <= j < i ==> rows[j].telephonenumber != phone
    {
      if dbFault then None
      else match FirstByPhone(rows, phone)
        case None => None
        case Some(i) => Some(Contact(rows[i].name, rows[i].mail))
    }
  }

  /** After a refresh, a phone search finds the first directory record with
      that phone. */
  lemma {:induction false} LookupAfterRefresh(data: seq<UserRecord>, phone: string)
    ensures match FirstByPhone(ToRows(data), phone)
      case None => forall i :: 0 <= i < |data| ==> data[i].phone != phone
      case Some(i) =>
        i < |data| && data[i].phone == phone && (forall j :: 0 <= j < i ==> data[j].phone != phone)
  {
    var rows := ToRows(data);
    match FirstByPhone(rows, phone) {
      case None =>
        assert forall i :: 0 <= i < |data| ==> rows[i].telephonenumber == data[i].phone;
      case Some(i) =>
        assert forall j :: 0 <= j <= i ==> rows[j].telephonenumber == data[j].phone;
    }
  }

  /** A refreshed table with two records sharing a user name is refused. */
  lemma DuplicateRefused(a: UserRecord, b: UserRecord)
    requires a.username == b.username
    ensures !UniqueUsernames(ToRows([a, b]))
  {
    assert ToRows([a, b])[0].username == ToRows([a, b])[1].username;
  }
}
