/** The user directory: create, list, fetch, update and remove users over the users table, never handing
    out a password and refusing a second account for an email already on file. */
module Users {
  import opened Wrappers
  import opened UserEntity
  import opened UserStore
  import opened ExceptionsFilter

  /** The fields of a new account. */
  datatype CreateCommand = CreateCommand(email: string, firstName: string, lastName: string, password: string)

  /** A partial update: `None` is a field the caller left out. */
  datatype UpdateCommand = UpdateCommand(
    email: Option<string>,
    firstName: Option<string>,
    lastName: Option<string>,
    password: Option<string>,
    isActive: Option<bool>)

  /** The failures the directory reports. */
  datatype Error = NotFound(id: Id) | DuplicateEmail

  /** The row `create` stores: the caller's fields, the store-assigned id and timestamps, and active. */
  function NewUser(id: Id, cmd: CreateCommand, now: Timestamp): User {
    User(id, cmd.email, cmd.firstName, cmd.lastName, cmd.password, true, now, now)
  }

  /** The `data` of the write issued by `update`; `password` is `None` when left undefined. */
  datatype UpdateData = UpdateData(
    email: string,
    firstName: string,
    lastName: string,
    password: Option<string>,
    isActive: bool,
    updatedAt: Timestamp)

  /** `{ ...view, ...cmd }` with its columns picked out, over the view `findOne` returned. The view has no
      password, so the written password is the command's or undefined. */
  function UpdateDataFor(view: UserView, cmd: UpdateCommand, now: Timestamp): UpdateData {
    UpdateData(
      cmd.email.GetOr(view.email),
      cmd.firstName.GetOr(view.firstName),
      cmd.lastName.GetOr(view.lastName),
      cmd.password,
      cmd.isActive.GetOr(view.isActive),
      now)
  }

  /** The store's `update` of one row: the columns given overwrite, an undefined one keeps its value,
      and the id and creation time are not written. */
  function ApplyUpdate(row: User, data: UpdateData): User {
    User(row.id, data.email, data.firstName, data.lastName, data.password.GetOr(row.password),
         data.isActive, row.createdAt, data.updatedAt)
  }

  /** The read-merge-write of `update`, as one step on the stored row. */
  function Merge(row: User, cmd: UpdateCommand, now: Timestamp): User {
    ApplyUpdate(row, UpdateDataFor(MapUser(row), cmd, now))
  }

  /** Field by field: a field present in the command takes its value, an absent one (the password
      included) keeps the stored value; the id and creation time stay, the update time becomes `now`. */
  lemma MergeFields(row: User, cmd: UpdateCommand, now: Timestamp)
    ensures Merge(row, cmd, now).id == row.id
    ensures Merge(row, cmd, now).createdAt == row.createdAt
    ensures Merge(row, cmd, now).updatedAt == now
    ensures Merge(row, cmd, now).email == if cmd.email.Some? then cmd.email.value else row.email
    ensures Merge(row, cmd, now).firstName == if cmd.firstName.Some? then cmd.firstName.value else row.firstName
    ensures Merge(row, cmd, now).lastName == if cmd.lastName.Some? then cmd.lastName.value else row.lastName
    ensures Merge(row, cmd, now).password == if cmd.password.Some? then cmd.password.value else row.password
    ensures Merge(row, cmd, now).isActive == if cmd.isActive.Some? then cmd.isActive.value else row.isActive
  {
  }

  /** Two updates in a row: the second command's present fields over the first's. */
  function Then(first: UpdateCommand, second: UpdateCommand): UpdateCommand {
    UpdateCommand(
      if second.email.Some? then second.email else first.email,
      if second.firstName.Some? then second.firstName else first.firstName,
      if second.lastName.Some? then second.lastName else first.lastName,
      if second.password.Some? then second.password else first.password,
      if second.isActive.Some? then second.isActive else first.isActive)
  }

  /** Two successive updates of a row amount to one update with the combined command. */
  lemma MergeSequential(row: User, first: UpdateCommand, second: UpdateCommand, t1: Timestamp, t2: Timestamp)
    ensures Merge(Merge(row, first, t1), second, t2) == Merge(row, Then(first, second), t2)
  {
    MergeFields(row, first, t1);
    MergeFields(Merge(row, first, t1), second, t2);
    MergeFields(row, Then(first, second), t2);
  }

  /** Repeating an update at the same time changes nothing more. */
  lemma MergeIdempotent(row: User, cmd: UpdateCommand, now: Timestamp)
    ensures Merge(Merge(row, cmd, now), cmd, now) == Merge(row, cmd, now)
  {
    MergeSequential(row, cmd, cmd, now, now);
    assert Then(cmd, cmd) == cmd;
  }

  /** An update leaves a row as it was, apart from its update time, exactly when every field the command
      carries already holds that value. */
  lemma MergeUnchangedIff(row: User, cmd: UpdateCommand, now: Timestamp)
    ensures Merge(row, cmd, now) == row.(updatedAt := now) <==>
      && (cmd.email.Some? ==> cmd.email.value == row.email)
      && (cmd.firstName.Some? ==> cmd.firstName.value == row.firstName)
      && (cmd.lastName.Some? ==> cmd.lastName.value == row.lastName)
      && (cmd.password.Some? ==> cmd.password.value == row.password)
      && (cmd.isActive.Some? ==> cmd.isActive.value == row.isActive)
  {
    MergeFields(row, cmd, now);
  }

  /** Decimal text of an id, as interpolated into the not-found message. */
  function IdText(id: Id): (s: string)
    ensures |s| > 0
    ensures forall i :: 0 <= i < |s| ==> '0' <= s[i] <= '9'
  {
    if id < 10 then [DigitChar(id)] else IdText(id / 10) + [DigitChar(id % 10)]
  }

  function DigitChar(d: nat): (c: char)
    requires d < 10
    ensures '0' <= c <= '9' && c as int - '0' as int == d
  {
    (d + '0' as int) as char
  }

  /** Reference reading of a string of decimal digits. */
  function DecimalValue(s: string): nat
    requires forall i :: 0 <= i < |s| ==> '0' <= s[i] <= '9'
  {
    if s == [] then 0 else 10 * DecimalValue(s[..|s| - 1]) + (s[|s| - 1] as int - '0' as int)
  }

  /** Reading the text of an id gives the id back, so distinct ids have distinct texts. */
  lemma {:induction false} IdTextRoundTrip(id: Id)
    ensures DecimalValue(IdText(id)) == id
  {
    if id >= 10 {
      IdTextRoundTrip(id / 10);
      var s := IdText(id);
      assert s[..|s| - 1] == IdText(id / 10);
    }
  }

  /** The exception the service throws for each failure. */
  function ToException(e: Error): (x: Exception)
    ensures e.NotFound? <==> x.cls == NotFoundException
    ensures e.DuplicateEmail? <==> x.cls == BadRequestException
    ensures e.DuplicateEmail? ==> x.message == "Email ya registrado"
    ensures e.NotFound? ==> x.message == "user with id " + IdText(e.id) + " not found"
  {
    match e
    case NotFound(id) => Exception(NotFoundException, "user with id " + IdText(id) + " not found")
    case DuplicateEmail => Exception(BadRequestException, "Email ya registrado")
  }

  /** Different unknown ids give different not-found messages: the message names the id. */
  lemma NotFoundMessagesDistinct(a: Id, b: Id)
    requires a != b
    ensures ToException(NotFound(a)).message != ToException(NotFound(b)).message
  {
    var prefix, suffix := "user with id ", " not found";
    var ma, mb := ToException(NotFound(a)).message, ToException(NotFound(b)).message;
    if ma == mb {
      var ta, tb := IdText(a), IdText(b);
      assert ma == prefix + ta + suffix;
      assert mb == prefix + tb + suffix;
      assert ta == ma[|prefix|..|ma| - |suffix|];
      assert tb == mb[|prefix|..|mb| - |suffix|];
      IdTextRoundTrip(a);
      IdTextRoundTrip(b);
      assert false;
    }
  }

  /** Through the filter, an unknown id answers 404 and a taken email 400, each with the service's own
      message and never the generic one. */
  lemma ErrorResponses(e: Error)
    ensures Catch(ToException(e)).status == if e.NotFound? then 404 else 400
    ensures Catch(ToException(e)).body == ErrorBody(Catch(ToException(e)).status, ToException(e).message)
    ensures e.DuplicateEmail? ==> Catch(ToException(e)).body.message == "Email ya registrado"
  {
  }

  /** `users.map((user) => this.mapUser(user))`. */
  function Redact(rows: seq<User>): seq<UserView> {
    seq(|rows|, i requires 0 <= i < |rows| => MapUser(rows[i]))
  }

  /** The listing of a table whose ids are all below `n` is one view per row: each listed view is the
      redacted row under its own id, every row is listed, and no id is listed twice. */
  lemma ListingIsTable(t: Table, n: nat)
    requires WellFormed(t)
    requires forall id :: id in t ==> id < n
    ensures |Redact(Rows(t, n))| == |t|
    ensures forall i :: 0 <= i < |Redact(Rows(t, n))| ==>
      Redact(Rows(t, n))[i].id in t && Redact(Rows(t, n))[i] == MapUser(t[Redact(Rows(t, n))[i].id])
    ensures forall id :: id in t ==> MapUser(t[id]) in Redact(Rows(t, n))
    ensures forall i, j :: 0 <= i < j < |Redact(Rows(t, n))| ==> Redact(Rows(t, n))[i].id != Redact(Rows(t, n))[j].id
  {
    var rows := Rows(t, n);
    var views := Redact(rows);
    RowsSound(t, n);
    RowsCountAll(t, n);
    forall id | id in t
      ensures MapUser(t[id]) in views
    {
      RowsComplete(t, n, id);
      var i :| 0 <= i < |rows| && rows[i] == t[id];
      assert views[i] == MapUser(t[id]);
    }
  }

  /** Views that are exactly the redacted rows of a table carry exactly the table's emails. */
  lemma ViewEmails(t: Table, views: seq<UserView>)
    requires forall i :: 0 <= i < |views| ==> views[i].id in t && views[i] == MapUser(t[views[i].id])
    requires forall id :: id in t ==> MapUser(t[id]) in views
    ensures (set v | v in views :: v.email) == (set id | id in t :: t[id].email)
  {
    var shown := set v | v in views :: v.email;
    var stored := set id | id in t :: t[id].email;
    forall e | e in stored
      ensures e in shown
    {
      var id :| id in t && t[id].email == e;
      assert MapUser(t[id]) in views;
    }
  }

  /** `UsersService` over the users table. `nextId` stands for the store's id generator: every stored
      id is below it, so it is always fresh. */
  class UsersService {
    var store: Table
    var nextId: Id

    ghost predicate Valid()
      reads this
    {
      WellFormed(store) && forall id :: id in store ==> id < nextId
    }

    /** The service over an existing table. */
    constructor (rows: Table, freshFrom: Id)
      requires WellFormed(rows)
      requires forall id :: id in rows ==> id < freshFrom
      ensures Valid()
      ensures store == rows && nextId == freshFrom
    {
      store := rows;
      nextId := freshFrom;
    }

    /** `findByEmail`: a row holding `email`, if there is one. */
    method FindByEmail(email: string) returns (found: Option<User>)
      requires Valid()
      ensures found.Some? <==> EmailTaken(store, email)
      ensures found.Some? ==> found.value.id in store && store[found.value.id] == found.value
      ensures found.Some? ==> found.value.email == email
    {
      var rows := Rows(store, nextId);
      RowsSound(store, nextId);
      found := FirstWithEmail(rows, email);
      if EmailTaken(store, email) {
        var id :| id in store && store[id].email == email;
        RowsComplete(store, nextId, id);
        var i :| 0 <= i < |rows| && rows[i] == store[id];
        assert rows[i].email == email;
      }
    }

    /** `create`: refuse an email already on file, otherwise store one new active row under a fresh id
        and return its view. */
    method Create(cmd: CreateCommand, now: Timestamp) returns (r: Result<UserView, Error>)
      requires Valid()
      modifies this
      ensures Valid()
      ensures EmailTaken(old(store), cmd.email) ==>
        r == Err(DuplicateEmail) && store == old(store) && nextId == old(nextId)
      ensures !EmailTaken(old(store), cmd.email) ==>
        && old(nextId) !in old(store)
        && store == old(store)[old(nextId) := NewUser(old(nextId), cmd, now)]
        && nextId == old(nextId) + 1
        && r == Ok(MapUser(NewUser(old(nextId), cmd, now)))
      ensures r.Ok? ==>
        && |store| == |old(store)| + 1
        && r.value.id !in old(store) && r.value.id in store
        && r.value.email == cmd.email && r.value.firstName == cmd.firstName && r.value.lastName == cmd.lastName
        && r.value.isActive && r.value.createdAt == now && r.value.updatedAt == now
      ensures UniqueEmails(old(store)) ==> UniqueEmails(store)
    {
      var existing := FindByEmail(cmd.email);
      if existing.Some? {
        return Err(DuplicateEmail);
      }
      var user := NewUser(nextId, cmd, now);
      store := store[nextId := user];
      nextId := nextId + 1;
      r := Ok(MapUser(user));
    }

    /** `findAll`: one view per stored row, and nothing else. */
    method FindAll() returns (views: seq<UserView>)
      requires Valid()
      ensures |views| == |store|
      ensures forall i :: 0 <= i < |views| ==> views[i].id in store && views[i] == MapUser(store[views[i].id])
      ensures forall id :: id in store ==> MapUser(store[id]) in views
      ensures forall i, j :: 0 <= i < j < |views| ==> views[i].id != views[j].id
      ensures (set v | v in views :: v.email) == (set id | id in store :: store[id].email)
    {
      views := Redact(Rows(store, nextId));
      ListingIsTable(store, nextId);
      ViewEmails(store, views);
    }

    /** `findOne`: the view of the row under `id`, or `NotFound`. */
    method FindOne(id: Id) returns (r: Result<UserView, Error>)
      ensures r.Ok? <==> id in store
      ensures id in store ==> r.value == MapUser(store[id])
      ensures id !in store ==> r.error == NotFound(id)
    {
      if id !in store {
        return Err(NotFound(id));
      }
      r := Ok(MapUser(store[id]));
    }

    /** `update`: fetch the row or fail `NotFound`, write the merge of the command over it, and return
        the view of what was written. */
    method Update(id: Id, cmd: UpdateCommand, now: Timestamp) returns (r: Result<UserView, Error>)
      requires Valid()
      modifies this
      ensures Valid() && nextId == old(nextId)
      ensures id !in old(store) ==> r == Err(NotFound(id)) && store == old(store)
      ensures id in old(store) ==>
        && store == old(store)[id := Merge(old(store)[id], cmd, now)]
        && r == Ok(MapUser(store[id]))
      ensures r.Ok? ==>
        && id in old(store) && r.value.id == id
        && r.value.createdAt == old(store)[id].createdAt && r.value.updatedAt == now
        && (cmd.email.None? ==> r.value.email == old(store)[id].email)
      ensures cmd.email.None? && UniqueEmails(old(store)) ==> UniqueEmails(store)
    {
      var found := FindOne(id);
      if found.Err? {
        return found;
      }
      var data := UpdateDataFor(found.value, cmd, now);
      var updated := ApplyUpdate(store[id], data);
      store := store[id := updated];
      r := Ok(MapUser(updated));
    }

    /** `remove`: fetch the row or fail `NotFound`, delete it, and return its view from before the
        delete. */
    method Remove(id: Id) returns (r: Result<UserView, Error>)
      requires Valid()
      modifies this
      ensures Valid() && nextId == old(nextId)
      ensures id !in old(store) ==> r == Err(NotFound(id)) && store == old(store)
      ensures id in old(store) ==> r == Ok(MapUser(old(store)[id])) && store == old(store) - {id}
      ensures r.Ok? ==> r.value.id == id && id !in store && |store| == |old(store)| - 1
      ensures UniqueEmails(old(store)) ==> UniqueEmails(store)
    {
      var userToDelete := FindOne(id);
      if userToDelete.Err? {
        return userToDelete;
      }
      store := store - {id};
      r := userToDelete;
    }
  }
}
