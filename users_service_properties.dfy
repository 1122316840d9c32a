/** The properties of the service's property tests, as client code that uses only the service's
    contracts. Each test's fresh, unused email becomes the precondition that the email is not on file. */
module UsersServiceProperties {
  import opened Wrappers
  import opened UserEntity
  import opened UserStore
  import opened Users

  /** Creating a fresh email succeeds and returns a view with that email (and no password field). */
  method CreateReturnsView(s: UsersService, dto: CreateCommand, now: Timestamp) returns (created: Result<UserView, Error>)
    requires s.Valid() && !EmailTaken(s.store, dto.email)
    modifies s
    ensures created.Ok? && created.value.email == dto.email
  {
    created := s.Create(dto, now);
  }

  /** A second create with the same email fails with `DuplicateEmail` and stores nothing more. */
  method CreateTwice(s: UsersService, dto: CreateCommand, now: Timestamp)
    returns (first: Result<UserView, Error>, second: Result<UserView, Error>)
    requires s.Valid() && !EmailTaken(s.store, dto.email)
    modifies s
    ensures first.Ok? && second == Err(DuplicateEmail)
    ensures |s.store| == |old(s.store)| + 1
  {
    first := s.Create(dto, now);
    assert s.store[first.value.id].email == dto.email;
    second := s.Create(dto, now);
  }

  /** Creating users with pairwise distinct emails in an empty table, then listing: as many views as
      users, carrying exactly their emails. */
  method CreateAllThenFindAll(cmds: seq<CreateCommand>, now: Timestamp) returns (views: seq<UserView>)
    requires forall i, j :: 0 <= i < j < |cmds| ==> cmds[i].email != cmds[j].email
    ensures |views| == |cmds|
    ensures (set v | v in views :: v.email) == (set c | c in cmds :: c.email)
  {
    var s := new UsersService(map[], 0);
    var i := 0;
    while i < |cmds|
      invariant 0 <= i <= |cmds|
      invariant s.Valid() && s.nextId == i && s.store == Seeded(cmds, i, now)
    {
      CreateNext(s, cmds, i, now);
      i := i + 1;
    }
    SeededRows(cmds, i, now);
    SeededSize(cmds, i, now);
    views := s.FindAll();
    TableEmails(s.store, cmds);
  }

  /** One step of that loop: the next command, whose email is not yet on file, is created under the
      next id. */
  method CreateNext(s: UsersService, cmds: seq<CreateCommand>, i: nat, now: Timestamp)
    requires forall i, j :: 0 <= i < j < |cmds| ==> cmds[i].email != cmds[j].email
    requires i < |cmds|
    requires s.Valid() && s.nextId == i && s.store == Seeded(cmds, i, now)
    modifies s
    ensures s.Valid() && s.nextId == i + 1 && s.store == Seeded(cmds, i + 1, now)
  {
    SeededRows(cmds, i, now);
    assert !EmailTaken(s.store, cmds[i].email);
    var r := s.Create(cmds[i], now);
  }

  /** The table left by creating the first `n` commands in order in an empty table: command `k`
      under id `k`. */
  function Seeded(cmds: seq<CreateCommand>, n: nat, now: Timestamp): Table
    requires n <= |cmds|
  {
    if n == 0 then map[] else Seeded(cmds, n - 1, now)[n - 1 := NewUser(n - 1, cmds[n - 1], now)]
  }

  /** That table holds one row per command, each under the command's position. */
  lemma {:induction false} SeededRows(cmds: seq<CreateCommand>, n: nat, now: Timestamp)
    requires n <= |cmds|
    ensures forall id: Id :: id in Seeded(cmds, n, now) <==> id < n
    ensures forall id :: id in Seeded(cmds, n, now) ==> Seeded(cmds, n, now)[id] == NewUser(id, cmds[id], now)
  {
    if n > 0 {
      SeededRows(cmds, n - 1, now);
    }
  }

  /** That table has exactly one row per command. */
  lemma {:induction false} SeededSize(cmds: seq<CreateCommand>, n: nat, now: Timestamp)
    requires n <= |cmds|
    ensures |Seeded(cmds, n, now)| == n
  {
    if n > 0 {
      SeededSize(cmds, n - 1, now);
      SeededRows(cmds, n - 1, now);
      assert n - 1 !in Seeded(cmds, n - 1, now);
    }
  }

  /** A table holding row `k` for command `k`, and nothing else, carries exactly the commands' emails. */
  lemma TableEmails(t: Table, cmds: seq<CreateCommand>)
    requires forall id :: id in t ==> id < |cmds|
    requires forall k :: 0 <= k < |cmds| ==> k in t && t[k].email == cmds[k].email
    ensures (set id | id in t :: t[id].email) == (set c | c in cmds :: c.email)
  {
    var stored := set id | id in t :: t[id].email;
    var given := set c | c in cmds :: c.email;
    forall e | e in given
      ensures e in stored
    {
      var c :| c in cmds && c.email == e;
      var k :| 0 <= k < |cmds| && cmds[k] == c;
      assert t[k].email == e;
    }
    forall e | e in stored
      ensures e in given
    {
      var id :| id in t && t[id].email == e;
      assert cmds[id] in cmds;
    }
  }

  /** A created user is found again by its id, with the same email. */
  method CreateThenFindOne(s: UsersService, dto: CreateCommand, now: Timestamp)
    returns (created: Result<UserView, Error>, found: Result<UserView, Error>)
    requires s.Valid() && !EmailTaken(s.store, dto.email)
    modifies s
    ensures created.Ok? && found.Ok? && found.value.email == dto.email
  {
    created := s.Create(dto, now);
    found := s.FindOne(created.value.id);
  }

  /** Updating a created user without an email keeps its id and email; a given first name is taken,
      and the update time does not go back when the clock does not. */
  method CreateThenUpdate(s: UsersService, dto: CreateCommand, upd: UpdateCommand, t0: Timestamp, t1: Timestamp)
    returns (created: Result<UserView, Error>, updated: Result<UserView, Error>)
    requires s.Valid() && !EmailTaken(s.store, dto.email) && upd.email.None?
    requires t0 <= t1
    modifies s
    ensures created.Ok? && updated.Ok?
    ensures updated.value.id == created.value.id && updated.value.email == dto.email
    ensures upd.firstName.Some? ==> updated.value.firstName == upd.firstName.value
    ensures updated.value.updatedAt >= created.value.updatedAt
  {
    created := s.Create(dto, t0);
    updated := s.Update(created.value.id, upd, t1);
    MergeFields(NewUser(created.value.id, dto, t0), upd, t1);
  }

  /** Removing a created user returns its view, and afterwards it is not found. */
  method CreateThenRemove(s: UsersService, dto: CreateCommand, now: Timestamp)
    returns (created: Result<UserView, Error>, removed: Result<UserView, Error>, after: Result<UserView, Error>)
    requires s.Valid() && !EmailTaken(s.store, dto.email)
    modifies s
    ensures created.Ok? && removed == created
    ensures after == Err(NotFound(created.value.id))
  {
    created := s.Create(dto, now);
    removed := s.Remove(created.value.id);
    after := s.FindOne(created.value.id);
  }
}
