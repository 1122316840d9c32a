/** The users table as the service sees it: an id-keyed map of rows, with the queries the service issues. */
module UserStore {
  import opened Wrappers
  import opened UserEntity

  type Table = map<Id, User>

  /** Every row is filed under its own id. */
  ghost predicate WellFormed(t: Table) {
    forall id :: id in t ==> t[id].id == id
  }

  /** Some row holds `email` (exact, case-sensitive comparison). */
  ghost predicate EmailTaken(t: Table, email: string) {
    exists id :: id in t && t[id].email == email
  }

  /** No two rows share an email. */
  ghost predicate UniqueEmails(t: Table) {
    forall a, b :: a in t && b in t && t[a].email == t[b].email ==> a == b
  }

  ghost function KeysBelow(t: Table, n: nat): set<Id> {
    set id | id in t && id < n
  }

  /** `findMany`: the rows whose ids are below `n`, in ascending id order. */
  function Rows(t: Table, n: nat): seq<User> {
    if n == 0 then [] else Rows(t, n - 1) + (if n - 1 in t then [t[n - 1]] else [])
  }

  /** Every listed row is a row of the table filed under an id below the bound, and the ids strictly
      ascend, so no row is listed twice. */
  lemma {:induction false} RowsSound(t: Table, n: nat)
    requires WellFormed(t)
    ensures forall i :: 0 <= i < |Rows(t, n)| ==>
      Rows(t, n)[i].id < n && Rows(t, n)[i].id in t && t[Rows(t, n)[i].id] == Rows(t, n)[i]
    ensures forall i, j :: 0 <= i < j < |Rows(t, n)| ==> Rows(t, n)[i].id < Rows(t, n)[j].id
  {
    if n > 0 {
      RowsSound(t, n - 1);
    }
  }

  /** Every row filed under an id below the bound is listed. */
  lemma {:induction false} RowsComplete(t: Table, n: nat, id: Id)
    requires id in t && id < n
    ensures t[id] in Rows(t, n)
  {
    if id < n - 1 {
      RowsComplete(t, n - 1, id);
    }
  }

  /** Raising the bound by one adds that one id, when it is a key. */
  lemma KeysBelowStep(t: Table, n: nat)
    ensures KeysBelow(t, n + 1) == KeysBelow(t, n) + (if n in t then {n} else {})
  {
  }

  /** `Rows` lists exactly as many rows as there are ids below the bound. */
  lemma {:induction false} RowsCount(t: Table, n: nat)
    ensures |Rows(t, n)| == |KeysBelow(t, n)|
  {
    if n == 0 {
      assert KeysBelow(t, 0) == {};
    } else {
      RowsCount(t, n - 1);
      KeysBelowStep(t, n - 1);
      var below := KeysBelow(t, n - 1);
      if n - 1 in t {
        assert n - 1 !in below;
        assert |below + {n - 1}| == |below| + 1;
      } else {
        assert below + {} == below;
      }
    }
  }

  /** When every id is below the bound, `Rows` is one entry per row of the table. */
  lemma RowsCountAll(t: Table, n: nat)
    requires forall id :: id in t ==> id < n
    ensures |Rows(t, n)| == |t|
  {
    RowsCount(t, n);
    assert KeysBelow(t, n) == t.Keys;
  }

  /** `findUnique({ where: { email } })`: the first listed row holding `email`, if any. */
  function FirstWithEmail(rows: seq<User>, email: string): (found: Option<User>)
    ensures found.Some? <==> exists i :: 0 <= i < |rows| && rows[i].email == email
    ensures found.Some? ==> found.value in rows && found.value.email == email
  {
    if rows == [] then None
    else if rows[0].email == email then Some(rows[0])
    else FirstWithEmail(rows[1..], email)
  }
}
