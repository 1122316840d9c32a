/** The stored user row, the output view `UserEntity` and the redaction between them. */
module UserEntity {

  type Id = nat
  type Timestamp = nat

  /** A row of the users table, credential included. */
  datatype User = User(
    id: Id,
    email: string,
    firstName: string,
    lastName: string,
    password: string,
    isActive: bool,
    createdAt: Timestamp,
    updatedAt: Timestamp)

  /** What the service hands to its callers: every column of a row but the password. */
  datatype UserView = UserView(
    id: Id,
    email: string,
    firstName: string,
    lastName: string,
    isActive: bool,
    createdAt: Timestamp,
    updatedAt: Timestamp)

  /** `mapUser`: drop the password and keep the rest. */
  function MapUser(u: User): UserView {
    UserView(u.id, u.email, u.firstName, u.lastName, u.isActive, u.createdAt, u.updatedAt)
  }

  /** Reference inverse of the redaction: put a password back into a view. */
  function WithPassword(v: UserView, password: string): User {
    User(v.id, v.email, v.firstName, v.lastName, password, v.isActive, v.createdAt, v.updatedAt)
  }

  /** The redaction keeps every other column exactly: it is undone by putting the password back. */
  lemma RedactRoundTrip(u: User, v: UserView, password: string)
    ensures WithPassword(MapUser(u), u.password) == u
    ensures MapUser(WithPassword(v, password)) == v
  {
  }

  /** Two rows have the same view exactly when they differ at most in their password:
      nothing about the password survives the redaction, and nothing else is lost. */
  lemma SameViewIff(a: User, b: User)
    ensures MapUser(a) == MapUser(b) <==> a.(password := b.password) == b
  {
    if MapUser(a) == MapUser(b) {
      RedactRoundTrip(a, MapUser(a), b.password);
      RedactRoundTrip(b, MapUser(b), b.password);
    }
  }
}
