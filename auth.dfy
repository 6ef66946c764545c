/** What the session layer reports about the requester; resolving cookies and tokens is not modelled. */
module Auth {
  import opened Text

  /** The signed-in user of a session: their id and their role name. */
  datatype Session = Session(userId: string, role: string)

  const AdminRole := "ADMIN"

  /** A session exists and its role is exactly `ADMIN`. */
  predicate IsAdmin(session: Option<Session>)
  {
    session.Some? && session.value.role == AdminRole
  }
}
