/** `/api/admin/users`: the administration screen's user list and user creation. */
module AdminUsersApi {
  import opened Text
  import opened Db
  import opened Auth
  import opened Queries

  /** A user as the list selects it: id, name, email and role. */
  datatype UserSummary = UserSummary(id: string, name: string, email: string, role: string)

  datatype Body = Error(error: string) | Created(user: PublicUser) | UserList(users: seq<UserSummary>)

  datatype Response = Response(status: int, body: Body)

  const Forbidden := Response(403, Error("Acesso negado"))
  const FetchFailed := Response(500, Error("Erro ao buscar usuários"))
  const CreateFailed := Response(400, Error("Erro ao criar usuário"))
  const MethodNotAllowed := Response(405, Error("Método não permitido"))

  function Summary(u: User): UserSummary
  {
    UserSummary(u.id, u.name, u.email, u.role)
  }

  /** Summarises every user, keeping the order. */
  function Summaries(users: seq<User>): (r: seq<UserSummary>)
    ensures |r| == |users|
    ensures forall i :: 0 <= i < |r| ==> r[i] == Summary(users[i])
  {
    if users == [] then [] else [Summary(users[0])] + Summaries(users[1..])
  }

  /** The `GET` listing: every user, newest first. */
  function Listing(users: seq<User>): (r: seq<UserSummary>)
    ensures |r| == |users|
    ensures forall i :: 0 <= i < |r| ==> r[i] == Summary(UsersNewestFirst(users)[i])
  {
    var sorted := UsersNewestFirst(users);
    assert |multiset(sorted)| == |multiset(users)|;
    Summaries(sorted)
  }

  /** Every stored user is listed. */
  lemma {:induction false} ListingShowsEveryUser(users: seq<User>, u: User)
    requires u in users
    ensures Summary(u) in Listing(users)
  {
    var sorted := UsersNewestFirst(users);
    assert u in multiset(sorted);
    var i :| 0 <= i < |sorted| && sorted[i] == u;
    assert Listing(users)[i] == Summary(u);
  }

  /** The list runs from the newest account to the oldest: of two listed entries, the earlier
      summarises a stored user created no earlier than the later one's. */
  lemma {:induction false} ListingIsNewestFirst(users: seq<User>, i: nat, j: nat)
    requires i < j < |Listing(users)|
    ensures exists a, b :: a in users && b in users && Listing(users)[i] == Summary(a) &&
                           Listing(users)[j] == Summary(b) && a.createdAt >= b.createdAt
  {
    var sorted := UsersNewestFirst(users);
    var a, b := sorted[i], sorted[j];
    assert a in multiset(users) && b in multiset(users);
    assert a in users && b in users && Listing(users)[i] == Summary(a) && Listing(users)[j] == Summary(b);
  }

  /** The handler. Anyone but an administrator gets `403`. `GET` lists the users newest first;
      `POST` stores the hashed password with no duplicate check of its own, so any store refusal
      becomes `400`; other methods get `405`. Only a successful create changes the store. */
  method Handle(db: Db, session: Option<Session>, httpMethod: string, input: UserInput,
                hash: string -> string, reply: Reply)
    returns (res: Response)
    requires db.tables.Valid()
    modifies db
    ensures db.tables.Valid()
    ensures !IsAdmin(session) ==> res == Forbidden
    ensures IsAdmin(session) && httpMethod == "GET" ==>
      res == if reply.Down? then FetchFailed else Response(200, UserList(Listing(old(db.tables).users)))
    ensures IsAdmin(session) && httpMethod == "POST" ==>
      if reply.Up? && old(db.tables).AcceptsUser(Account(input, hash, reply)) then
        && db.tables == old(db.tables).(users := old(db.tables.users) + [Account(input, hash, reply)])
        && res == Response(200, Created(WithoutPassword(Account(input, hash, reply))))
      else res == CreateFailed
    ensures IsAdmin(session) && httpMethod == "POST" && HasEmail(old(db.tables).users, input.email) ==>
      res == CreateFailed
    ensures IsAdmin(session) && httpMethod != "GET" && httpMethod != "POST" ==> res == MethodNotAllowed
    ensures res.body.Created? || db.tables == old(db.tables)
  {
    if !IsAdmin(session) {
      return Forbidden;
    }
    if httpMethod == "GET" {
      if reply.Down? {
        return FetchFailed;
      }
      return Response(200, UserList(Listing(db.tables.users)));
    }
    if httpMethod == "POST" {
      var digest := hash(input.password);
      var created := db.CreateUser(input.name, input.email, digest, input.role, reply);
      if created.None? {
        return CreateFailed;
      }
      return Response(200, Created(WithoutPassword(created.value)));
    }
    return MethodNotAllowed;
  }
}
