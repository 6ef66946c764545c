/** `/api/users`: the administrator's user list and user creation, guarded by the session role. */
module UsersApi {
  import opened Text
  import opened Db
  import opened Auth
  import opened Queries

  datatype Body = Message(message: string) | Created(user: PublicUser) | UserList(users: seq<PublicUser>)

  datatype Response = Response(status: int, body: Body)

  const Unauthorized := Response(401, Message("Não autorizado"))
  const EmailTaken := Response(400, Message("Email já cadastrado"))
  const CreateFailed := Response(500, Message("Erro ao criar usuário"))
  const FetchFailed := Response(500, Message("Erro ao buscar usuários"))
  const MethodNotAllowed := Response(405, Message("Método não permitido"))

  /** Drops the password of every user, keeping the order. */
  function PublicViews(users: seq<User>): (r: seq<PublicUser>)
    ensures |r| == |users|
    ensures forall i :: 0 <= i < |r| ==> r[i] == WithoutPassword(users[i])
  {
    if users == [] then [] else [WithoutPassword(users[0])] + PublicViews(users[1..])
  }

  /** The `GET` listing: every user, by ascending name, with the six public columns. */
  function Listing(users: seq<User>): (r: seq<PublicUser>)
    ensures |r| == |users|
    ensures forall i, j :: 0 <= i < j < |r| ==> LexLe(r[i].name, r[j].name)
  {
    var sorted := UsersByName(users);
    assert |multiset(sorted)| == |multiset(users)|;
    PublicViews(sorted)
  }

  /** No password leaves the listing, and every stored user appears in it. */
  lemma {:induction false} ListingCoversEveryUser(users: seq<User>)
    ensures forall u :: u in users ==> WithoutPassword(u) in Listing(users)
    ensures forall v :: v in Listing(users) ==> exists u :: u in users && v == WithoutPassword(u)
  {
    var sorted := UsersByName(users);
    var r := Listing(users);
    forall u | u in users ensures WithoutPassword(u) in r {
      assert u in multiset(sorted);
      var i :| 0 <= i < |sorted| && sorted[i] == u;
      assert r[i] == WithoutPassword(u);
    }
    forall v | v in r ensures exists u :: u in users && v == WithoutPassword(u) {
      var i :| 0 <= i < |r| && r[i] == v;
      assert sorted[i] in multiset(users);
    }
  }

  /** The handler. Anyone but an administrator gets `401`. `POST` refuses an email already on
      file, stores the hashed password and answers with the new user minus the password; `GET`
      lists the users by name; other methods get `405`. Only a successful create changes the store. */
  method Handle(db: Db, session: Option<Session>, httpMethod: string, input: UserInput,
                hash: string -> string, reply: Reply)
    returns (res: Response)
    requires db.tables.Valid()
    modifies db
    ensures db.tables.Valid()
    ensures !IsAdmin(session) ==> res == Unauthorized
    ensures IsAdmin(session) && httpMethod == "POST" ==>
      if reply.Down? then res == CreateFailed
      else if HasEmail(old(db.tables).users, input.email) then res == EmailTaken
      else if old(db.tables).AcceptsUser(Account(input, hash, reply)) then
        && db.tables == old(db.tables).(users := old(db.tables.users) + [Account(input, hash, reply)])
        && res == Response(200, Created(WithoutPassword(Account(input, hash, reply))))
      else res == CreateFailed
    ensures IsAdmin(session) && httpMethod == "GET" ==>
      res == if reply.Down? then FetchFailed else Response(200, UserList(Listing(old(db.tables).users)))
    ensures IsAdmin(session) && httpMethod != "POST" && httpMethod != "GET" ==> res == MethodNotAllowed
    ensures res.body.Created? || db.tables == old(db.tables)
  {
    if !IsAdmin(session) {
      return Unauthorized;
    }
    if httpMethod == "POST" {
      if reply.Down? {
        return CreateFailed;
      }
      if HasEmail(db.tables.users, input.email) {
        return EmailTaken;
      }
      var digest := hash(input.password);
      var created := db.CreateUser(input.name, input.email, digest, input.role, reply);
      if created.None? {
        return CreateFailed;
      }
      return Response(200, Created(WithoutPassword(created.value)));
    } else if httpMethod == "GET" {
      if reply.Down? {
        return FetchFailed;
      }
      return Response(200, UserList(Listing(db.tables.users)));
    } else {
      return MethodNotAllowed;
    }
  }

  /** Past the duplicate check, a create can only fail on an id the store has already handed out. */
  lemma FreshEmailAndIdAccepted(t: Tables, input: UserInput, hash: string -> string, reply: Reply)
    requires t.Valid() && reply.Up?
    requires !HasEmail(t.users, input.email) && !HasUser(t.users, reply.newId)
    ensures t.AcceptsUser(Account(input, hash, reply))
  {
  }
}
