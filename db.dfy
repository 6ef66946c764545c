/** The relational store behind the application: its three tables as in-memory sequences, the
    constraints the store enforces on insert, and the `create` calls the handlers make. */
module Db {
  import opened Text

  /** The kinds of audit event. */
  datatype LogType = Login | Logout | ViewPost | CreatePost | UpdatePost | DeletePost
  {
    /** The enum member's name as the code spells it. */
    function Name(): string
    {
      match this
      case Login => "LOGIN"
      case Logout => "LOGOUT"
      case ViewPost => "VIEW_POST"
      case CreatePost => "CREATE_POST"
      case UpdatePost => "UPDATE_POST"
      case DeletePost => "DELETE_POST"
    }
  }

  /** A row of the user table; `password` holds the bcrypt digest. Timestamps are opaque ordered values. */
  datatype User = User(id: string, name: string, email: string, password: string, role: string,
                       createdAt: int, updatedAt: int)

  /** A row of the post ("document") table. */
  datatype Post = Post(id: string, title: string, content: string, published: bool, authorId: string,
                       createdAt: int, updatedAt: int)

  /** A row of the audit log table. */
  datatype LogRecord = LogRecord(id: string, kind: LogType, userId: string, postId: Option<string>,
                                 ip: Option<string>, createdAt: int)

  predicate HasUser(users: seq<User>, id: string)
  {
    exists u :: u in users && u.id == id
  }

  predicate HasEmail(users: seq<User>, email: string)
  {
    exists u :: u in users && u.email == email
  }

  predicate HasPost(posts: seq<Post>, id: string)
  {
    exists p :: p in posts && p.id == id
  }

  predicate HasLog(logs: seq<LogRecord>, id: string)
  {
    exists l :: l in logs && l.id == id
  }

  /** The user with `id`, as a relation lookup finds it. */
  function FindUser(users: seq<User>, id: string): (r: Option<User>)
    ensures r.Some? <==> HasUser(users, id)
    ensures r.Some? ==> r.value in users && r.value.id == id
  {
    if users == [] then None
    else if users[0].id == id then Some(users[0])
    else
      assert forall u :: u in users[1..] ==> u in users;
      assert forall u :: u in users && u != users[0] ==> u in users[1..];
      FindUser(users[1..], id)
  }

  /** The post with `id`, as a relation lookup finds it. */
  function FindPost(posts: seq<Post>, id: string): (r: Option<Post>)
    ensures r.Some? <==> HasPost(posts, id)
    ensures r.Some? ==> r.value in posts && r.value.id == id
  {
    if posts == [] then None
    else if posts[0].id == id then Some(posts[0])
    else
      assert forall p :: p in posts[1..] ==> p in posts;
      assert forall p :: p in posts && p != posts[0] ==> p in posts[1..];
      FindPost(posts[1..], id)
  }

  /** A user as the API returns it: every column except `password`. */
  datatype PublicUser = PublicUser(id: string, name: string, email: string, role: string,
                                   createdAt: int, updatedAt: int)

  /** `const { password: _, ...userWithoutPassword } = user`. */
  function WithoutPassword(u: User): PublicUser
  {
    PublicUser(u.id, u.name, u.email, u.role, u.createdAt, u.updatedAt)
  }

  /** Puts a password back on a public view of a user. */
  function WithPassword(p: PublicUser, password: string): User
  {
    User(p.id, p.name, p.email, password, p.role, p.createdAt, p.updatedAt)
  }

  /** Removing the password loses nothing else: it is the only column dropped. */
  lemma WithoutPasswordKeepsTheRest(u: User)
    ensures WithPassword(WithoutPassword(u), u.password) == u
  {
  }

  /** A snapshot of the whole store. */
  datatype Tables = Tables(users: seq<User>, posts: seq<Post>, logs: seq<LogRecord>)
  {
    /** Unique keys (every id, and the user email that the code looks users up by) and the
        foreign keys behind the `author`, `user` and `post` relations. */
    predicate Valid()
    {
      && (forall i, j :: 0 <= i < j < |users| ==> users[i].id != users[j].id)
      && (forall i, j :: 0 <= i < j < |users| ==> users[i].email != users[j].email)
      && (forall i, j :: 0 <= i < j < |posts| ==> posts[i].id != posts[j].id)
      && (forall i, j :: 0 <= i < j < |logs| ==> logs[i].id != logs[j].id)
      && (forall p :: p in posts ==> HasUser(users, p.authorId))
      && (forall l :: l in logs ==> HasUser(users, l.userId))
      && (forall l :: l in logs && l.postId.Some? ==> HasPost(posts, l.postId.value))
    }

    /** What the store checks before it inserts a user. */
    predicate AcceptsUser(u: User)
    {
      !HasUser(users, u.id) && !HasEmail(users, u.email)
    }

    /** What the store checks before it inserts a post. */
    predicate AcceptsPost(p: Post)
    {
      !HasPost(posts, p.id) && HasUser(users, p.authorId)
    }

    /** What the store checks before it inserts a log record. */
    predicate AcceptsLog(l: LogRecord)
    {
      && !HasLog(logs, l.id)
      && HasUser(users, l.userId)
      && (l.postId.Some? ==> HasPost(posts, l.postId.value))
    }
  }

  /** How the store answers during one request: unreachable (every call throws), or reachable,
      handing out `newId` and the timestamp `now` to a row created in this request. */
  datatype Reply = Down | Up(newId: string, now: int)

  /** The row `prisma.user.create` builds from the request data. */
  function NewUser(name: string, email: string, password: string, role: string, id: string, now: int): (u: User)
  {
    User(id, name, email, password, role, now, now)
  }

  /** The row `prisma.post.create` builds from the request data. */
  function NewPost(title: string, content: string, published: bool, authorId: string, id: string, now: int): (p: Post)
  {
    Post(id, title, content, published, authorId, now, now)
  }

  /** The row `prisma.log.create` builds from the request data. */
  function NewLog(kind: LogType, userId: string, postId: Option<string>, ip: Option<string>, id: string, now: int): (l: LogRecord)
  {
    LogRecord(id, kind, userId, postId, ip, now)
  }

  /** The request body fields a user create reads. */
  datatype UserInput = UserInput(name: string, email: string, password: string, role: string)

  /** The row a user create asks for, with the password replaced by its digest. */
  function Account(input: UserInput, hash: string -> string, reply: Reply): (u: User)
    requires reply.Up?
  {
    NewUser(input.name, input.email, hash(input.password), input.role, reply.newId, reply.now)
  }

  /** The store, whose tables `create` calls extend by one row. */
  class Db {
    var tables: Tables

    method CreateUser(name: string, email: string, password: string, role: string, reply: Reply)
      returns (created: Option<User>)
      requires tables.Valid()
      modifies this
      ensures tables.Valid()
      ensures created.Some? <==>
        reply.Up? && old(tables).AcceptsUser(NewUser(name, email, password, role, reply.newId, reply.now))
      ensures created.Some? ==>
        && created.value == NewUser(name, email, password, role, reply.newId, reply.now)
        && tables == old(tables).(users := old(tables.users) + [created.value])
      ensures created.None? ==> tables == old(tables)
    {
      created := None;
      if reply.Up? {
        var u := NewUser(name, email, password, role, reply.newId, reply.now);
        if tables.AcceptsUser(u) {
          var t := tables.(users := tables.users + [u]);
          forall i, j | 0 <= i < j < |t.users| ensures t.users[i].id != t.users[j].id && t.users[i].email != t.users[j].email {
            if j == |tables.users| {
              assert t.users[i] in tables.users;
            }
          }
          forall p | p in t.posts ensures HasUser(t.users, p.authorId) {
            var w :| w in tables.users && w.id == p.authorId;
            assert w in t.users;
          }
          forall l | l in t.logs ensures HasUser(t.users, l.userId) {
            var w :| w in tables.users && w.id == l.userId;
            assert w in t.users;
          }
          tables := t;
          created := Some(u);
        }
      }
    }

    method CreatePost(title: string, content: string, published: bool, authorId: string, reply: Reply)
      returns (created: Option<Post>)
      requires tables.Valid()
      modifies this
      ensures tables.Valid()
      ensures created.Some? <==>
        reply.Up? && old(tables).AcceptsPost(NewPost(title, content, published, authorId, reply.newId, reply.now))
      ensures created.Some? ==>
        && created.value == NewPost(title, content, published, authorId, reply.newId, reply.now)
        && tables == old(tables).(posts := old(tables.posts) + [created.value])
      ensures created.None? ==> tables == old(tables)
    {
      created := None;
      if reply.Up? {
        var p := NewPost(title, content, published, authorId, reply.newId, reply.now);
        if tables.AcceptsPost(p) {
          var t := tables.(posts := tables.posts + [p]);
          forall i, j | 0 <= i < j < |t.posts| ensures t.posts[i].id != t.posts[j].id {
            if j == |tables.posts| {
              assert t.posts[i] in tables.posts;
            }
          }
          forall l | l in t.logs && l.postId.Some? ensures HasPost(t.posts, l.postId.value) {
            var w :| w in tables.posts && w.id == l.postId.value;
            assert w in t.posts;
          }
          tables := t;
          created := Some(p);
        }
      }
    }

    method CreateLog(kind: LogType, userId: string, postId: Option<string>, ip: Option<string>, reply: Reply)
      returns (created: Option<LogRecord>)
      requires tables.Valid()
      modifies this
      ensures tables.Valid()
      ensures created.Some? <==>
        reply.Up? && old(tables).AcceptsLog(NewLog(kind, userId, postId, ip, reply.newId, reply.now))
      ensures created.Some? ==>
        && created.value == NewLog(kind, userId, postId, ip, reply.newId, reply.now)
        && tables == old(tables).(logs := old(tables.logs) + [created.value])
      ensures created.None? ==> tables == old(tables)
    {
      created := None;
      if reply.Up? {
        var l := NewLog(kind, userId, postId, ip, reply.newId, reply.now);
        if tables.AcceptsLog(l) {
          var t := tables.(logs := tables.logs + [l]);
          forall i, j | 0 <= i < j < |t.logs| ensures t.logs[i].id != t.logs[j].id {
            if j == |tables.logs| {
              assert t.logs[i] in tables.logs;
            }
          }
          tables := t;
          created := Some(l);
        }
      }
    }
  }
}
