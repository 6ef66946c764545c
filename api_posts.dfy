/** `/api/posts`: any signed-in user lists the published documents; an administrator creates one. */
module PostsApi {
  import opened Text
  import opened Db
  import opened Auth
  import opened Queries

  /** The request body fields a create reads. */
  datatype PostInput = PostInput(title: string, content: string)

  /** The `author` relation as the endpoint selects it. */
  datatype Author = Author(name: string, email: string)

  /** A post row together with its author. */
  datatype PostWithAuthor = PostWithAuthor(post: Post, author: Author)

  datatype Body = Error(error: string) | PostList(posts: seq<PostWithAuthor>) | PostCreated(created: PostWithAuthor)

  datatype Response = Response(status: int, body: Body)

  const Unauthorized := Response(401, Error("Não autorizado"))
  const FetchFailed := Response(500, Error("Erro ao buscar posts"))
  const Forbidden := Response(403, Error("Acesso negado"))
  const CreateFailed := Response(500, Error("Erro ao criar post"))
  const MethodNotAllowed := Response(405, Error("Método não permitido"))

  /** The author of `p`, found through the post's foreign key. */
  function AuthorOf(users: seq<User>, p: Post): (a: Author)
    requires HasUser(users, p.authorId)
    ensures exists u :: u in users && u.id == p.authorId && a == Author(u.name, u.email)
  {
    var u := FindUser(users, p.authorId).value;
    Author(u.name, u.email)
  }

  /** Joins every post of `posts` with its author, keeping the order. */
  function WithAuthors(users: seq<User>, posts: seq<Post>): (r: seq<PostWithAuthor>)
    requires forall p :: p in posts ==> HasUser(users, p.authorId)
    ensures |r| == |posts|
    ensures forall i :: 0 <= i < |r| ==> r[i].post == posts[i] && r[i] == PostWithAuthor(posts[i], AuthorOf(users, posts[i]))
  {
    if posts == [] then []
    else [PostWithAuthor(posts[0], AuthorOf(users, posts[0]))] + WithAuthors(users, posts[1..])
  }

  /** The `GET` listing: published posts, newest first, each with its author. */
  function Listing(t: Tables): (r: seq<PostWithAuthor>)
    requires t.Valid()
    ensures |r| == |PublishedNewestFirst(t.posts)|
    ensures forall i :: 0 <= i < |r| ==> r[i].post == PublishedNewestFirst(t.posts)[i]
  {
    WithAuthors(t.users, PublishedNewestFirst(t.posts))
  }

  /** The listing holds exactly the published posts, newest first. */
  lemma {:induction false} ListingIsPublishedNewestFirst(t: Tables)
    requires t.Valid()
    ensures forall p :: p in Posts(Listing(t)) <==> p in t.posts && p.published
    ensures forall i, j :: 0 <= i < j < |Listing(t)| ==> Listing(t)[i].post.createdAt >= Listing(t)[j].post.createdAt
  {
    var ps := PublishedNewestFirst(t.posts);
    assert Posts(Listing(t)) == ps;
  }

  /** Each listed post sits beside its own author's name and email. */
  lemma {:induction false} ListingPairsEachPostWithItsAuthor(t: Tables, e: PostWithAuthor)
    requires t.Valid()
    requires e in Listing(t)
    ensures exists u :: u in t.users && u.id == e.post.authorId && e.author == Author(u.name, u.email)
  {
    var ps := PublishedNewestFirst(t.posts);
    var r := Listing(t);
    assert r == WithAuthors(t.users, ps);
    var i :| 0 <= i < |r| && r[i] == e;
    var p := ps[i];
    assert p == e.post && e.author == AuthorOf(t.users, p);
    var u :| u in t.users && u.id == p.authorId && e.author == Author(u.name, u.email);
  }

  /** The post column of a listing. */
  function Posts(entries: seq<PostWithAuthor>): (r: seq<Post>)
    ensures |r| == |entries|
    ensures forall i :: 0 <= i < |r| ==> r[i] == entries[i].post
  {
    if entries == [] then [] else [entries[0].post] + Posts(entries[1..])
  }

  /** The row a create asks for: always published, authored by the session's user. */
  function Draft(input: PostInput, session: Session, reply: Reply): Post
    requires reply.Up?
  {
    NewPost(input.title, input.content, true, session.userId, reply.newId, reply.now)
  }

  /** The handler. Without a session nothing else happens; `GET` lists; `POST` needs the `ADMIN`
      role and creates a published post; any other method is refused. Only a `201` changes the store. */
  method Handle(db: Db, session: Option<Session>, httpMethod: string, input: PostInput, reply: Reply)
    returns (res: Response)
    requires db.tables.Valid()
    modifies db
    ensures db.tables.Valid()
    ensures session.None? ==> res == Unauthorized
    ensures session.Some? && httpMethod == "GET" ==>
      res == if reply.Down? then FetchFailed else Response(200, PostList(Listing(old(db.tables))))
    ensures session.Some? && httpMethod == "POST" && !IsAdmin(session) ==> res == Forbidden
    ensures IsAdmin(session) && httpMethod == "POST" ==>
      if reply.Up? && old(db.tables).AcceptsPost(Draft(input, session.value, reply)) then
        && db.tables == old(db.tables).(posts := old(db.tables.posts) + [Draft(input, session.value, reply)])
        && res == Response(201, PostCreated(PostWithAuthor(Draft(input, session.value, reply),
                                                           AuthorOf(old(db.tables).users, Draft(input, session.value, reply)))))
      else res == CreateFailed
    ensures session.Some? && httpMethod != "GET" && httpMethod != "POST" ==> res == MethodNotAllowed
    ensures res.status != 201 ==> db.tables == old(db.tables)
  {
    if session.None? {
      return Unauthorized;
    }
    if httpMethod == "GET" {
      if reply.Down? {
        return FetchFailed;
      }
      return Response(200, PostList(Listing(db.tables)));
    }
    if httpMethod == "POST" {
      if session.value.role != AdminRole {
        return Forbidden;
      }
      var created := db.CreatePost(input.title, input.content, true, session.value.userId, reply);
      if created.None? {
        return CreateFailed;
      }
      var post := created.value;
      assert HasUser(db.tables.users, post.authorId);
      return Response(201, PostCreated(PostWithAuthor(post, AuthorOf(db.tables.users, post))));
    }
    return MethodNotAllowed;
  }
}
