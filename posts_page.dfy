/** The documents page: the published posts fetched on the server and the cards it renders. */
module PostsPage {
  import opened Text
  import opened Db
  import opened Auth
  import opened Queries

  /** A post as the page receives it, with its author's name. */
  datatype PostCard = PostCard(post: Post, authorName: string)

  /** Pairs every post with its author's name, keeping the order. */
  function WithAuthorNames(users: seq<User>, posts: seq<Post>): (r: seq<PostCard>)
    requires forall p :: p in posts ==> HasUser(users, p.authorId)
    ensures |r| == |posts|
    ensures forall i :: 0 <= i < |r| ==>
      r[i].post == posts[i] && exists u :: u in users && u.id == posts[i].authorId && r[i].authorName == u.name
  {
    if posts == [] then []
    else
      var u := FindUser(users, posts[0].authorId).value;
      [PostCard(posts[0], u.name)] + WithAuthorNames(users, posts[1..])
  }

  /** The page's server side: the published posts, newest first, with author names; a store
      failure is swallowed and yields an empty list. */
  function ServerSideProps(t: Tables, reply: Reply): (r: seq<PostCard>)
    requires t.Valid()
    ensures reply.Down? ==> r == []
    ensures reply.Up? ==> |r| == |PublishedNewestFirst(t.posts)|
    ensures reply.Up? ==> forall i :: 0 <= i < |r| ==> r[i].post == PublishedNewestFirst(t.posts)[i]
  {
    if reply.Down? then [] else WithAuthorNames(t.users, PublishedNewestFirst(t.posts))
  }

  /** When the store answers, every published post is on the page. */
  lemma {:induction false} ShowsEveryPublishedPost(t: Tables, reply: Reply, p: Post)
    requires t.Valid() && reply.Up?
    requires p in t.posts && p.published
    ensures exists i :: 0 <= i < |ServerSideProps(t, reply)| && ServerSideProps(t, reply)[i].post == p
  {
    var ps := PublishedNewestFirst(t.posts);
    var i :| 0 <= i < |ps| && ps[i] == p;
    assert ServerSideProps(t, reply)[i].post == p;
  }

  /** When the store answers, the page shows only published posts, newest first. */
  lemma {:induction false} ShowsOnlyPublishedNewestFirst(t: Tables, reply: Reply)
    requires t.Valid() && reply.Up?
    ensures forall c :: c in ServerSideProps(t, reply) ==> c.post in t.posts && c.post.published
    ensures forall i, j :: 0 <= i < j < |ServerSideProps(t, reply)| ==>
      ServerSideProps(t, reply)[i].post.createdAt >= ServerSideProps(t, reply)[j].post.createdAt
  {
    var ps := PublishedNewestFirst(t.posts);
    var r := ServerSideProps(t, reply);
    forall c | c in r ensures c.post in t.posts && c.post.published {
      var i :| 0 <= i < |r| && r[i] == c;
      assert c.post == ps[i];
    }
  }

  const ExcerptLength := 150

  /** The card text: the first 150 characters of the content followed by `...`, which is appended
      even when nothing was cut. */
  function Excerpt(content: string): (r: string)
    ensures |content| <= ExcerptLength ==> r == content + "..."
    ensures |content| > ExcerptLength ==> |r| == ExcerptLength + 3 && StartsWith(content, r[..ExcerptLength])
    ensures |r| >= 3 && r[|r| - 3..] == "..."
  {
    content[..if |content| < ExcerptLength then |content| else ExcerptLength] + "..."
  }

  /** A rendered card: title, excerpt, byline and the link to the full document. */
  datatype Card = Card(title: string, excerpt: string, byline: string, href: string)

  /** The rendered page: the cards, whether the "new document" link shows, and the empty notice. */
  datatype Page = Page(cards: seq<Card>, newDocumentLink: bool, notice: Option<string>)

  const NoPostsNotice := "Nenhum documento disponível."

  function RenderCard(c: PostCard): Card
  {
    Card(c.post.title, Excerpt(c.post.content), "Por " + c.authorName, "/posts/" + c.post.id)
  }

  /** One card per post in order; the link to create a document only for an `ADMIN` session;
      the notice exactly when there is no post. */
  function Render(posts: seq<PostCard>, session: Option<Session>): (page: Page)
    ensures |page.cards| == |posts|
    ensures forall i :: 0 <= i < |posts| ==> page.cards[i] == RenderCard(posts[i])
    ensures page.newDocumentLink <==> IsAdmin(session)
    ensures page.notice.Some? <==> posts == []
    ensures page.notice.Some? ==> page.notice.value == NoPostsNotice
  {
    if posts == [] then Page([], IsAdmin(session), Some(NoPostsNotice))
    else
      var rest := Render(posts[1..], session);
      Page([RenderCard(posts[0])] + rest.cards, IsAdmin(session), None)
  }
}
