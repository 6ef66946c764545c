/** The `findMany` queries the pages and handlers issue: a filter and an `orderBy`. Rows with equal
    sort keys keep their table order, one of the orders the store may return. */
module Queries {
  import opened Text
  import opened Db
  import opened Ordering

  predicate IsPublished(p: Post)
  {
    p.published
  }

  predicate PostNewerOrSame(a: Post, b: Post)
  {
    a.createdAt >= b.createdAt
  }

  predicate UserNewerOrSame(a: User, b: User)
  {
    a.createdAt >= b.createdAt
  }

  predicate LogNewerOrSame(a: LogRecord, b: LogRecord)
  {
    a.createdAt >= b.createdAt
  }

  predicate NameBeforeOrSame(a: User, b: User)
  {
    LexLe(a.name, b.name)
  }

  lemma NameOrderIsTotal()
    ensures TotalPreorder(NameBeforeOrSame)
  {
    forall a: User, b: User ensures NameBeforeOrSame(a, b) || NameBeforeOrSame(b, a) {
      LexLeTotal(a.name, b.name);
    }
    forall a: User, b: User, c: User | NameBeforeOrSame(a, b) && NameBeforeOrSame(b, c)
      ensures NameBeforeOrSame(a, c)
    {
      LexLeTransitive(a.name, b.name, c.name);
    }
  }

  /** `where: { published: true }, orderBy: { createdAt: 'desc' }`: exactly the published posts,
      each as often as in the table, newest first. */
  function PublishedNewestFirst(posts: seq<Post>): (r: seq<Post>)
    ensures forall p :: multiset(r)[p] == if p.published then multiset(posts)[p] else 0
    ensures forall p :: p in r <==> p in posts && p.published
    ensures forall i, j :: 0 <= i < j < |r| ==> r[i].createdAt >= r[j].createdAt
  {
    var published := Filter(posts, IsPublished);
    assert TotalPreorder(PostNewerOrSame);
    SortBySorted(published, PostNewerOrSame);
    var r := SortBy(published, PostNewerOrSame);
    assert forall p :: p in r <==> p in multiset(r);
    assert forall p :: p in posts <==> p in multiset(posts);
    r
  }

  /** `orderBy: { name: 'asc' }`: every user once, names in ascending order. */
  function UsersByName(users: seq<User>): (r: seq<User>)
    ensures multiset(r) == multiset(users)
    ensures forall i, j :: 0 <= i < j < |r| ==> LexLe(r[i].name, r[j].name)
  {
    NameOrderIsTotal();
    SortBySorted(users, NameBeforeOrSame);
    SortBy(users, NameBeforeOrSame)
  }

  /** `orderBy: { createdAt: 'desc' }` over users. */
  function UsersNewestFirst(users: seq<User>): (r: seq<User>)
    ensures multiset(r) == multiset(users)
    ensures forall i, j :: 0 <= i < j < |r| ==> r[i].createdAt >= r[j].createdAt
  {
    assert TotalPreorder(UserNewerOrSame);
    SortBySorted(users, UserNewerOrSame);
    SortBy(users, UserNewerOrSame)
  }

  /** `orderBy: { createdAt: 'desc' }` over log records. */
  function LogsNewestFirst(logs: seq<LogRecord>): (r: seq<LogRecord>)
    ensures multiset(r) == multiset(logs)
    ensures forall i, j :: 0 <= i < j < |r| ==> r[i].createdAt >= r[j].createdAt
  {
    assert TotalPreorder(LogNewerOrSame);
    SortBySorted(logs, LogNewerOrSame);
    SortBy(logs, LogNewerOrSame)
  }
}
