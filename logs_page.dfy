/** The administrator's audit-log page: its server-side data and the table it renders. */
module LogsPage {
  import opened Text
  import opened Db
  import opened Auth
  import opened Queries

  /** The Portuguese label shown for each kind of event; the label alone tells the kind back. */
  function Label(kind: LogType): (r: string)
    ensures KindOfLabel(r) == Some(kind)
  {
    match kind
    case Login => "Login"
    case Logout => "Logout"
    case ViewPost => "Visualização de documento"
    case CreatePost => "Criação de documento"
    case UpdatePost => "Atualização de documento"
    case DeletePost => "Exclusão de documento"
  }

  /** Reads a label back as the kind it names; any other text names none. */
  function KindOfLabel(text: string): Option<LogType>
  {
    if text == "Login" then Some(Login)
    else if text == "Logout" then Some(Logout)
    else if text == "Visualização de documento" then Some(ViewPost)
    else if text == "Criação de documento" then Some(CreatePost)
    else if text == "Atualização de documento" then Some(UpdatePost)
    else if text == "Exclusão de documento" then Some(DeletePost)
    else None
  }

  /** No two kinds share a label, so the label column identifies the event kind. */
  lemma {:induction false} LabelsAreDistinct(a: LogType, b: LogType)
    requires Label(a) == Label(b)
    ensures a == b
  {
    assert KindOfLabel(Label(a)) == Some(a) && KindOfLabel(Label(b)) == Some(b);
  }

  /** One log record as the page receives it: the related user's name and email, the related
      post's title (absent when the record names no post), and the timestamp as ISO text. */
  datatype LogView = LogView(id: string, kind: LogType, userName: string, userEmail: string,
                             postTitle: Option<string>, ip: Option<string>, createdAt: string)

  /** What the page's server side returns. */
  datatype PageResult = Redirect(destination: string, permanent: bool) | ServerError | Props(logs: seq<LogView>)

  /** A record joined with its user and post; `iso` renders a timestamp as ISO 8601 text. */
  function View(t: Tables, l: LogRecord, iso: int -> string): (v: LogView)
    requires t.Valid() && l in t.logs
    ensures v.id == l.id && v.kind == l.kind && v.ip == l.ip && v.createdAt == iso(l.createdAt)
    ensures exists u :: u in t.users && u.id == l.userId && v.userName == u.name && v.userEmail == u.email
    ensures v.postTitle.Some? <==> l.postId.Some?
    ensures l.postId.Some? ==> exists p :: p in t.posts && p.id == l.postId.value && v.postTitle == Some(p.title)
  {
    var u := FindUser(t.users, l.userId).value;
    var title := if l.postId.Some? then Some(FindPost(t.posts, l.postId.value).value.title) else None;
    LogView(l.id, l.kind, u.name, u.email, title, l.ip, iso(l.createdAt))
  }

  /** Joins every record of `logs`, keeping the order. */
  function Views(t: Tables, logs: seq<LogRecord>, iso: int -> string): (r: seq<LogView>)
    requires t.Valid() && forall l :: l in logs ==> l in t.logs
    ensures |r| == |logs|
    ensures forall i :: 0 <= i < |r| ==> r[i] == View(t, logs[i], iso)
  {
    if logs == [] then [] else [View(t, logs[0], iso)] + Views(t, logs[1..], iso)
  }

  /** The page's server side: anyone but an administrator is sent to `/` (not permanently); the
      query is not guarded, so a store failure becomes the framework's server error; otherwise
      every record, newest first, joined with its user and post. */
  function ServerSideProps(session: Option<Session>, t: Tables, reply: Reply, iso: int -> string): (r: PageResult)
    requires t.Valid()
    ensures !IsAdmin(session) <==> r == Redirect("/", false)
    ensures IsAdmin(session) && reply.Down? <==> r.ServerError?
    ensures r.Props? ==> |r.logs| == |t.logs|
  {
    if !IsAdmin(session) then Redirect("/", false)
    else if reply.Down? then ServerError
    else
      var sorted := LogsNewestFirst(t.logs);
      assert |multiset(sorted)| == |multiset(t.logs)|;
      assert forall l :: l in sorted ==> l in multiset(t.logs);
      Props(Views(t, sorted, iso))
  }

  /** Every stored record appears on the page. */
  lemma {:induction false} EveryRecordShown(session: Option<Session>, t: Tables, reply: Reply,
                                            iso: int -> string, l: LogRecord)
    requires t.Valid() && IsAdmin(session) && reply.Up? && l in t.logs
    ensures View(t, l, iso) in ServerSideProps(session, t, reply, iso).logs
  {
    var sorted := LogsNewestFirst(t.logs);
    assert l in multiset(sorted);
    var i :| 0 <= i < |sorted| && sorted[i] == l;
    assert ServerSideProps(session, t, reply, iso).logs[i] == View(t, l, iso);
  }

  /** The page lists the records newest first: of two rows, the earlier one shows a record
      created no earlier than the later one's. */
  lemma {:induction false} RecordsNewestFirst(session: Option<Session>, t: Tables, reply: Reply,
                                              iso: int -> string, i: nat, j: nat)
    requires t.Valid() && IsAdmin(session) && reply.Up?
    requires i < j < |ServerSideProps(session, t, reply, iso).logs|
    ensures exists a, b ::
      (&& a in t.logs && b in t.logs && a.createdAt >= b.createdAt
       && ServerSideProps(session, t, reply, iso).logs[i] == View(t, a, iso)
       && ServerSideProps(session, t, reply, iso).logs[j] == View(t, b, iso))
  {
    var sorted := LogsNewestFirst(t.logs);
    var a, b := sorted[i], sorted[j];
    assert a.createdAt >= b.createdAt;
    assert a in multiset(t.logs) && b in multiset(t.logs);
    assert a in t.logs && b in t.logs;
    var logs := ServerSideProps(session, t, reply, iso).logs;
    assert logs[i] == View(t, a, iso) && logs[j] == View(t, b, iso);
  }

  /** The badge colour of a row. */
  datatype Badge = Blue | Green

  /** A rendered row: the badge and its label, then the user, document and address cells. */
  datatype Row = Row(badge: Badge, caption: string, user: string, document: string, address: string)

  /** The table body and the notice shown under it. */
  datatype Table = Table(rows: seq<Row>, notice: Option<string>)

  const NoLogsNotice := "Nenhum log encontrado"

  /** One row: blue for kinds whose name mentions `POST`, green otherwise; the user's name or,
      when it is empty, their email; the post title or `-`; the address or `-`. */
  function RenderRow(v: LogView): (row: Row)
    ensures row.caption == Label(v.kind)
    ensures row.badge == Blue <==> Includes(v.kind.Name(), "POST")
    ensures row.user == (if v.userName != "" then v.userName else v.userEmail)
    ensures row.document == (if Truthy(v.postTitle) then v.postTitle.value else "-")
    ensures row.address == (if Truthy(v.ip) then v.ip.value else "-")
  {
    Row(if Includes(v.kind.Name(), "POST") then Blue else Green, Label(v.kind),
        OrElse(Some(v.userName), v.userEmail), OrElse(v.postTitle, "-"), OrElse(v.ip, "-"))
  }

  /** The rendered table: one row per record in order, and the notice exactly when there are none. */
  function Render(logs: seq<LogView>): (table: Table)
    ensures |table.rows| == |logs|
    ensures forall i :: 0 <= i < |logs| ==> table.rows[i] == RenderRow(logs[i])
    ensures table.notice.Some? <==> logs == []
    ensures table.notice.Some? ==> table.notice.value == NoLogsNotice
  {
    if logs == [] then Table([], Some(NoLogsNotice))
    else Table([RenderRow(logs[0])] + Render(logs[1..]).rows, None)
  }

  /** The badge is blue exactly for the four document events. */
  lemma {:induction false} BlueBadgeForDocumentEvents(kind: LogType)
    ensures Includes(kind.Name(), "POST") <==> !(kind.Login? || kind.Logout?)
  {
    match kind
    case Login => NotIncludesMissingChar("LOGIN", "POST", 0);
    case Logout => NotIncludesMissingChar("LOGOUT", "POST", 0);
    case ViewPost => MentionsPost("VIEW_POST", 5);
    case CreatePost => MentionsPost("CREATE_POST", 7);
    case UpdatePost => MentionsPost("UPDATE_POST", 7);
    case DeletePost => MentionsPost("DELETE_POST", 7);
  }

  lemma MentionsPost(name: string, i: nat)
    requires i + 4 <= |name| && name[i..i + 4] == "POST"
    ensures Includes(name, "POST")
  {
    IncludesIffOccurs(name, "POST");
    assert OccursAt(name, "POST", i);
  }
}
