/** The audit logger: where a request came from, and the one log row written per audited event. */
module Logger {
  import opened Text
  import opened Db

  /** What the logger reads from a request: the `x-forwarded-for` and `x-real-ip` headers, the
      socket's and the connection's peer address, and `req.ip`; each may be absent. */
  datatype Request = Request(forwardedFor: Option<string>, realIp: Option<string>,
                             socketAddress: Option<string>, connectionAddress: Option<string>,
                             ip: Option<string>)

  /** The address recorded when no source names one. */
  const UnknownAddress := "0.0.0.0"

  /** Reference definition of a `||` chain: the first truthy candidate, else `fallback`. */
  function FirstTruthy(candidates: seq<Option<string>>, fallback: string): (r: string)
    ensures (forall i :: 0 <= i < |candidates| ==> !Truthy(candidates[i])) ==> r == fallback
    ensures forall i :: (0 <= i < |candidates| && Truthy(candidates[i]) &&
                         forall j :: 0 <= j < i ==> !Truthy(candidates[j])) ==> r == candidates[i].value
  {
    if candidates == [] then fallback
    else if Truthy(candidates[0]) then candidates[0].value
    else
      assert forall i :: 1 <= i < |candidates| ==> candidates[1..][i - 1] == candidates[i];
      FirstTruthy(candidates[1..], fallback)
  }

  /** `getClientIp`: the first field of a non-empty `x-forwarded-for` (as it stands, not trimmed),
      else a non-empty `x-real-ip`, else the first non-empty peer address, else `0.0.0.0`. */
  function GetClientIp(req: Request): (ip: string)
    ensures Truthy(req.forwardedFor) ==>
      var header := req.forwardedFor.value;
      StartsWith(header, ip) && ',' !in ip && (|ip| == |header| || header[|ip|] == ',')
    ensures !Truthy(req.forwardedFor) && Truthy(req.realIp) ==> ip == req.realIp.value
    ensures !Truthy(req.forwardedFor) && !Truthy(req.realIp) ==>
      ip == FirstTruthy([req.socketAddress, req.connectionAddress, req.ip], UnknownAddress)
  {
    if Truthy(req.forwardedFor) then FirstField(req.forwardedFor.value, ',')
    else if Truthy(req.realIp) then req.realIp.value
    else
      OrChainIsFirstTruthy(req.socketAddress, req.connectionAddress, req.ip, UnknownAddress);
      OrElse(req.socketAddress, OrElse(req.connectionAddress, OrElse(req.ip, UnknownAddress)))
  }

  /** The nested `a || b || c || fallback` of the code agrees with the reference definition. */
  lemma {:induction false} OrChainIsFirstTruthy(a: Option<string>, b: Option<string>, c: Option<string>, fallback: string)
    ensures OrElse(a, OrElse(b, OrElse(c, fallback))) == FirstTruthy([a, b, c], fallback)
  {
    var s := [a, b, c];
    assert s[1..] == [b, c] && s[1..][1..] == [c] && s[1..][1..][1..] == [];
    if !Truthy(a) {
      if !Truthy(b) {
        assert FirstTruthy(s, fallback) == FirstTruthy([c], fallback);
      }
    }
  }

  /** A non-empty `x-forwarded-for` decides the address alone: `x-real-ip` and the peer
      addresses are never consulted. */
  lemma ForwardedForShadowsTheRest(req: Request, realIp: Option<string>, socket: Option<string>,
                                   connection: Option<string>, ip: Option<string>)
    requires Truthy(req.forwardedFor)
    ensures GetClientIp(req) == GetClientIp(Request(req.forwardedFor, realIp, socket, connection, ip))
  {
  }

  /** With no usable header and no peer address, the sentinel is returned. */
  lemma SentinelWhenNoSource(req: Request)
    requires !Truthy(req.forwardedFor) && !Truthy(req.realIp)
    requires !Truthy(req.socketAddress) && !Truthy(req.connectionAddress) && !Truthy(req.ip)
    ensures GetClientIp(req) == UnknownAddress
  {
  }

  /** The recorded address is empty exactly when `x-forwarded-for` is non-empty and starts with a
      comma; every other path yields a non-empty address. */
  lemma {:induction false} EmptyAddressOnlyFromLeadingComma(req: Request)
    ensures GetClientIp(req) == "" <==> Truthy(req.forwardedFor) && req.forwardedFor.value[0] == ','
  {
    var ip := GetClientIp(req);
    if !Truthy(req.forwardedFor) && !Truthy(req.realIp) {
      var c := [req.socketAddress, req.connectionAddress, req.ip];
      if Truthy(c[0]) {
        assert ip == c[0].value;
      } else if Truthy(c[1]) {
        assert ip == c[1].value;
      } else if Truthy(c[2]) {
        assert ip == c[2].value;
      } else {
        assert ip == UnknownAddress;
      }
    }
  }

  /** A proxy chain: the original client, first in the list, is recorded. */
  lemma {:induction false} ProxyChainExample()
    ensures GetClientIp(Request(Some("1.2.3.4, 5.6.7.8"), None, None, None, None)) == "1.2.3.4"
  {
    FirstFieldOfJoin("1.2.3.4", ',', " 5.6.7.8");
    assert "1.2.3.4" + [','] + " 5.6.7.8" == "1.2.3.4, 5.6.7.8";
  }

  /** The field is not trimmed: a space before the comma stays in the address. */
  lemma {:induction false} UntrimmedExample()
    ensures GetClientIp(Request(Some("10.0.0.1 ,10.0.0.2"), None, None, None, None)) == "10.0.0.1 "
  {
    FirstFieldOfJoin("10.0.0.1 ", ',', "10.0.0.2");
    assert "10.0.0.1 " + [','] + "10.0.0.2" == "10.0.0.1 ,10.0.0.2";
  }

  /** The peer address is used when neither header is set. */
  lemma PeerAddressExample()
    ensures GetClientIp(Request(None, None, Some("9.9.9.9"), None, None)) == "9.9.9.9"
    ensures GetClientIp(Request(None, Some(""), None, Some("9.9.9.9"), None)) == "9.9.9.9"
  {
  }

  /** The row `createLog` asks the store to insert. */
  function LogEntry(kind: LogType, userId: string, req: Request, postId: Option<string>, id: string, now: int): (l: LogRecord)
    ensures l.kind == kind && l.userId == userId && l.postId == postId
    ensures l.ip == Some(GetClientIp(req))
    ensures l.id == id && l.createdAt == now
  {
    NewLog(kind, userId, postId, Some(GetClientIp(req)), id, now)
  }

  /** `createLog`: appends one record carrying the request's address; a failed write (store
      down, or a key the store refuses) is swallowed and leaves the tables as they were. */
  method CreateLog(db: Db, kind: LogType, userId: string, req: Request, postId: Option<string>, reply: Reply)
    requires db.tables.Valid()
    modifies db
    ensures db.tables.Valid()
    ensures reply.Up? && old(db.tables).AcceptsLog(LogEntry(kind, userId, req, postId, reply.newId, reply.now)) ==>
      db.tables == old(db.tables).(logs := old(db.tables.logs) + [LogEntry(kind, userId, req, postId, reply.newId, reply.now)])
    ensures !(reply.Up? && old(db.tables).AcceptsLog(LogEntry(kind, userId, req, postId, reply.newId, reply.now))) ==>
      db.tables == old(db.tables)
  {
    var ip := GetClientIp(req);
    var created := db.CreateLog(kind, userId, postId, Some(ip), reply);
    // a failed insert is reported on the console only; nothing reaches the caller
  }

  /** The event kind plays no part in whether a record is stored: a `postId` is neither required
      for the document kinds nor refused for `LOGIN`/`LOGOUT`. */
  lemma KindNeverGatesTheWrite(t: Tables, userId: string, req: Request, postId: Option<string>,
                               id: string, now: int, a: LogType, b: LogType)
    ensures t.AcceptsLog(LogEntry(a, userId, req, postId, id, now)) == t.AcceptsLog(LogEntry(b, userId, req, postId, id, now))
  {
  }
}
