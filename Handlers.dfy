/** The request decisions of the three handlers over the audit table: validate
    (main.go:63-88), lookup (main.go:104-152) and history (main.go:154-197). The resolver,
    the database's answers and the clock are parameters. */
module Handlers {
  import opened Wrappers
  import opened Ipv4
  import opened AddressJson
  import opened AuditStore

  const StatusOK := 200
  const StatusBadRequest := 400
  const StatusNotFound := 404
  const StatusInternalServerError := 500

  const MethodGet := "GET"
  const MethodPost := "POST"

  const MsgMethodNotAllowed := "Method not allowed"
  const MsgBadRequest := "Bad request"
  const MsgMissingDomain := "Bad request: missing domain"
  const MsgResolveFailed := "Failed to resolve domain,Please check if the domain is correct."
  const MsgSaveFailed := "Failed to save query to the database"
  const MsgFetchFailed := "Failed to fetch query history"
  const MsgRowDecodeFailed := "Failed to decode database row "

  /** What a handler writes: a JSON body with 200, or an `http.Error` status and message. */
  datatype Reply<T> = Ok(value: T) | Error(status: int, message: string)
  {
    function Status(): int { if Ok? then StatusOK else status }
  }

  /** The validate request body after `json.NewDecoder(r.Body).Decode`: either it was not
      JSON of the request's shape, or it was and `ip` is its `ip` field ("" when absent). */
  datatype ValidateBody = Malformed | Decoded(ip: string)

  /** validateIPHandler: only POST, only a decodable body, then the IPv4 verdict. */
  function ValidateIP(verb: string, body: ValidateBody): (r: Reply<bool>)
    ensures r.Status() == StatusBadRequest <==> verb != MethodPost || body.Malformed?
    ensures r.Status() != StatusBadRequest ==> r.Status() == StatusOK
    ensures verb != MethodPost ==> r == Error(StatusBadRequest, MsgMethodNotAllowed)
    ensures verb == MethodPost && body.Malformed? ==> r == Error(StatusBadRequest, MsgBadRequest)
    ensures verb == MethodPost && body.Decoded? ==>
      r.Ok? && (r.value <==> exists ip: Ip4 :: Format(ip) == body.ip)
  {
    if verb != MethodPost then Error(StatusBadRequest, MsgMethodNotAllowed)
    else if body.Malformed? then Error(StatusBadRequest, MsgBadRequest)
    else
      IsIPv4Exactly(body.ip);
      Ok(IsIPv4(body.ip))
  }

  /** An inbound lookup request: its method, its decoded query string as (key, value)
      pairs in order, and `r.RemoteAddr` as the server saw it ("host:port"). */
  datatype Request = Request(verb: string, query: seq<(string, string)>, remoteAddr: string)

  /** `url.Values.Get`: the first value given for `key`, or "" when there is none. */
  function QueryGet(query: seq<(string, string)>, key: string): (v: string)
    ensures v != "" ==> exists i :: 0 <= i < |query| && query[i] == (key, v)
    ensures (forall i :: 0 <= i < |query| ==> query[i].0 != key) ==> v == ""
    ensures (exists i :: 0 <= i < |query| && query[i].0 == key) ==>
      exists i :: 0 <= i < |query| && query[i] == (key, v) && forall j :: 0 <= j < i ==> query[j].0 != key
  {
    if |query| == 0 then ""
    else if query[0].0 == key then query[0].1
    else QueryGet(query[1..], key)
  }

  /** The resolver's answer for a domain: the IPv4 addresses in its order, or an error. */
  datatype Resolution = Resolved(ips: seq<Ip4>) | Unresolved

  /** The lookup success body: only `addresses` and `domain` (main.go:92-95). */
  datatype LookupResponse = LookupResponse(addresses: seq<Ip4>, domain: string)

  /** The guards of main.go:109-121: the domain to resolve, or the 400 reply. */
  function LookupGuard(req: Request): (r: Reply<string>)
    ensures r.Ok? <==> req.verb == MethodGet && QueryGet(req.query, "domain") != ""
    ensures r.Ok? ==> r.value == QueryGet(req.query, "domain") && r.value != ""
    ensures r.Error? ==> r.status == StatusBadRequest
    ensures req.verb != MethodGet ==> r == Error(StatusBadRequest, MsgMethodNotAllowed)
    ensures req.verb == MethodGet && QueryGet(req.query, "domain") == "" ==> r == Error(StatusBadRequest, MsgMissingDomain)
  {
    if req.verb != MethodGet then Error(StatusBadRequest, MsgMethodNotAllowed)
    else
      var domain := QueryGet(req.query, "domain");
      if domain == "" then Error(StatusBadRequest, MsgMissingDomain) else Ok(domain)
  }

  /** The row main.go:134-138 inserts: the client address is `RemoteAddr` verbatim,
      port included, and the addresses are their JSON text. */
  function AuditRow(domain: string, req: Request, ips: seq<Ip4>, now: int): (row: Row)
    ensures row.domain == domain && row.clientIp == req.remoteAddr && row.createdAt == now
    ensures Decode(row.addresses) == Some(ips)
  {
    DecodeEncode(ips);
    Row(domain, req.remoteAddr, Encode(ips), now)
  }

  /** lookupHandler. `resolver` stands for the DNS lookup of main.go:123, `now` for
      `time.Now().Unix()`, `insertFails` for the database's answer to the INSERT.
      `resolverCalls` lists the domains the resolver was asked for. */
  method Lookup(store: Store, req: Request, resolver: string -> Resolution, now: int, insertFails: bool)
    returns (reply: Reply<LookupResponse>, resolverCalls: seq<string>)
    modifies store
    ensures LookupGuard(req).Error? ==>
      reply == Error(StatusBadRequest, LookupGuard(req).message) && resolverCalls == [] && store.rows == old(store.rows)
    ensures LookupGuard(req).Ok? ==>
      var domain := LookupGuard(req).value;
      resolverCalls == [domain] &&
      match resolver(domain)
      case Unresolved =>
        reply == Error(StatusNotFound, MsgResolveFailed) && store.rows == old(store.rows)
      case Resolved(ips) =>
        if insertFails then
          reply == Error(StatusInternalServerError, MsgSaveFailed) && store.rows == old(store.rows)
        else
          reply == Ok(LookupResponse(ips, domain)) &&
          store.rows == old(store.rows) + [AuditRow(domain, req, ips, now)]
    ensures old(store.WellFormed()) ==> store.WellFormed()
  {
    resolverCalls := [];
    var guard := LookupGuard(req);
    if guard.Error? {
      reply := Error(guard.status, guard.message);
      return;
    }
    var domain := guard.value;
    var answer := resolver(domain);
    resolverCalls := [domain];
    if answer.Unresolved? {
      reply := Error(StatusNotFound, MsgResolveFailed);
      return;
    }
    var response := LookupResponse(answer.ips, domain);
    var row := AuditRow(domain, req, answer.ips, now);
    var ok := store.Insert(row, insertFails);
    if !ok {
      reply := Error(StatusInternalServerError, MsgSaveFailed);
      return;
    }
    reply := Ok(response);
  }

  /** One history entry (main.go:97-102). */
  datatype QueryHistory = QueryHistory(domain: string, clientIp: string, addresses: seq<Ip4>, createdAt: int)

  /** The entry main.go:176-184 builds from a scanned row; an address column that does
      not decode leaves the nil list, because the Unmarshal error is dropped. */
  function ToHistory(row: Row): (qh: QueryHistory)
    ensures qh.domain == row.domain && qh.clientIp == row.clientIp && qh.createdAt == row.createdAt
    ensures Decode(row.addresses).Some? ==> qh.addresses == Decode(row.addresses).value
    ensures Decode(row.addresses).None? ==> qh.addresses == []
  {
    QueryHistory(row.domain, row.clientIp, DecodeOrNil(row.addresses), row.createdAt)
  }

  /** The write/read round trip between main.go:136 and main.go:183: the history entry
      read from a row a lookup recorded holds that lookup's domain, client address,
      timestamp and resolved addresses in the resolver's order. */
  lemma HistoryReadsBackLookup(domain: string, req: Request, ips: seq<Ip4>, now: int)
    ensures ToHistory(AuditRow(domain, req, ips, now)) == QueryHistory(domain, req.remoteAddr, ips, now)
  {
    DecodeEncode(ips);
  }

  /** Whether `rows.Scan` fails on the i-th row of the result; `scanFails` stands for the
      database driver's answers, and a row it does not mention scans. */
  predicate ScanFails(scanFails: seq<bool>, i: nat)
  {
    i < |scanFails| && scanFails[i]
  }

  /** historyHandler. `queryFails` stands for an error from the SELECT, `scanFails` for
      the row scans, `iterFails` for `rows.Err()` after the last row. The store is read
      only. */
  method History(store: Store, verb: string, queryFails: bool, scanFails: seq<bool>, iterFails: bool)
    returns (reply: Reply<seq<QueryHistory>>)
    ensures verb != MethodGet ==> reply == Error(StatusBadRequest, MsgMethodNotAllowed)
    ensures verb == MethodGet && queryFails ==> reply == Error(StatusInternalServerError, MsgFetchFailed)
    ensures verb == MethodGet && !queryFails ==>
      if exists i :: 0 <= i < |store.Query()| && ScanFails(scanFails, i) then
        reply == Error(StatusInternalServerError, MsgRowDecodeFailed)
      else if iterFails then
        reply == Error(StatusInternalServerError, MsgFetchFailed)
      else
        reply.Ok? && |reply.value| == |store.Query()| &&
        forall k :: 0 <= k < |reply.value| ==> reply.value[k] == ToHistory(store.Query()[k])
    ensures reply.Ok? ==> |reply.value| <= HistoryLimit
    ensures reply.Ok? ==> forall i, j :: 0 <= i < j < |reply.value| ==> reply.value[i].createdAt >= reply.value[j].createdAt
  {
    if verb != MethodGet {
      return Error(StatusBadRequest, MsgMethodNotAllowed);
    }
    if queryFails {
      return Error(StatusInternalServerError, MsgFetchFailed);
    }
    var window := store.Query();
    var history: seq<QueryHistory> := [];
    var i := 0;
    while i < |window|
      invariant 0 <= i <= |window|
      invariant forall k :: 0 <= k < i ==> !ScanFails(scanFails, k)
      invariant |history| == i
      invariant forall k :: 0 <= k < i ==> history[k] == ToHistory(window[k])
    {
      if ScanFails(scanFails, i) {
        return Error(StatusInternalServerError, MsgRowDecodeFailed);
      }
      history := history + [ToHistory(window[i])];
      i := i + 1;
    }
    if iterFails {
      return Error(StatusInternalServerError, MsgFetchFailed);
    }
    reply := Ok(history);
  }

  /** A lookup recorded at a second later than every row in the table is the first entry
      of the next history response, with the addresses in the resolver's order. */
  lemma RecordedLookupHeadsHistory(rows: seq<Row>, domain: string, req: Request, ips: seq<Ip4>, now: int)
    requires forall i :: 0 <= i < |rows| ==> rows[i].createdAt < now
    ensures var window := Recent(rows + [AuditRow(domain, req, ips, now)], HistoryLimit);
      |window| >= 1 && ToHistory(window[0]) == QueryHistory(domain, req.remoteAddr, ips, now)
  {
    NewestRowHeadsWindow(rows, AuditRow(domain, req, ips, now), HistoryLimit);
  }
}
