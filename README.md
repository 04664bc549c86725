# DNS lookup and audit service — a Dafny model

The service answers three kinds of request over HTTP: it validates IPv4 address text,
resolves a domain to its IPv4 addresses and records every successful lookup in a
`query_history` table, and returns the 20 most recent recorded lookups. Before serving,
it connects to the database with up to five attempts and quadratic backoff.

This project models that core and proves what it promises:

- `Ipv4` — IPv4 addresses, their dotted-decimal text, and the validator's verdict. The
  verdict accepts exactly the texts that are the dotted-decimal form of some address.
- `AddressJson` — the JSON array of address strings stored in the `addresses` column.
  Decoding the text written for an address list gives back the same list in the same order.
- `AuditStore` — the table as a sequence of rows, changed in place by the INSERT. It also
  models the `ORDER BY created_at DESC LIMIT 20` window: at most 20 rows, newest first,
  taken from the table, with no row left out newer than a row returned.
- `Handlers` — the validate, lookup and history handlers. Each one maps every guard to
  its status code and message. Lookup appends exactly one row on success and nothing
  otherwise. History changes nothing, and a failed row scan gives no partial list.
- `Bootstrap` — the connection loop. It stops at the first attempt that succeeds. Every
  failed attempt i is followed by a sleep of i*i seconds, including the fifth. The run
  ends fatally exactly when all five attempts fail.
- `Text`, `Wrappers` — splitting and joining strings, and `Option`.

DNS, the database's answers, the clock and `time.Sleep` are not called. They are
parameters: a resolver function, flags for a failing INSERT, SELECT or row scan, the
current second, and a recorded list of sleep durations.

The model keeps these behaviours of the code:

- The stored client address is `r.RemoteAddr` verbatim, port included (main.go:134). It
  is not stripped to the host.
- The lookup success body holds only `addresses` and `domain` (main.go:92-95, 130-133).
  It does not hold the whole recorded event.
- An address column that does not decode does not fail the history request. The
  `json.Unmarshal` error at main.go:183 is dropped, and the entry gets the nil (empty)
  address list.
- The bootstrap also sleeps after the fifth failed attempt, before the fatal exit
  (main.go:258-261). Five failures therefore sleep 55 seconds in all.

## Model

| member | source | states |
|---|---|---|
| `Ipv4.ParseFormat` | main.go:81 | the dotted-decimal text of every address is accepted and parses back to that address |
| `Ipv4.FormatParse` | main.go:81 | every accepted text is exactly the dotted-decimal form of the address it denotes, so leading zeros, octets over 255, extra or missing fields and stray characters are refused |
| `Ipv4.IsIPv4Exactly` | main.go:81 | the validator's verdict is true iff the text is the dotted-decimal form of some IPv4 address (both directions) |
| `Ipv4.AcceptsPrivateAddress` | main.go:81 | "192.168.1.1" is accepted |
| `Ipv4.RefusesLargeOctet` | main.go:81 | "999.1.1.1" is refused |
| `Ipv4.RefusesIpv6Text` | main.go:81 | "::1" is refused |
| `Ipv4.RefusesEmpty` | main.go:81 | the empty string is refused |
| `Ipv4.RefusesLeadingZero` | main.go:81 | "01.2.3.4" is refused |
| `AddressJson.DecodeEncode` | main.go:136 | decoding the JSON written for an address list yields the same list in the same order |
| `AuditStore.SortByTimeSpec` | main.go:163 | `ORDER BY created_at DESC` puts rows in non-increasing `created_at` order and is a permutation of the table |
| `AuditStore.RecentIsNewestWindow` | main.go:163 | the `LIMIT 20` window has min(20, table size) rows, newest first, drawn from the table, and every row left out is no newer than every row returned |
| `AuditStore.NewestRowHeadsWindow` | main.go:163 | a row newer than every stored row is the first row of the next window |
| `AuditStore.Store.Insert` | main.go:138-144 | a successful INSERT appends exactly the given row, and a failed one leaves the table unchanged |
| `AuditStore.HeadLeavesOutNoNewer` | main.go:163 | a window that is the front of a newest-first arrangement of the table leaves out no row newer than one it holds |
| `AuditStore.Store.Query` | main.go:163 | the SELECT returns min(20, table size) rows, newest first, taken from the table, forming the front of a newest-first arrangement of the whole table (so no row left out is newer), and changes nothing |
| `Handlers.ValidateIP` | main.go:63-88 | non-POST gives 400 "Method not allowed"; an undecodable body gives 400 "Bad request"; otherwise 200 with `status` true iff `ip` is the dotted-decimal form of an address; 400 exactly in those two cases |
| `Handlers.QueryGet` | main.go:115 | when the key is present the value read is the one given at its first occurrence; when it is absent the value is "" |
| `Handlers.LookupGuard` | main.go:109-121 | the request passes exactly when it is a GET with a non-empty `domain`, and then the domain is that value; otherwise 400 with "Method not allowed" for a non-GET and "Bad request: missing domain" for a missing or empty domain |
| `Handlers.AuditRow` | main.go:134-138 | the recorded row holds the domain, `RemoteAddr` verbatim, the current second, and address text that decodes to the resolved list |
| `Handlers.Lookup` | main.go:104-152 | a failing guard gives 400, calls no resolver and leaves the table unchanged; a resolver failure gives 404 and leaves it unchanged; a failing INSERT gives 500; success gives 200 with `{addresses in resolver order, domain}` and appends exactly one row; well-formed address columns stay well-formed |
| `Handlers.HistoryReadsBackLookup` | main.go:134-184 | the history entry read back from the row a lookup recorded holds that lookup's domain, `RemoteAddr`, timestamp and resolved addresses in resolver order |
| `Handlers.History` | main.go:154-197 | non-GET gives 400; a query error gives 500; a row scan error gives 500 with no list; a cursor error gives 500; otherwise 200 with one entry per window row, in order, at most 20, non-increasing `created_at`; the table is only read |
| `Handlers.RecordedLookupHeadsHistory` | main.go:134-184 | a lookup recorded later than every stored row is the first history entry afterwards, with its domain, client address, timestamp and addresses in resolver order |
| `Bootstrap.Connect` | main.go:246-262 | at most 5 attempts; it stops at the first success with no sleep after it; failed attempt i is followed by a sleep of i*i seconds, the fifth included; the end is fatal iff all five attempts failed, with the last attempt's error |
| `Bootstrap.DelaysIncrease` | main.go:258 | the i-th sleep is i*i seconds and every sleep is longer than the one before it |
| `Bootstrap.AllFailedSleepTotal` | main.go:246-259 | five failed attempts sleep 55 seconds in all |

## Left out

- HTTP routing and server setup (main.go:264-275), `RootHandler`, `healthHandler`, `swaggerHandler` and `metricHandler`: they are routing, a wall-clock and environment read, or byte passthroughs with no decision in them.
- Logging and the log-file setup (main.go:229-235): output only, with nothing to state.
- The graceful-shutdown goroutine, the signal channel and the 5-second drain (main.go:277-297): concurrency and process lifecycle. Requests are modelled one at a time, so concurrent interleavings of inserts and selects are not modelled.
- DNS resolution, `sql.Open`, `Ping`, `Exec`, `Query`, `rows.Scan`, `time.Now` and `time.Sleep` are not called. Their outcomes are parameters, and sleeps are recorded as durations.
- Ipv4.IsIPv4: covers the dotted-decimal branch of Go's `net.ParseIP(...).To4()` only, as Go 1.17 and later parse dotted-decimal text (earlier versions also accept leading zeros, such as "01.2.3.4"). Go also accepts the IPv4-mapped IPv6 form, written "::ffff:1.2.3.4" or in hex as "::ffff:c0a8:101"; the model refuses both. Other IPv6 text, such as "::1.2.3.4", is refused by Go and by the model.
- AddressJson.Decode: reads the compact form `json.Marshal` writes. It accepts no whitespace, escapes or other JSON spellings, and when one element fails it does not keep the elements decoded before it.
- AddressJson.Decode: Go's `net.IP.UnmarshalText` also accepts IPv6 element text, and "" as a nil IP. On such elements the model's decode fails, so the entry's address list becomes empty. Only rows this service did not write can hold them.
- AddressJson.Encode: writes "[]" for an empty list where Go writes "null" for a nil slice. A successful resolution never returns an empty list, so no stored row differs.
- The request body of validate and the query string of lookup enter already decoded (`ValidateBody`, `(key, value)` pairs). JSON body parsing and URL percent-decoding are library code.
- The JSON encoding of response bodies (`json.NewEncoder(w).Encode`) is not modelled. Replies are records.
- Handlers.History: among rows with equal `created_at`, the reply follows the one order the model's sort picks; the database may return such rows in another order. The size, the newest-first order and the "no newer row left out" property of the window do not depend on it.
- Handlers.History: treats a `rows.Err()` failure as arising after the last row. A cursor that breaks mid-way also gives 500, but the model does not say which rows were scanned before it broke.
- `created_at` goes through `to_timestamp` and `t.Unix()` as the same integer. Time-zone effects of the column type are not modelled.
- The order among rows with equal `created_at` is left open by the SQL. The model picks one order. `AuditStore.RecentIsNewestWindow` and `AuditStore.Store.Query` state only what holds for every order, but `Handlers.History` returns the rows in the model's order.
