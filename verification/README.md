# LiveKit webhook relay to cooperative controllers: a Dafny model

The relay receives signed LiveKit webhooks and forwards each one to the
controller of every active cooperative. It learns the cooperatives by polling
the `coops` table of the `registrator` contract on the ledger.

This project models the three parts of the relay that make decisions and
proves their properties. Most of the model is pure functions over immutable
values. The two places that loop or sequence effects are methods:
`CoopTable.FetchAllRows` (the page walk) and `CoopRegistry.RefreshFromLedger`
(a refresh that runs the walk).

- **The cooperative registry** (`CoopTable`, `CoopRegistry`).
  - A paginated `get_table_rows` walk reads the table: cursor threading,
    stop conditions, failure.
  - A filter keeps active cooperatives that have a non-blank `announce`, and
    trims that `announce`.
  - The result is a snapshot keyed by username. It has the insertion order of
    a JavaScript `Map`.
  - A small state machine holds the snapshot, the single-flight
    `isRefreshing` flag and the refresh timer handle. Its transitions are
    refresh start and finish, timer ticks, `start`, `stop` and
    `getActiveCoops`.
- **The fan-out** (`FanOut`): one POST of the raw body to
  `https://{announce}/backend/v1/extensions/chatcoop/livekit-webhook` for
  every coop of the snapshot, with `Authorization` passed on only when it is
  truthy. The outcomes are folded into `{total, success, failed, errors}`.
- **The inbound gate** (`WebhookHandler`): signature verification, then
  fan-out, then exactly one of three responses (401, 200 or 500). `Relay`
  plugs the modelled fan-out over the registry's snapshot into the gate.

Two helper modules model the ECMAScript semantics the code relies on:
- `JsString`: string truthiness, and `String.prototype.trim` over the
  WhiteSpace and LineTerminator code points (sections 12.2 and 12.3 of
  ECMA-262).
- `OrderedMaps`: a `Map` that keeps keys in insertion order. `set` on a key
  that is already present keeps the key's position (section 24.1 of ECMA-262).

Abstractions:
- The ledger node is a finite script of responses, one per request. A node
  that stays silent past the 10000 ms request timeout answers `RequestFailed`.
- The cooperative controllers are a network oracle `(index, Delivery) -> Attempt`.
- Signature verification is an oracle `(rawBody, authHeader) -> Verification`.
- Timer ticks are calls of `Tick`.
- The pending `await` of a refresh is the gap between `BeginRefresh` and
  `FinishRefresh`.

Three facts about the code shape the model:
- **One attempt per coop.** `forward` makes one POST per coop and has no
  retry or backoff (`src/fan-out.ts:32-55`). `FanOut.Forward` models exactly
  that.
- **Unparsed body.** The raw body is sent unchanged as a string
  (`src/fan-out.ts:37-45`). `forward` has no parse step, so it has no
  payload-error path.
- **Hard-coded path.** The target path is fixed at `src/fan-out.ts:34` as
  `/backend/v1/extensions/chatcoop/livekit-webhook`, and the configured
  `apiPrefix` is never read. The comment at `src/fan-out.ts:10` gives another
  path; the model uses the one the code builds.

## Model

| member | source | states |
|---|---|---|
| JsString.Leading | src/coop-registry.ts:71 | the forward scan of `trim()` stops at the first character that is neither white space nor a line terminator, after skipping only trimmable ones |
| JsString.Trailing | src/coop-registry.ts:71 | the backward scan of `trim()` stops just past the last non-trimmable character, after skipping only trimmable ones |
| JsString.TrimSpec | src/coop-registry.ts:74 | `trim()` returns the infix of the string that is surrounded only by trimmable characters and, when non-empty, starts and ends with a non-trimmable one |
| JsString.TrimBlankIff | src/coop-registry.ts:71 | a string trims to `""` exactly when every character is white space or a line terminator |
| JsString.TrimIdempotent | src/coop-registry.ts:74 | trimming an already trimmed `announce` changes nothing |
| OrderedMaps.EmptyHoldsNothing | src/coop-registry.ts:67 | in a `new Map()` every `get` misses and iterating its values yields nothing |
| OrderedMaps.ValuesAreStored | src/coop-registry.ts:55 | every stored value appears in the values list and the list holds nothing else |
| OrderedMaps.SetEffect | src/coop-registry.ts:72-77 | after `set`, `get` of that key yields the new value and every other key is unchanged; the values list gains the value at the end for a new key, or has it replaced in place for an existing one |
| CoopTable.StopIndex | src/coop-registry.ts:115-119 | the walk keeps requesting exactly while pages are non-empty and say `more`; the stop index is the first response that does not |
| CoopTable.FetchAllRows | src/coop-registry.ts:94-124 | the walk sends k+1 requests, with cursors threaded from `next_key`; it fails with the first failure (a timeout included), or returns the in-order concatenation of the pages' rows, excluding a final empty or missing page and including a final `more == false` page; a script that ends before the walk stops leaves the last request outstanding |
| CoopTable.FetchContractDeterministic | src/coop-registry.ts:94-124 | the walk's contract determines its outcome and its request list completely |
| CoopTable.RequestsThreadCursor | src/coop-registry.ts:96-120 | the first request has no `lower_bound`; each later one carries the previous page's `next_key`, or none when that key is empty or missing; every request is POSTed to the node URL + `/v1/chain/get_table_rows` as JSON with code and scope the registrator contract, table `coops`, limit 1000 and a 10000 ms timeout |
| CoopTable.TwoPageWalk | src/coop-registry.ts:113-119 | a page of 1000 rows with `more`, then a page of 3 rows without, yields the 1003 rows in page order after two requests, the second starting at the first page's `next_key` |
| CoopRegistry.Normalize | src/coop-registry.ts:71-77 | the stored entry copies `username`, `is_cooperative` and `status` and holds the trimmed `announce`; built from a row that passes the filter, it passes the filter itself and trimming it again changes nothing |
| CoopRegistry.QualifiesIff | src/coop-registry.ts:71 | a row enters the map iff `is_cooperative` holds, `status == "active"`, and `announce` contains a character that is neither white space nor a line terminator |
| CoopRegistry.AdmitKeepsWellFormed | src/coop-registry.ts:69-79 | one loop iteration keeps every entry under its own username and passing the filter |
| CoopRegistry.SnapshotWellFormed | src/coop-registry.ts:67-81 | after a refresh every entry is keyed by its username, passes the filter and has a trimmed `announce` |
| CoopRegistry.AdmitKeys | src/coop-registry.ts:71-72 | one loop iteration adds exactly the username of a qualifying row |
| CoopRegistry.SnapshotMembership | src/coop-registry.ts:69-79 | a username is in the new map iff some fetched row with that name qualifies |
| CoopRegistry.SnapshotLastWins | src/coop-registry.ts:72-77 | the entry stored for a username is the one built from the last qualifying row with that name |
| CoopRegistry.FirstQualifying | src/coop-registry.ts:69-71 | the index of the first qualifying row with a given name, or the row count when there is none |
| CoopRegistry.AdmitKeyOrder | src/coop-registry.ts:72 | one loop iteration appends a username that is new and leaves the key order alone otherwise |
| CoopRegistry.SnapshotOrder | src/coop-registry.ts:67-79 | the map's key order, and so the fan-out order, is the order in which usernames first qualify among the fetched rows |
| CoopRegistry.ActiveCoopsAreSnapshot | src/coop-registry.ts:54-56 | the active list holds exactly the stored entries, all passing the filter, with no username twice |
| CoopRegistry.ActiveCoopsOrder | src/coop-registry.ts:54-79 | after a refresh `getActiveCoops()`, and so the fan-out, lists the coops in the order in which their usernames first qualify among the fetched rows |
| CoopRegistry.Refresh | src/coop-registry.ts:61-89 | a whole refresh is a no-op while another is in flight; otherwise it leaves the flag false and the timer alone, keeps the whole state on a failed fetch, and installs the new snapshot on success |
| CoopRegistry.TicksDuringRefreshAreDropped | src/coop-registry.ts:34-38 | timer ticks that fire while a fetch is in flight change nothing and are not queued: the refresh ends as if they never came |
| CoopRegistry.Start | src/coop-registry.ts:29-39 | `start()` refreshes once and then holds the interval timer handle |
| CoopRegistry.StopIdempotent | src/coop-registry.ts:44-49 | a second `stop()` clears nothing and changes nothing |
| CoopRegistry.StartThenStop | src/coop-registry.ts:29-49 | `stop()` after `start()` clears exactly the handle `start()` armed and leaves the refreshed snapshot and the flag unchanged |
| CoopRegistry.TransitionsKeepWellFormed | src/coop-registry.ts:61-89 | the snapshot invariant holds initially and after every refresh, start and stop |
| CoopRegistry.RefreshFromLedger | src/coop-registry.ts:61-89 | a refresh against the ledger fetches only when none is in flight; a fetched walk installs its rows' snapshot, a failed one (a timed-out request included) keeps the state with the flag lowered, and one whose request is still outstanding when the script ends is still in flight, flag raised |
| FanOut.CountDelivered | src/fan-out.ts:57-59 | the number of successful attempts never exceeds the number of attempts |
| FanOut.FailedIndices | src/fan-out.ts:61-64 | the positions of the failed attempts, each once and in increasing order |
| FanOut.Forward | src/fan-out.ts:24-75 | no coops give `{0, 0, 0, []}` with no delivery; otherwise there is one POST per coop to `https://` + announce + the webhook path, with the body unchanged and `Authorization` present iff the header is truthy; `total` is the coop count and `success + failed == total` |
| FanOut.CountDeliveredIsSetSize | src/fan-out.ts:57-59 | `success` is the number of coops whose attempt was delivered |
| FanOut.FailedCount | src/fan-out.ts:69-74 | failed and delivered attempts add up to all attempts |
| FanOut.ErrorsFollowFailures | src/fan-out.ts:61-65 | the j-th error entry names the j-th failed coop and its message, or "unknown" if that message is empty |
| FanOut.ForwardReport | src/fan-out.ts:49-74 | in a `forward` report, `success` counts the delivered coops; `errors` has exactly `failed` entries, one per failed coop in snapshot order, each with the attempt's message or "unknown" |
| FanOut.OneTimeoutOneSuccess | src/fan-out.ts:32-74 | with two coops, where the first times out and the second succeeds, the report is total 2, success 1, failed 1, with only the first coop in `errors` |
| WebhookHandler.Handle | src/webhook-handler.ts:23-58 | exactly one of 401, 200 or 500 is returned. A rejected signature gives 401 "Invalid webhook signature" with no `forward` call. A verified one gives one `forward` call with the same body and header. A result gives 200 with the event, the room name (absent when there is no room) and total/success/failed copied. A thrown error gives 500 "Internal server error" |
| WebhookHandler.GateDeliveries | src/webhook-handler.ts:30-42 | with the modelled fan-out behind the gate, a rejected request causes no delivery and a verified one causes exactly the deliveries of one `forward` of the raw body and header |
| WebhookHandler.Relay | src/webhook-handler.ts:30-52 | with the modelled fan-out over the registry's snapshot, a rejected signature reaches no coop. A verified request gets 200 and never 500, reports as many coops as the snapshot holds with `success + failed == total`, and every delivery carries the raw body |

## Left out

- `src/index.ts` is not part of this model: Express wiring, the `/health` route, signal handling and `process.exit` only call into the core.
- `src/config.ts` is not part of this model. Environment loading and `parseInt` appear here only as parameters: the node URL and contract in `CoopTable.Source`, and the fan-out timeout as `timeoutMs`.
- HTTP transport (`axios.post`) is not modelled. Page responses are a given script and delivery outcomes come from an oracle. The per-request timeouts appear only as fields of the modelled requests, and a timeout is one kind of failed attempt or failed page.
- The timer (`setInterval` and `clearInterval`) is not modelled. The timer is an optional handle, and ticks are calls of `Tick`. Calling `start()` twice overwrites the first handle without clearing it, as the source does.
- Concurrency is not modelled. `Promise.allSettled` is an order-preserving map, since its callbacks catch every error and never reject. Interleavings are limited to ticks arriving between `BeginRefresh` and `FinishRefresh`.
- Error message extraction (`err instanceof Error ? err.message : String(err)`) is not modelled. The oracles supply the message string directly.
- `console.*` logging is not modelled.
- Row contents from the ledger are not checked at runtime. Rows have the TypeScript `CoopEntry` shape. A row whose `announce` is not a string, which would make `trim()` throw and fail the whole refresh, is not modelled.
- Strings are sequences of Unicode scalar values. UTF-16 lone surrogates in JavaScript strings are not represented.
- CoopTable.FetchAllRows: termination is not proved for an arbitrary ledger. The node is a finite script of responses. A silent node is a `RequestFailed` page, because every request has a 10000 ms timeout. `NoReply` only means the script ended before the walk stopped, so the last request is still outstanding. A node that keeps answering `more` with a repeating or empty `next_key` keeps the real walk looping forever; the model covers any finite prefix of such a run.
- Retry and backoff do not exist in this code, so they are not modelled.
