/**
 * The ledger side of the cooperative registry: the `coops` table rows of the
 * registrator contract and the paginated `get_table_rows` walk that reads all
 * of them. The ledger node is a script of responses, one per request in
 * order. A silent node is a failed request (every request carries a 10 s
 * timeout); a script that runs out before the walk stops only marks the end of
 * what is modelled, with a request still outstanding.
 */
module CoopTable {
  import opened Options

  /** A row of the `coops` table. */
  datatype CoopEntry = CoopEntry(username: string, announce: string, isCooperative: bool, status: string)

  const TableName := "coops"
  const PageLimit := 1000
  const RequestTimeoutMs := 10000
  const GetTableRowsPath := "/v1/chain/get_table_rows"

  /** Where the table lives: the node's base URL and the registrator contract,
      which is both the `code` and the `scope` of the query. */
  datatype Source = Source(apiUrl: string, contract: string)

  /** One `get_table_rows` POST: its URL, its JSON body and its timeout. */
  datatype PageRequest = PageRequest(
    url: string, code: string, scope: string, table: string, json: bool,
    limit: nat, lowerBound: Option<string>, timeoutMs: nat)

  /** What one request yields: a page (whose `rows` and `next_key` may be
      missing), or a network or HTTP failure. */
  datatype PageResponse =
    | Page(rows: Option<seq<CoopEntry>>, more: bool, nextKey: Option<string>)
    | RequestFailed(message: string)

  /** The result of a whole walk, with every request it sent. */
  datatype FetchOutcome =
    | Fetched(rows: seq<CoopEntry>, requests: seq<PageRequest>)
    | FetchFailed(message: string, requests: seq<PageRequest>)
    | NoReply(requests: seq<PageRequest>)

  /** The request for the page that starts at `lowerBound`; an empty cursor is
      sent as an absent `lower_bound`. */
  function RequestFor(src: Source, lowerBound: string): (q: PageRequest)
    ensures q.lowerBound.None? <==> lowerBound == ""
    ensures q.lowerBound.Some? ==> q.lowerBound.value == lowerBound
  {
    PageRequest(src.apiUrl + GetTableRowsPath, src.contract, src.contract, TableName, true,
                PageLimit, if lowerBound == "" then None else Some(lowerBound), RequestTimeoutMs)
  }

  /** `next_key || ''`. */
  function NextCursor(r: PageResponse): string {
    if r.Page? && r.nextKey.Some? then r.nextKey.value else ""
  }

  /** A response after which the walk asks for another page: a non-empty page
      that says `more`. */
  predicate Continues(r: PageResponse) {
    r.Page? && r.rows.Some? && |r.rows.value| > 0 && r.more
  }

  /** The cursor the walk sends with its `j`-th request. */
  function CursorBefore(script: seq<PageResponse>, j: nat): string
    requires j <= |script|
  {
    if j == 0 then "" else NextCursor(script[j - 1])
  }

  /** The rows a response contributes when it is consumed. */
  function RowsOf(r: PageResponse): seq<CoopEntry> {
    if r.Page? && r.rows.Some? then r.rows.value else []
  }

  /** The rows of the given responses, concatenated in order. */
  function ConcatRows(rs: seq<PageResponse>): seq<CoopEntry>
    decreases |rs|
  {
    if |rs| == 0 then [] else ConcatRows(rs[..|rs| - 1]) + RowsOf(rs[|rs| - 1])
  }

  /** The index of the first response after which the walk stops asking. */
  function StopIndex(script: seq<PageResponse>): (k: nat)
    ensures k <= |script|
    ensures forall j :: 0 <= j < k ==> Continues(script[j])
    ensures k < |script| ==> !Continues(script[k])
    decreases |script|
  {
    if |script| == 0 || !Continues(script[0]) then 0 else 1 + StopIndex(script[1..])
  }

  /** The first `k` responses continue and the next one (if any) does not:
      then `k` is the stop index. */
  lemma StopIndexUnique(script: seq<PageResponse>, k: nat)
    requires k <= |script|
    requires forall j :: 0 <= j < k ==> Continues(script[j])
    requires k < |script| ==> !Continues(script[k])
    ensures StopIndex(script) == k
  {
  }

  /**
   * Everything the walk promises about its outcome `o`. With `k` the stop
   * index, exactly `k + 1` requests go out; the first carries no lower bound
   * and each later one carries the previous page's `next_key` (absent when
   * that key is empty or missing), always with `limit` 1000. The walk then
   * fails with the `k`-th failure, or returns the rows of the first `k` pages
   * when page `k` is empty or has no rows, or of the first `k + 1` pages when
   * page `k` is the last one (`more` false); a script with no response `k`
   * ends with that request still outstanding.
   */
  ghost predicate FetchContract(src: Source, script: seq<PageResponse>, o: FetchOutcome) {
    var k := StopIndex(script);
    && |o.requests| == k + 1
    && (forall j :: 0 <= j < |o.requests| ==> o.requests[j] == RequestFor(src, CursorBefore(script, j)))
    && (k == |script| ==> o.NoReply?)
    && (k < |script| && script[k].RequestFailed? ==> o == FetchFailed(script[k].message, o.requests))
    && (k < |script| && script[k].Page? && (script[k].rows.None? || |script[k].rows.value| == 0) ==>
          o == Fetched(ConcatRows(script[..k]), o.requests))
    && (k < |script| && script[k].Page? && script[k].rows.Some? && |script[k].rows.value| > 0 ==>
          o == Fetched(ConcatRows(script[..k + 1]), o.requests))
  }

  /** Taking one more response appends its rows. */
  lemma ConcatRowsStep(script: seq<PageResponse>, i: nat)
    requires i < |script|
    ensures ConcatRows(script[..i + 1]) == ConcatRows(script[..i]) + RowsOf(script[i])
  {
    assert script[..i + 1][..i] == script[..i];
  }

  /** A walk that stops at response `i` with the requests `sent` meets the
      contract when its outcome matches what response `i` says. */
  lemma StopMeetsContract(src: Source, script: seq<PageResponse>, i: nat, sent: seq<PageRequest>, o: FetchOutcome)
    requires i <= |script|
    requires forall j :: 0 <= j < i ==> Continues(script[j])
    requires i < |script| ==> !Continues(script[i])
    requires |sent| == i + 1 && o.requests == sent
    requires forall j :: 0 <= j <= i ==> sent[j] == RequestFor(src, CursorBefore(script, j))
    requires i == |script| ==> o.NoReply?
    requires i < |script| && script[i].RequestFailed? ==> o == FetchFailed(script[i].message, sent)
    requires i < |script| && script[i].Page? && (script[i].rows.None? || |script[i].rows.value| == 0) ==>
               o == Fetched(ConcatRows(script[..i]), sent)
    requires i < |script| && script[i].Page? && script[i].rows.Some? && |script[i].rows.value| > 0 ==>
               o == Fetched(ConcatRows(script[..i + 1]), sent)
    ensures FetchContract(src, script, o)
  {
    StopIndexUnique(script, i);
  }

  /** The walk of `fetchAllCoopsRows`: request pages from an empty cursor on,
      append each page's rows, and stop at the first empty or last page. */
  method FetchAllRows(src: Source, script: seq<PageResponse>) returns (o: FetchOutcome)
    ensures FetchContract(src, script, o)
  {
    var allRows: seq<CoopEntry> := [];
    var lowerBound := "";
    var sent: seq<PageRequest> := [];
    var i := 0;
    while true
      invariant 0 <= i <= |script|
      invariant forall j :: 0 <= j < i ==> Continues(script[j])
      invariant allRows == ConcatRows(script[..i])
      invariant lowerBound == CursorBefore(script, i)
      invariant |sent| == i
      invariant forall j :: 0 <= j < i ==> sent[j] == RequestFor(src, CursorBefore(script, j))
      decreases |script| - i
    {
      sent := sent + [RequestFor(src, lowerBound)];
      if i == |script| {
        o := NoReply(sent);
        StopMeetsContract(src, script, i, sent, o);
        return;
      }
      var response := script[i];
      if response.RequestFailed? {
        o := FetchFailed(response.message, sent);
        StopMeetsContract(src, script, i, sent, o);
        return;
      }
      if response.rows.None? || |response.rows.value| == 0 {
        o := Fetched(allRows, sent);
        StopMeetsContract(src, script, i, sent, o);
        return;
      }
      ConcatRowsStep(script, i);
      allRows := allRows + response.rows.value;
      if !response.more {
        o := Fetched(allRows, sent);
        StopMeetsContract(src, script, i, sent, o);
        return;
      }
      lowerBound := NextCursor(response);
      i := i + 1;
    }
  }

  /** The contract pins the outcome down completely. */
  lemma FetchContractDeterministic(src: Source, script: seq<PageResponse>, o1: FetchOutcome, o2: FetchOutcome)
    requires FetchContract(src, script, o1) && FetchContract(src, script, o2)
    ensures o1 == o2
  {
    assert o1.requests == o2.requests;
  }

  /** The cursor threading of the requests, field by field. */
  lemma RequestsThreadCursor(src: Source, script: seq<PageResponse>, o: FetchOutcome)
    requires FetchContract(src, script, o)
    ensures |o.requests| >= 1 && o.requests[0].lowerBound == None
    ensures forall j :: 0 < j < |o.requests| ==>
              o.requests[j].lowerBound ==
                (if script[j - 1].nextKey.None? || script[j - 1].nextKey.value == "" then None
                 else script[j - 1].nextKey)
    ensures forall j :: 0 <= j < |o.requests| ==>
              && o.requests[j].url == src.apiUrl + "/v1/chain/get_table_rows"
              && o.requests[j].code == src.contract && o.requests[j].scope == src.contract
              && o.requests[j].table == "coops" && o.requests[j].json
              && o.requests[j].limit == 1000 && o.requests[j].timeoutMs == 10000
  {
  }

  /** Two pages, 1000 rows with `more` and then 3 rows without: the walk sends
      two requests and yields the 1003 rows in page order. */
  lemma TwoPageWalk(src: Source, a: seq<CoopEntry>, b: seq<CoopEntry>, key: string, lastKey: Option<string>, o: FetchOutcome)
    requires |a| == 1000 && |b| == 3
    requires FetchContract(src, [Page(Some(a), true, Some(key)), Page(Some(b), false, lastKey)], o)
    ensures o.Fetched? && o.rows == a + b && |o.rows| == 1003
    ensures |o.requests| == 2 && o.requests[1] == RequestFor(src, key)
  {
    var script := [Page(Some(a), true, Some(key)), Page(Some(b), false, lastKey)];
    StopIndexUnique(script, 1);
    ConcatRowsStep(script, 0);
    ConcatRowsStep(script, 1);
    assert script[..0] == [];
  }
}
