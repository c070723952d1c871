/**
 * The registry of active cooperatives: the filter that turns `coops` rows into
 * delivery targets, the snapshot it builds (a JavaScript `Map` from username to
 * entry), and the small state machine around it: the snapshot, the
 * single-flight `isRefreshing` flag and the refresh timer handle.
 */
module CoopRegistry {
  import opened Options
  import opened JsString
  import opened OrderedMaps
  import opened CoopTable

  const ActiveStatus := "active"

  /** The handle `setInterval` returns; the timer itself is outside the model,
      each of its ticks is a call of `Tick`. */
  type TimerHandle = nat

  type Snapshot = OrderedMap<string, CoopEntry>

  datatype Registry = Registry(coops: Snapshot, refreshTimer: Option<TimerHandle>, isRefreshing: bool)

  /** A freshly constructed registry. */
  const Initial: Registry := Registry(Empty(), None, false)

  /** The refresh filter: an active cooperative with a non-blank `announce`. */
  predicate Qualifies(row: CoopEntry) {
    row.isCooperative && row.status == ActiveStatus && Truthy(row.announce) && Trim(row.announce) != ""
  }

  /** The entry stored for a qualifying row: `announce` trimmed, the rest
      copied. The entry built from a qualifying row passes the filter itself
      and trimming it again changes nothing. */
  function Normalize(row: CoopEntry): (e: CoopEntry)
    ensures e.username == row.username && e.isCooperative == row.isCooperative && e.status == row.status
    ensures e.announce == Trim(row.announce)
    ensures Qualifies(row) ==> Stored(e)
  {
    TrimIdempotent(row.announce);
    CoopEntry(row.username, Trim(row.announce), row.isCooperative, row.status)
  }

  /** An entry the refresh could have stored. */
  ghost predicate Stored(e: CoopEntry) {
    Qualifies(e) && Trim(e.announce) == e.announce
  }

  /** The snapshot invariant: each entry sits under its own username and
      passes the filter with an already trimmed `announce`. */
  ghost predicate WellFormed(s: Snapshot) {
    forall u :: u in s.entries ==> s.entries[u].username == u && Stored(s.entries[u])
  }

  /** The filter, stated without `trim`: `announce` holds some character that
      is neither white space nor a line terminator. */
  lemma QualifiesIff(row: CoopEntry)
    ensures Qualifies(row) <==>
              row.isCooperative && row.status == ActiveStatus
              && exists i :: 0 <= i < |row.announce| && !IsTrimmable(row.announce[i])
  {
    TrimBlankIff(row.announce);
  }

  /** One iteration of the refresh loop over the fetched rows. */
  function Admit(s: Snapshot, row: CoopEntry): Snapshot {
    if Qualifies(row) then Set(s, row.username, Normalize(row)) else s
  }

  /** The new map built from the fetched rows, in row order. */
  function BuildSnapshot(rows: seq<CoopEntry>): Snapshot
    decreases |rows|
  {
    if |rows| == 0 then Empty() else Admit(BuildSnapshot(rows[..|rows| - 1]), rows[|rows| - 1])
  }

  /** A row with username `u` passes the filter. */
  predicate QualifiesAs(row: CoopEntry, u: string) {
    Qualifies(row) && row.username == u
  }

  /** The index of the first qualifying row named `u`, `|rows|` if none. */
  function FirstQualifying(rows: seq<CoopEntry>, u: string): (i: nat)
    ensures i <= |rows|
    ensures i < |rows| ==> QualifiesAs(rows[i], u)
    ensures forall j :: 0 <= j < i ==> !QualifiesAs(rows[j], u)
    decreases |rows|
  {
    if |rows| == 0 || QualifiesAs(rows[0], u) then 0 else 1 + FirstQualifying(rows[1..], u)
  }

  /** One loop iteration keeps the snapshot invariant. */
  lemma AdmitKeepsWellFormed(s: Snapshot, row: CoopEntry)
    requires WellFormed(s)
    ensures WellFormed(Admit(s, row))
  {
  }

  /** Every snapshot satisfies the snapshot invariant. */
  lemma {:induction false} SnapshotWellFormed(rows: seq<CoopEntry>)
    ensures WellFormed(BuildSnapshot(rows))
    decreases |rows|
  {
    if |rows| > 0 {
      SnapshotWellFormed(rows[..|rows| - 1]);
      AdmitKeepsWellFormed(BuildSnapshot(rows[..|rows| - 1]), rows[|rows| - 1]);
    }
  }

  /** Which usernames one loop iteration adds. */
  lemma AdmitKeys(s: Snapshot, row: CoopEntry, u: string)
    ensures u in Admit(s, row).entries <==> u in s.entries || QualifiesAs(row, u)
  {
  }

  /** A username is in the snapshot iff some row with that name qualifies. */
  lemma {:induction false} SnapshotMembership(rows: seq<CoopEntry>, u: string)
    ensures u in BuildSnapshot(rows).entries <==> exists i :: 0 <= i < |rows| && QualifiesAs(rows[i], u)
    decreases |rows|
  {
    if |rows| > 0 {
      var prefix := rows[..|rows| - 1];
      SnapshotMembership(prefix, u);
      AdmitKeys(BuildSnapshot(prefix), rows[|rows| - 1], u);
      assert u in BuildSnapshot(rows).entries <==>
               u in BuildSnapshot(prefix).entries || QualifiesAs(rows[|rows| - 1], u);
      assert forall i :: 0 <= i < |prefix| ==> prefix[i] == rows[i];
    }
  }

  /** The entry stored under a username is the one built from the last
      qualifying row with that name. */
  lemma {:induction false} SnapshotLastWins(rows: seq<CoopEntry>, i: nat)
    requires i < |rows| && Qualifies(rows[i])
    requires forall j :: i < j < |rows| ==> !QualifiesAs(rows[j], rows[i].username)
    ensures rows[i].username in BuildSnapshot(rows).entries
    ensures BuildSnapshot(rows).entries[rows[i].username] == Normalize(rows[i])
    decreases |rows|
  {
    var prefix := rows[..|rows| - 1];
    if i < |prefix| {
      forall j | i < j < |prefix|
        ensures !QualifiesAs(prefix[j], prefix[i].username)
      {
        assert prefix[j] == rows[j];
      }
      SnapshotLastWins(prefix, i);
      assert !QualifiesAs(rows[|rows| - 1], rows[i].username);
    }
  }

  /** The first qualifying row named `u` is the same in `rows` and in the
      prefix without the last row, once the prefix already has one. */
  lemma FirstQualifyingStable(rows: seq<CoopEntry>, u: string, i: nat)
    requires i < |rows| - 1 && QualifiesAs(rows[i], u)
    ensures FirstQualifying(rows, u) == FirstQualifying(rows[..|rows| - 1], u)
  {
    var prefix := rows[..|rows| - 1];
    var f := FirstQualifying(rows, u);
    var g := FirstQualifying(prefix, u);
    assert prefix[i] == rows[i];
    assert f <= i;
    assert QualifiesAs(prefix[f], u) by { assert prefix[f] == rows[f]; }
    assert g <= i;
    assert QualifiesAs(rows[g], u) by { assert rows[g] == prefix[g]; }
  }

  /** How one loop iteration changes the key order. */
  lemma AdmitKeyOrder(s: Snapshot, row: CoopEntry)
    ensures Qualifies(row) && row.username !in s.entries ==> Admit(s, row).keys == s.keys + [row.username]
    ensures !(Qualifies(row) && row.username !in s.entries) ==> Admit(s, row).keys == s.keys
  {
  }

  /** Usernames already in the snapshot of a prefix first qualify inside it. */
  lemma PrefixKeysFirstSeen(rows: seq<CoopEntry>, x: string)
    requires |rows| > 0 && x in BuildSnapshot(rows[..|rows| - 1]).entries
    ensures FirstQualifying(rows, x) == FirstQualifying(rows[..|rows| - 1], x) < |rows| - 1
  {
    var prefix := rows[..|rows| - 1];
    SnapshotMembership(prefix, x);
    var i :| 0 <= i < |prefix| && QualifiesAs(prefix[i], x);
    assert rows[i] == prefix[i];
    FirstQualifyingStable(rows, x, i);
  }

  /** A username new to the snapshot first qualifies at the last row. */
  lemma NewKeyFirstSeen(rows: seq<CoopEntry>)
    requires |rows| > 0 && Qualifies(rows[|rows| - 1])
    requires rows[|rows| - 1].username !in BuildSnapshot(rows[..|rows| - 1]).entries
    ensures FirstQualifying(rows, rows[|rows| - 1].username) == |rows| - 1
  {
    var prefix := rows[..|rows| - 1];
    var u := rows[|rows| - 1].username;
    SnapshotMembership(prefix, u);
    forall j | 0 <= j < |rows| - 1
      ensures !QualifiesAs(rows[j], u)
    {
      assert rows[j] == prefix[j];
    }
  }

  /** The snapshot's key order is the order in which usernames first qualify
      (a JavaScript `Map` keeps a key where it was first set). */
  lemma {:induction false} SnapshotOrder(rows: seq<CoopEntry>)
    ensures forall a, b :: 0 <= a < b < |BuildSnapshot(rows).keys| ==>
              FirstQualifying(rows, BuildSnapshot(rows).keys[a]) < FirstQualifying(rows, BuildSnapshot(rows).keys[b])
    decreases |rows|
  {
    if |rows| > 0 {
      var prefix := rows[..|rows| - 1];
      var last := rows[|rows| - 1];
      var p := BuildSnapshot(prefix);
      var s := BuildSnapshot(rows);
      SnapshotOrder(prefix);
      AdmitKeyOrder(p, last);
      assert s == Admit(p, last);
      forall a, b | 0 <= a < b < |s.keys|
        ensures FirstQualifying(rows, s.keys[a]) < FirstQualifying(rows, s.keys[b])
      {
        assert s.keys[a] == p.keys[a];
        PrefixKeysFirstSeen(rows, p.keys[a]);
        if b < |p.keys| {
          assert s.keys[b] == p.keys[b];
          PrefixKeysFirstSeen(rows, p.keys[b]);
        } else {
          NewKeyFirstSeen(rows);
        }
      }
    }
  }

  /** `getActiveCoops()`: the entries of the current map in key order. */
  function GetActiveCoops(reg: Registry): (coops: seq<CoopEntry>)
    ensures |coops| == |reg.coops.keys|
    ensures forall i :: 0 <= i < |coops| ==> coops[i] == reg.coops.entries[reg.coops.keys[i]]
  {
    Values(reg.coops)
  }

  /** Under the snapshot invariant the active list holds exactly the stored
      entries, each once, all passing the filter. */
  lemma ActiveCoopsAreSnapshot(reg: Registry)
    requires WellFormed(reg.coops)
    ensures forall u :: u in reg.coops.entries ==> reg.coops.entries[u] in GetActiveCoops(reg)
    ensures forall e :: e in GetActiveCoops(reg) ==> Stored(e) && e.username in reg.coops.entries
    ensures forall i, j :: 0 <= i < j < |GetActiveCoops(reg)| ==>
              GetActiveCoops(reg)[i].username != GetActiveCoops(reg)[j].username
  {
    ValuesAreStored(reg.coops);
    var coops := GetActiveCoops(reg);
    forall e | e in coops
      ensures Stored(e) && e.username in reg.coops.entries
    {
      var i :| 0 <= i < |coops| && coops[i] == e;
      assert reg.coops.keys[i] in reg.coops.entries;
    }
    forall i, j | 0 <= i < j < |coops|
      ensures coops[i].username != coops[j].username
    {
      assert reg.coops.keys[i] in reg.coops.entries && reg.coops.keys[j] in reg.coops.entries;
    }
  }

  /** After a refresh the active list, which is also the fan-out order, lists
      the coops in the order in which their usernames first qualify among the
      fetched rows. */
  lemma ActiveCoopsOrder(reg: Registry, rows: seq<CoopEntry>)
    requires reg.coops == BuildSnapshot(rows)
    ensures forall a, b :: 0 <= a < b < |GetActiveCoops(reg)| ==>
              FirstQualifying(rows, GetActiveCoops(reg)[a].username) < FirstQualifying(rows, GetActiveCoops(reg)[b].username)
  {
    SnapshotOrder(rows);
    SnapshotWellFormed(rows);
    var coops := GetActiveCoops(reg);
    forall i | 0 <= i < |coops|
      ensures coops[i].username == reg.coops.keys[i]
    {
      assert reg.coops.keys[i] in reg.coops.entries;
    }
  }

  /** The outcome of asking for a refresh: the next state and whether a fetch
      was started. */
  datatype Begun = Begun(registry: Registry, fetching: bool)

  /** The synchronous head of `refresh()`: a refresh already in flight makes the
      request a no-op; otherwise the flag is raised and a fetch starts. */
  function BeginRefresh(reg: Registry): (b: Begun)
    ensures reg.isRefreshing ==> b == Begun(reg, false)
    ensures !reg.isRefreshing ==> b.fetching && b.registry == reg.(isRefreshing := true)
  {
    if reg.isRefreshing then Begun(reg, false) else Begun(reg.(isRefreshing := true), true)
  }

  /** The tail of `refresh()` once the fetch settles: a fetched row list
      replaces the map wholesale, a failure keeps the old one; either way the
      flag is lowered. */
  function FinishRefresh(reg: Registry, fetched: Result<seq<CoopEntry>>): (r: Registry)
    ensures !r.isRefreshing && r.refreshTimer == reg.refreshTimer
    ensures fetched.Err? ==> r.coops == reg.coops
    ensures fetched.Ok? ==> r.coops == BuildSnapshot(fetched.value)
  {
    match fetched
    case Ok(rows) => reg.(coops := BuildSnapshot(rows), isRefreshing := false)
    case Err(_) => reg.(isRefreshing := false)
  }

  /** A whole `refresh()` whose fetch settles with `fetched` before anything
      else happens. */
  function Refresh(reg: Registry, fetched: Result<seq<CoopEntry>>): (r: Registry)
    ensures reg.isRefreshing ==> r == reg
    ensures !reg.isRefreshing ==> !r.isRefreshing && r.refreshTimer == reg.refreshTimer
    ensures !reg.isRefreshing && fetched.Err? ==> r == reg
    ensures !reg.isRefreshing && fetched.Ok? ==> r.coops == BuildSnapshot(fetched.value)
  {
    var b := BeginRefresh(reg);
    if b.fetching then FinishRefresh(b.registry, fetched) else b.registry
  }

  /** A timer tick: the interval callback calls `refresh()`. */
  function Tick(reg: Registry): Begun {
    BeginRefresh(reg)
  }

  /** `n` timer ticks in a row, with no fetch settling in between. */
  function Ticks(reg: Registry, n: nat): Registry
    decreases n
  {
    if n == 0 then reg else Ticks(Tick(reg).registry, n - 1)
  }

  /** Ticks that arrive while a fetch is in flight are dropped, not queued:
      they change nothing, and the refresh finishes as if they never came. */
  lemma {:induction false} TicksDuringRefreshAreDropped(reg: Registry, n: nat, fetched: Result<seq<CoopEntry>>)
    requires !reg.isRefreshing
    ensures Ticks(BeginRefresh(reg).registry, n) == BeginRefresh(reg).registry
    ensures FinishRefresh(Ticks(BeginRefresh(reg).registry, n), fetched) == Refresh(reg, fetched)
    decreases n
  {
    if n > 0 {
      var r1 := BeginRefresh(reg).registry;
      assert Tick(r1).registry == r1;
      TicksDuringRefreshAreDropped(reg, n - 1, fetched);
    }
  }

  /** `start()`: one refresh, then the interval timer is armed. */
  function Start(reg: Registry, fetched: Result<seq<CoopEntry>>, handle: TimerHandle): (r: Registry)
    ensures r.refreshTimer == Some(handle)
    ensures r.isRefreshing == reg.isRefreshing
    ensures !reg.isRefreshing && fetched.Ok? ==> r.coops == BuildSnapshot(fetched.value)
    ensures reg.isRefreshing || fetched.Err? ==> r.coops == reg.coops
  {
    Refresh(reg, fetched).(refreshTimer := Some(handle))
  }

  /** The outcome of `stop()`: the next state and the handle it cleared. */
  datatype Stopped = Stopped(registry: Registry, cleared: Option<TimerHandle>)

  /** `stop()`: clear the timer if one is set, otherwise do nothing. */
  function Stop(reg: Registry): (s: Stopped)
    ensures s.cleared == reg.refreshTimer
    ensures s.registry == reg.(refreshTimer := None)
  {
    match reg.refreshTimer
    case Some(h) => Stopped(reg.(refreshTimer := None), Some(h))
    case None => Stopped(reg, None)
  }

  /** Stopping twice clears nothing the second time. */
  lemma StopIdempotent(reg: Registry)
    ensures Stop(Stop(reg).registry) == Stopped(Stop(reg).registry, None)
  {
  }

  /** `stop()` after `start()` clears the very handle `start()` armed and
      leaves the refreshed snapshot and the flag as they were. */
  lemma StartThenStop(reg: Registry, fetched: Result<seq<CoopEntry>>, handle: TimerHandle)
    ensures Stop(Start(reg, fetched, handle)) == Stopped(Refresh(reg, fetched).(refreshTimer := None), Some(handle))
  {
  }

  /** The snapshot invariant holds initially and survives every transition. */
  lemma TransitionsKeepWellFormed(reg: Registry, fetched: Result<seq<CoopEntry>>, handle: TimerHandle)
    requires WellFormed(reg.coops)
    ensures WellFormed(Initial.coops)
    ensures WellFormed(BeginRefresh(reg).registry.coops)
    ensures WellFormed(FinishRefresh(reg, fetched).coops)
    ensures WellFormed(Refresh(reg, fetched).coops)
    ensures WellFormed(Start(reg, fetched, handle).coops)
    ensures WellFormed(Stop(reg).registry.coops)
  {
    if fetched.Ok? {
      SnapshotWellFormed(fetched.value);
    }
  }

  /** A `refresh()` that really talks to the ledger: skipped while another is
      in flight; otherwise the walk runs and its outcome settles the refresh.
      A walk whose last request is still outstanding when the script ends
      leaves the refresh in flight, flag raised. */
  method RefreshFromLedger(reg: Registry, src: Source, script: seq<PageResponse>) returns (r: Registry, walk: Option<FetchOutcome>)
    ensures reg.isRefreshing <==> walk.None?
    ensures reg.isRefreshing ==> r == reg
    ensures walk.Some? ==> FetchContract(src, script, walk.value)
    ensures walk.Some? && walk.value.Fetched? ==> r == reg.(coops := BuildSnapshot(walk.value.rows))
    ensures walk.Some? && walk.value.FetchFailed? ==> r == reg
    ensures walk.Some? && walk.value.NoReply? ==> r == reg.(isRefreshing := true)
  {
    var b := BeginRefresh(reg);
    if !b.fetching {
      return b.registry, None;
    }
    var o := FetchAllRows(src, script);
    match o {
      case Fetched(rows, _) => r := FinishRefresh(b.registry, Ok(rows));
      case FetchFailed(message, _) => r := FinishRefresh(b.registry, Err(message));
      case NoReply(_) => r := b.registry;
    }
    walk := Some(o);
  }
}
