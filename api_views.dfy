/** The administrative API: unblocking and blocking an address, the
  * visitor-log listing's pagination, and the configuration view. */
module ApiViews {
  import opened Common
  import opened Policy
  import opened Logs
  import opened Blocks
  import opened RateLimiter
  import opened IntConversion

  /** The answers of the administrative views. */
  datatype ApiBody =
    | ErrorBody(error: string)
    | UnblockedBody(message: string, unblockedCount: int)
    | BlockDetails(message: string, ip: string, reason: string, permanent: bool, expiresAt: Option<int>)
    | LogPage(page: Page)
    | ConfigBody(config: RateLimitConfig)

  datatype ApiResponse = ApiResponse(status: int, body: ApiBody)

  /** Switch off the active row of an address; the counters of the
    * address are left alone, because no action is named in the clear. */
  method UnblockIpView(registry: BlockRegistry, limiter: Limiter, ip: Option<string>) returns (resp: ApiResponse)
    modifies registry, limiter
    ensures limiter.Stores() == old(limiter.Stores()) && limiter.backendDown == old(limiter.backendDown)
    ensures !Truthy(ip) ==>
      resp == ApiResponse(400, ErrorBody("IP address is required")) && registry.records == old(registry.records)
    ensures Truthy(ip) && !(ip.value in old(registry.records) && old(registry.records)[ip.value].active) ==>
      resp == ApiResponse(404, ErrorBody("No active block found for IP " + ip.value))
      && registry.records == old(registry.records)
    ensures Truthy(ip) && ip.value in old(registry.records) && old(registry.records)[ip.value].active ==>
      resp == ApiResponse(200, UnblockedBody("Successfully unblocked IP " + ip.value, 1))
      && registry.records == old(registry.records)[ip.value := old(registry.records)[ip.value].(active := false)]
  {
    if !Truthy(ip) {
      return ApiResponse(400, ErrorBody("IP address is required"));
    }
    var addr := ip.value;
    if !(addr in registry.records && registry.records[addr].active) {
      return ApiResponse(404, ErrorBody("No active block found for IP " + addr));
    }
    registry.records := registry.records[addr := registry.records[addr].(active := false)];
    ClearWithoutActionKeepsAll(ip, None);
    limiter.ClearRateLimit(ip, None, None);
    resp := ApiResponse(200, UnblockedBody("Successfully unblocked IP " + addr, 1));
  }

  const DefaultBlockReason: string := "Manually blocked by admin"
  const DefaultBlockHours: int := 24

  /** The row of an address after an administrator blocked it: a new row
    * with the defaults, or the existing row with its flags and start time
    * reset; a timed block ends `hours` after `now`, a permanent one keeps
    * whatever expiry the row had. */
  function AdminBlocked(existing: Option<BlockRecord>, reason: string, hours: int, permanent: bool,
                        adminEmail: string, now: int): BlockRecord
  {
    var base :=
      match existing
      case None => NewRecord(reason, now).(permanent := permanent, blockedByAdmin := true, active := true, attemptCount := 0)
      case Some(r) => r.(reason := reason, permanent := permanent, blockedByAdmin := true, active := true, blockedAt := now);
    var timed := if !permanent then base.(expiresAt := Some(now + hours * 3600)) else base;
    timed.(adminNotes := Some("Manually blocked by " + adminEmail))
  }

  /** What an administrator's block sets, and what it keeps: the rule, the
    * attempt history and (for a permanent block) the expiry of an existing
    * row. */
  lemma AdminBlockFields(existing: Option<BlockRecord>, reason: string, hours: int, permanent: bool,
                         adminEmail: string, now: int)
    ensures var r := AdminBlocked(existing, reason, hours, permanent, adminEmail, now);
      && r.active && r.blockedByAdmin && r.permanent == permanent && r.reason == reason && r.blockedAt == now
      && r.adminNotes == Some("Manually blocked by " + adminEmail)
      && r.expiresAt == (if !permanent then Some(now + hours * 3600)
                         else if existing.Some? then existing.value.expiresAt else None)
      && r.attemptCount == (if existing.Some? then existing.value.attemptCount else 0)
      && r.lastAttemptAt == (if existing.Some? then existing.value.lastAttemptAt else None)
      && r.rule == (if existing.Some? then existing.value.rule else None)
  {
  }

  /** Blocking again with the same arguments gives the same row. */
  lemma AdminBlockIdempotent(existing: Option<BlockRecord>, reason: string, hours: int, permanent: bool,
                             adminEmail: string, now: int)
    ensures var once := AdminBlocked(existing, reason, hours, permanent, adminEmail, now);
      AdminBlocked(Some(once), reason, hours, permanent, adminEmail, now) == once
  {
  }

  /** A permanent block holds at every time; a timed one holds exactly up
    * to its end, so a negative duration does not block at all. */
  lemma AdminBlockHolds(existing: Option<BlockRecord>, reason: string, hours: int, permanent: bool,
                        adminEmail: string, now: int, t: int)
    ensures var r := AdminBlocked(existing, reason, hours, permanent, adminEmail, now);
      && (permanent ==> BlockedNow(r, t))
      && (!permanent ==> (BlockedNow(r, t) <==> t <= now + hours * 3600))
      && (!permanent && hours < 0 ==> !BlockedNow(r, now))
  {
  }

  /** The block length asked for: 24 hours when the field is absent,
    * otherwise `int()` of the value, None when that raises. */
  function RequestedHours(durationHours: Option<RawValue>): Option<int> {
    match durationHours
    case None => Some(DefaultBlockHours)
    case Some(v) => PyInt(v)
  }

  /** The block length a request yields: 24 hours by default, the number a
    * digit string spells, the whole part of a float, and a failure for null
    * or for text that is not a number. */
  lemma RequestedHoursCases(n: int, x: real)
    ensures RequestedHours(None) == Some(24)
    ensures RequestedHours(Some(NullValue)) == None
    ensures RequestedHours(Some(TextValue(IntToString(n)))) == Some(n)
    ensures RequestedHours(Some(TextValue("24 hours"))) == None
    ensures var h := RequestedHours(Some(FloatValue(x)));
      h.Some? && (x >= 0.0 ==> 0 <= h.value && h.value as real <= x) && (x < 0.0 ==> x <= h.value as real <= 0.0)
  {
    TextRoundTrip(n, "");
    TruncationBounds(x);
    assert Strip("24 hours") == "24 hours";
    assert !IsDigit("24 hours"[2]);
  }

  /** Block an address by hand, creating its row or updating it in place.
    * The block length is converted first, so a value `int()` refuses fails
    * the whole request with a 500 even when the address is missing. */
  method BlockIpView(registry: BlockRegistry, ip: Option<string>, reason: Option<string>, durationHours: Option<RawValue>,
                     isPermanent: Option<bool>, adminEmail: string, now: int) returns (resp: ApiResponse)
    modifies registry
    ensures RequestedHours(durationHours).None? ==>
      resp == ApiResponse(500, ErrorBody("Failed to block IP address")) && registry.records == old(registry.records)
    ensures RequestedHours(durationHours).Some? && !Truthy(ip) ==>
      resp == ApiResponse(400, ErrorBody("IP address is required")) && registry.records == old(registry.records)
    ensures RequestedHours(durationHours).Some? && Truthy(ip) ==>
      var r := AdminBlocked(Lookup(old(registry.records), ip.value), reason.GetOr(DefaultBlockReason),
                            RequestedHours(durationHours).value, isPermanent.GetOr(false), adminEmail, now);
      && registry.records == old(registry.records)[ip.value := r]
      && resp == ApiResponse(200, BlockDetails("Successfully blocked IP " + ip.value, ip.value, r.reason, r.permanent, r.expiresAt))
  {
    var why := reason.GetOr(DefaultBlockReason);
    var requested := RequestedHours(durationHours);
    if requested.None? {
      return ApiResponse(500, ErrorBody("Failed to block IP address"));
    }
    var hours := requested.value;
    var permanent := isPermanent.GetOr(false);
    if !Truthy(ip) {
      return ApiResponse(400, ErrorBody("IP address is required"));
    }
    var addr := ip.value;
    var row: BlockRecord;
    if addr !in registry.records {
      row := NewRecord(why, now).(permanent := permanent, blockedByAdmin := true, active := true, attemptCount := 0);
    } else {
      row := registry.records[addr];
      row := row.(reason := why, permanent := permanent, blockedByAdmin := true, active := true, blockedAt := now);
    }
    if !permanent {
      row := row.(expiresAt := Some(now + hours * 3600));
    }
    row := row.(adminNotes := Some("Manually blocked by " + adminEmail));
    registry.records := registry.records[addr := row];
    resp := ApiResponse(200, BlockDetails("Successfully blocked IP " + addr, addr, why, permanent, row.expiresAt));
  }

  /** Python's `//`. */
  function FloorDiv(a: int, b: int): int
    requires b != 0
  {
    if b > 0 then a / b else (-a) / (-b)
  }

  /** One page of the visitor-log listing. */
  datatype Page = Page(logs: seq<VisitorLog>, page: int, pageSize: int, totalCount: int, totalPages: int)

  const MaxPageSize: int := 100

  /** The page `page` of `rows` (already filtered, newest first) with the
    * requested page size capped at 100. A negative slice bound or a page
    * size of 0 makes the view fail with a server error. */
  function PageOf(rows: seq<VisitorLog>, page: int, requested: int): Option<Page> {
    var size := Min(requested, MaxPageSize);
    var offset := (page - 1) * size;
    if offset < 0 || offset + size < 0 || size == 0 then None
    else
      var lo := Min(offset, |rows|);
      var hi := Max(lo, Min(offset + size, |rows|));
      Some(Page(rows[lo..hi], page, size, |rows|, FloorDiv(|rows| + size - 1, size)))
  }

  /** `(n + size - 1) // size` is the ceiling of `n / size`. */
  lemma CeilingDivision(n: int, size: int)
    requires n >= 0 && size > 0
    ensures var q := FloorDiv(n + size - 1, size);
      && q >= 0
      && (n == 0 ==> q == 0)
      && (n > 0 ==> (q - 1) * size < n <= q * size)
  {
    var q := FloorDiv(n + size - 1, size);
    assert q == (n + size - 1) / size;
    var r := (n + size - 1) % size;
    assert q * size + r == n + size - 1 && 0 <= r < size;
    assert (q - 1) * size == q * size - size;
  }

  /** A position before `q * size` lies on one of the first `q` pages. */
  lemma PositionBeforeEnd(i: int, size: int, q: int)
    requires 0 <= i && size > 0 && i < q * size
    ensures i / size < q
  {
    var d := i / size;
    assert d * size + i % size == i;
    assert d * size <= i;
    assert (q - d) * size == q * size - d * size > 0;
  }

  /** For a positive page size and page number the listing never fails;
    * the page holds at most `size` rows, the ones at positions
    * `offset .. offset + size` in order, and the page count is the
    * ceiling of the total over the page size. */
  lemma PageMeaning(rows: seq<VisitorLog>, page: int, requested: int)
    requires requested > 0 && page >= 1
    ensures var size := Min(requested, MaxPageSize);
      var offset := (page - 1) * size;
      && PageOf(rows, page, requested).Some?
      && var p := PageOf(rows, page, requested).value;
      && p.pageSize == size && 0 < size <= MaxPageSize
      && p.totalCount == |rows|
      && |p.logs| <= size
      && (forall j :: 0 <= j < |p.logs| ==> offset + j < |rows| && p.logs[j] == rows[offset + j])
      && (offset + size <= |rows| ==> |p.logs| == size)
      && (|rows| == 0 ==> p.totalPages == 0)
      && (|rows| > 0 ==> (p.totalPages - 1) * size < |rows| <= p.totalPages * size)
  {
    var size := Min(requested, MaxPageSize);
    var offset := (page - 1) * size;
    assert offset >= 0 by {
      NonNegativeProduct(page - 1, size);
    }
    var lo := Min(offset, |rows|);
    var hi := Max(lo, Min(offset + size, |rows|));
    var p := PageOf(rows, page, requested).value;
    assert p.logs == rows[lo..hi];
    assert |p.logs| == hi - lo <= size;
    forall j | 0 <= j < |p.logs|
      ensures offset + j < |rows| && p.logs[j] == rows[offset + j]
    {
      assert lo == offset;
    }
    CeilingDivision(|rows|, size);
  }

  lemma NonNegativeProduct(a: int, b: int)
    requires a >= 0 && b >= 0
    ensures a * b >= 0
  {
  }

  /** Every row appears on exactly one page: row `i` is the `i % size`-th
    * row of page `i / size + 1`, and that page is within the page count. */
  lemma EveryRowOnItsPage(rows: seq<VisitorLog>, requested: int, i: int)
    requires requested > 0 && 0 <= i < |rows|
    ensures var size := Min(requested, MaxPageSize);
      var pg := i / size + 1;
      && PageOf(rows, pg, requested).Some?
      && i % size < |PageOf(rows, pg, requested).value.logs|
      && PageOf(rows, pg, requested).value.logs[i % size] == rows[i]
      && 1 <= pg <= PageOf(rows, pg, requested).value.totalPages
  {
    var size := Min(requested, MaxPageSize);
    var pg := i / size + 1;
    assert (pg - 1) * size + i % size == i;
    PageMeaning(rows, pg, requested);
    var q := FloorDiv(|rows| + size - 1, size);
    CeilingDivision(|rows|, size);
    PositionBeforeEnd(i, size, q);
  }

  /** A page size of 0, or a first page beyond a negative size, fails. */
  lemma BadPageSizesFail(rows: seq<VisitorLog>, page: int)
    ensures PageOf(rows, page, 0).None?
    ensures PageOf(rows, 1, -1).None?
  {
  }

  /** A query-string parameter read with `int()`: the default when it is
    * absent, None when the text is not a number. */
  function QueryInt(q: Option<string>, default: int): Option<int> {
    match q
    case None => Some(default)
    case Some(text) => ParseInt(text)
  }

  /** The visitor-log listing's answer for the query parameters `page`,
    * `page_size` and `days` as sent. The rows are already filtered, so
    * `days` matters only when it is not a number. */
  function VisitorLogsView(rows: seq<VisitorLog>, page: Option<string>, pageSize: Option<string>, days: Option<string>): (resp: ApiResponse)
    ensures resp.status == 500 <==>
      || QueryInt(page, 1).None? || QueryInt(pageSize, 50).None? || QueryInt(days, 1).None?
      || PageOf(rows, QueryInt(page, 1).value, QueryInt(pageSize, 50).value).None?
    ensures resp.status == 500 ==> resp.body == ErrorBody("Failed to get visitor logs")
    ensures resp.status != 500 ==>
      && resp.status == 200 && resp.body.LogPage?
      && QueryInt(page, 1).Some? && QueryInt(pageSize, 50).Some?
      && PageOf(rows, QueryInt(page, 1).value, QueryInt(pageSize, 50).value) == Some(resp.body.page)
  {
    if QueryInt(page, 1).None? || QueryInt(pageSize, 50).None? || QueryInt(days, 1).None? then
      ApiResponse(500, ErrorBody("Failed to get visitor logs"))
    else
      match PageOf(rows, QueryInt(page, 1).value, QueryInt(pageSize, 50).value)
      case None => ApiResponse(500, ErrorBody("Failed to get visitor logs"))
      case Some(p) => ApiResponse(200, LogPage(p))
  }

  /** With no parameters, the listing shows the first 50 rows. */
  lemma DefaultListing(rows: seq<VisitorLog>)
    ensures var resp := VisitorLogsView(rows, None, None, None);
      && resp.status == 200 && resp.body.LogPage?
      && resp.body.page.pageSize == 50
      && resp.body.page.logs == rows[..Min(50, |rows|)]
  {
  }

  /** A page and page size written as numbers give that page; a page
    * parameter without a digit fails the listing. */
  lemma ListingFromQuery(rows: seq<VisitorLog>, page: int, size: int, bad: string)
    requires page >= 1 && size > 0
    requires forall i :: 0 <= i < |bad| ==> !IsDigit(bad[i])
    ensures var resp := VisitorLogsView(rows, Some(IntToString(page)), Some(IntToString(size)), None);
      resp.status == 200 && Some(resp.body.page) == PageOf(rows, page, size)
    ensures VisitorLogsView(rows, Some(bad), None, None).status == 500
  {
    TextRoundTrip(page, "");
    TextRoundTrip(size, "");
    PageMeaning(rows, page, size);
    NoDigitsNoNumber(bad);
  }

  /** The configuration view: the active row of the table as it stands when
    * the view is called, or 404 when there is none. The limiter read the
    * table once, when it was built, so this row is not necessarily the one it
    * enforces: a row edited or switched off since then, or a start-up load
    * that fell back to its stand-in, leaves the two apart. */
  function RateLimitConfigView(active: Option<RateLimitConfig>): (resp: ApiResponse)
    ensures resp.status == 404 <==> active.None?
    ensures active.Some? ==> resp == ApiResponse(200, ConfigBody(LoadConfig(active)))
    ensures active.None? ==> resp.body == ErrorBody("No active rate limit configuration found")
  {
    if active.None? then ApiResponse(404, ErrorBody("No active rate limit configuration found"))
    else ApiResponse(200, ConfigBody(active.value))
  }
}
