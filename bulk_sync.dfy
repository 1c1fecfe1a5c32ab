/** The bulk-sync coordination of the API client (utils/api/api.py): the
    sync request and its polling, the log filter, the paged download of
    sync data, the segment refresh poll, and the upload flows that delete
    an import only after a successful sync. The server is given as the
    sequence of its answers; every request the client sends is returned,
    with its path relative to the bulk root (or the REST root, for the
    segment calls). */
module BulkSync {
  import opened Outcomes
  import opened Text
  import EloquaApi
  import Paging

  /** A request to the API. */
  datatype Request =
    | PostDefinition(path: string)
    | PostData(path: string)
    | PostSync(syncedInstanceUri: string)
    | Get(path: string)
    | GetData(path: string, limit: nat, offset: nat)
    | Delete(path: string)
    | PostList(name: string)   // REST `assets/contact/list`, in the shared-list folder
    | PostQueue(path: string)  // REST queueing of a segment for recalculation

  // ---------------------------------------------------------------- eloqua_post_sync

  /** The statuses after which a sync no longer changes. */
  predicate IsTerminal(status: string)
  {
    status == "warning" || status == "error" || status == "success"
  }

  /** The server's answer to the sync request: the sync's URI and an
      initial status (which the client ignores). */
  datatype SyncHandle = SyncHandle(uri: string, status: string)

  /** The first poll answer, at index `k` or later, that is terminal. */
  function FirstTerminal(polls: seq<string>, k: nat): (r: Option<nat>)
    requires k <= |polls|
    ensures r.Some? ==> k <= r.value < |polls| && IsTerminal(polls[r.value])
    ensures r.Some? ==> forall j | k <= j < r.value :: !IsTerminal(polls[j])
    ensures r.None? ==> forall j | k <= j < |polls| :: !IsTerminal(polls[j])
    decreases |polls| - k
  {
    if k == |polls| then None
    else if IsTerminal(polls[k]) then Some(k)
    else FirstTerminal(polls, k + 1)
  }

  /** The sleeps after the first n non-terminal polls: 5, 10, …, 5·n seconds. */
  function Waits(n: nat): (r: seq<nat>)
    ensures |r| == n
    ensures forall k | 0 <= k < n :: r[k] == 5 * (k + 1)
  {
    if n == 0 then [] else Waits(n - 1) + [5 * n]
  }

  /** The delay grows with every attempt: later waits are strictly longer. */
  lemma WaitsIncrease(n: nat)
    ensures forall i, j | 0 <= i < j < n :: Waits(n)[i] < Waits(n)[j]
  {
  }

  function Repeat(r: Request, n: nat): (s: seq<Request>)
    ensures |s| == n
    ensures forall k | 0 <= k < n :: s[k] == r
  {
    if n == 0 then [] else Repeat(r, n - 1) + [r]
  }

  /** One entry of a sync log. */
  datatype LogItem = LogItem(severity: string, message: string, count: int)

  /** A line the log report shows. */
  datatype Shown = WarningLine(item: LogItem) | SuccessLine(item: LogItem)

  predicate IsSuccessMessage(message: string)
  {
    message == "Contacts created." || message == "Contacts updated."
  }

  /** The lines shown for one log entry: the two tests are independent. */
  function ItemLines(item: LogItem): (r: seq<Shown>)
    ensures WarningLine(item) in r <==> item.severity == "warning"
    ensures SuccessLine(item) in r <==> IsSuccessMessage(item.message)
    ensures forall line | line in r :: line.item == item
  {
    (if item.severity == "warning" then [WarningLine(item)] else [])
      + (if IsSuccessMessage(item.message) then [SuccessLine(item)] else [])
  }

  function ShownLines(items: seq<LogItem>): seq<Shown>
  {
    if |items| == 0 then [] else ShownLines(items[..|items| - 1]) + ItemLines(items[|items| - 1])
  }

  /** Only shown entries make lines: each line belongs to an entry of the
      log that is a warning or carries a success message. */
  lemma {:induction false} ShownLinesFromLog(items: seq<LogItem>)
    ensures forall line | line in ShownLines(items) ::
      line.item in items &&
      (line.WarningLine? ==> line.item.severity == "warning") &&
      (line.SuccessLine? ==> IsSuccessMessage(line.item.message))
    decreases |items|
  {
    if |items| > 0 {
      ShownLinesFromLog(items[..|items| - 1]);
      assert forall x | x in items[..|items| - 1] :: x in items;
    }
  }

  /** Every entry that qualifies is shown, once per test it passes. */
  lemma {:induction false} ShownLinesComplete(items: seq<LogItem>, i: nat)
    requires i < |items|
    ensures items[i].severity == "warning" ==> WarningLine(items[i]) in ShownLines(items)
    ensures IsSuccessMessage(items[i].message) ==> SuccessLine(items[i]) in ShownLines(items)
    decreases |items|
  {
    if i < |items| - 1 {
      ShownLinesComplete(items[..|items| - 1], i);
    }
  }

  /** The log request: `syncs/{id}/logs`, where the id is the last
      `/`-segment of the sync URI. */
  function LogPath(syncUri: string): string
  {
    "syncs/" + LastSegment(syncUri, '/') + "/logs"
  }

  /** A sync URI ending in `/syncs/{id}` has its log under `syncs/{id}/logs`. */
  lemma LogPathOfSync(prefix: string, id: string)
    requires '/' !in id
    ensures LogPath(prefix + "/" + id) == "syncs/" + id + "/logs"
  {
    LastSegmentAfterSeparator(prefix, '/', id);
  }

  /** `eloqua_log_sync`: the log request, the lines shown, and the log,
      returned as the server sent it. */
  method LogSync(syncUri: string, log: seq<LogItem>) returns (request: Request, shown: seq<Shown>, returned: seq<LogItem>)
    ensures request == Get(LogPath(syncUri))
    ensures shown == ShownLines(log)
    ensures returned == log
  {
    request := Get("syncs/" + LastSegment(syncUri, '/') + "/logs");
    shown := [];
    for i := 0 to |log|
      invariant shown == ShownLines(log[..i])
    {
      var item := log[i];
      assert log[..i + 1][..i] == log[..i];
      if item.severity == "warning" {
        shown := shown + [WarningLine(item)];
      }
      if item.message == "Contacts created." || item.message == "Contacts updated." {
        shown := shown + [SuccessLine(item)];
      }
    }
    assert log[..|log|] == log;
    returned := log;
  }

  /** What a finished sync reports. */
  datatype SyncResult = SyncResult(status: string, syncUri: string, requests: seq<Request>, shown: seq<Shown>)

  /** The outcome of `eloqua_post_sync` against the given answers: the
      sync request, one status poll per answer up to the first terminal one,
      then one log request. `None` when the answers run out first (the
      client would go on polling). */
  function SyncOutcome(uri: string, handle: SyncHandle, polls: seq<string>, log: seq<LogItem>): Option<SyncResult>
  {
    match FirstTerminal(polls, 0)
    case None => None
    case Some(n) =>
      Some(SyncResult(polls[n], handle.uri,
        [PostSync("/" + uri)] + Repeat(Get(handle.uri), n + 1) + [Get(LogPath(handle.uri))],
        ShownLines(log)))
  }

  /** `eloqua_post_sync`, with the ghost trace of the sleeps between polls. */
  method PostSyncAndWait(uri: string, handle: SyncHandle, polls: seq<string>, log: seq<LogItem>)
    returns (r: Option<SyncResult>, ghost waits: seq<nat>)
    ensures r == SyncOutcome(uri, handle, polls, log)
    ensures r.Some? ==> waits == Waits(FirstTerminal(polls, 0).value)
  {
    var requests := [PostSync("/" + uri)];
    var syncUri := handle.uri;
    var counter := 1;
    waits := [];
    var k := 0;
    while k < |polls|
      invariant 0 <= k <= |polls| && counter == k + 1
      invariant requests == [PostSync("/" + uri)] + Repeat(Get(syncUri), k)
      invariant waits == Waits(k)
      invariant FirstTerminal(polls, 0) == FirstTerminal(polls, k)
    {
      assert Repeat(Get(syncUri), k + 1) == Repeat(Get(syncUri), k) + [Get(syncUri)];
      requests := requests + [Get(syncUri)];
      var status := polls[k];
      if status == "warning" || status == "error" || status == "success" {
        var logRequest, shown, _ := LogSync(syncUri, log);
        requests := requests + [logRequest];
        assert IsTerminal(status) && FirstTerminal(polls, 0) == Some(k);
        assert requests == [PostSync("/" + uri)] + Repeat(Get(syncUri), k + 1) + [Get(LogPath(syncUri))];
        return Some(SyncResult(status, syncUri, requests, shown)), waits;
      }
      waits := waits + [5 * counter];
      counter := counter + 1;
      k := k + 1;
    }
    r := None;
  }

  /** The polling contract: the status returned is terminal and is the
      first terminal answer; the initial status of the sync handle plays no
      part; at least one poll is made; the log is requested exactly once,
      as the last request, after every poll. */
  lemma SyncOutcomeProperties(uri: string, handle: SyncHandle, polls: seq<string>, log: seq<LogItem>, other: string)
    requires SyncOutcome(uri, handle, polls, log).Some?
    ensures var s := SyncOutcome(uri, handle, polls, log).value;
      var n := FirstTerminal(polls, 0).value;
      IsTerminal(s.status) && s.status == polls[n] &&
      (forall j | 0 <= j < n :: !IsTerminal(polls[j])) &&
      |s.requests| == n + 3 &&
      s.requests[0] == PostSync("/" + uri) &&
      (forall k | 1 <= k < |s.requests| - 1 :: s.requests[k] == Get(handle.uri)) &&
      s.requests[|s.requests| - 1] == Get(LogPath(handle.uri))
    ensures SyncOutcome(uri, SyncHandle(handle.uri, other), polls, log) == SyncOutcome(uri, handle, polls, log)
  {
  }

  // ---------------------------------------------------------------- eloqua_sync_data

  /** One page of sync data. */
  datatype DataPage<T> = DataPage(totalResults: int, items: seq<T>, hasMore: bool)

  const SyncPageLimit: nat := 50000

  /** The first answer, at index `k` or later, that says there is no more. */
  function FirstLastPage<T>(pages: seq<DataPage<T>>, k: nat): (r: Option<nat>)
    requires k <= |pages|
    ensures r.Some? ==> k <= r.value < |pages| && !pages[r.value].hasMore
    ensures r.Some? ==> forall j | k <= j < r.value :: pages[j].hasMore
    ensures r.None? ==> forall j | k <= j < |pages| :: pages[j].hasMore
    decreases |pages| - k
  {
    if k == |pages| then None
    else if !pages[k].hasMore then Some(k)
    else FirstLastPage(pages, k + 1)
  }

  /** The items of the pages that report a positive total, in order. */
  function KeptItems<T>(pages: seq<DataPage<T>>, j: nat): seq<T>
    requires j <= |pages|
  {
    if j == 0 then []
    else KeptItems(pages, j - 1) + (if pages[j - 1].totalResults > 0 then pages[j - 1].items else [])
  }

  /** The data requests for the first n pages: offsets 0, 50000, 100000, …
      with limit 50000. */
  function DataRequests(syncUri: string, n: nat): (r: seq<Request>)
    ensures |r| == n
    ensures forall i | 0 <= i < n :: r[i] == GetData(syncUri + "/data", SyncPageLimit, SyncPageLimit * i)
  {
    if n == 0 then [] else DataRequests(syncUri, n - 1) + [GetData(syncUri + "/data", SyncPageLimit, SyncPageLimit * (n - 1))]
  }

  function SyncDataResult<T>(pages: seq<DataPage<T>>): Option<seq<T>>
  {
    match FirstLastPage(pages, 0)
    case None => None
    case Some(n) => Some(KeptItems(pages, n + 1))
  }

  function SyncDataRequests<T>(syncUri: string, pages: seq<DataPage<T>>): seq<Request>
  {
    match FirstLastPage(pages, 0)
    case None => DataRequests(syncUri, |pages|)
    case Some(n) => DataRequests(syncUri, n + 1)
  }

  /** `eloqua_sync_data`: download pages until one says there is no more. */
  method SyncData<T>(syncUri: string, pages: seq<DataPage<T>>) returns (r: Option<seq<T>>, requests: seq<Request>)
    ensures r == SyncDataResult(pages)
    ensures requests == SyncDataRequests(syncUri, pages)
  {
    var offset := 0;
    var response: seq<T> := [];
    requests := [];
    var k := 0;
    while k < |pages|
      invariant 0 <= k <= |pages| && offset == SyncPageLimit * k
      invariant response == KeptItems(pages, k)
      invariant requests == DataRequests(syncUri, k)
      invariant FirstLastPage(pages, 0) == FirstLastPage(pages, k)
    {
      requests := requests + [GetData(syncUri + "/data", SyncPageLimit, offset)];
      var partial := pages[k];
      if partial.totalResults > 0 {
        response := response + partial.items;
      }
      assert response == KeptItems(pages, k + 1);
      if !partial.hasMore {
        return Some(response), requests;
      }
      offset := offset + SyncPageLimit;
      k := k + 1;
    }
    r := None;
  }

  /** A server that reports the true total and serves `items` in pages of
      `limit`, saying there is more while items remain. */
  function HonestDataPages<T>(items: seq<T>, limit: nat, n: nat): (r: seq<DataPage<T>>)
    ensures |r| == n
  {
    if n == 0 then []
    else HonestDataPages(items, limit, n - 1) + [HonestDataPage(items, limit, n - 1)]
  }

  /** Page `k` of the honest server. */
  function HonestDataPage<T>(items: seq<T>, limit: nat, k: nat): DataPage<T>
  {
    DataPage(|items|, Paging.Chunk(items, k, limit), (k + 1) * limit < |items|)
  }

  lemma {:induction false} HonestDataPageAt<T>(items: seq<T>, limit: nat, n: nat, k: nat)
    requires k < n
    ensures HonestDataPages(items, limit, n)[k] == HonestDataPage(items, limit, k)
  {
    if k < n - 1 {
      HonestDataPageAt(items, limit, n - 1, k);
    }
  }

  lemma {:induction false} KeptItemsHonest<T>(items: seq<T>, limit: nat, n: nat, j: nat)
    requires |items| > 0 && j <= n
    ensures KeptItems(HonestDataPages(items, limit, n), j) == Paging.Flatten(Paging.HonestPages(items, limit, n), j)
    decreases j
  {
    if j > 0 {
      var ds := HonestDataPages(items, limit, n);
      var ps := Paging.HonestPages(items, limit, n);
      Paging.HonestPageAt(items, limit, n, j - 1);
      HonestDataPageAt(items, limit, n, j - 1);
      KeptItemsHonest(items, limit, n, j - 1);
      assert ds[j - 1].totalResults > 0 && ds[j - 1].items == ps[j - 1].elements;
    }
  }

  lemma LastPageIndex(t: nat, limit: nat, j: nat)
    requires limit > 0 && t > 0
    ensures (j + 1) * limit < t <==> j < (t - 1) / limit
  {
    Paging.DivBounds(t - 1, limit);
    if j < (t - 1) / limit {
      Paging.MulMono(j + 1, (t - 1) / limit, limit);
    } else {
      Paging.MulMono((t - 1) / limit + 1, j + 1, limit);
    }
  }

  /** An honest server with items says "no more" first on page
      `(|items| - 1) / limit`. */
  lemma HonestLastPage<T>(items: seq<T>, limit: nat, n: nat)
    requires limit > 0 && |items| > 0 && (|items| - 1) / limit < n
    ensures FirstLastPage(HonestDataPages(items, limit, n), 0) == Some((|items| - 1) / limit)
  {
    var pages := HonestDataPages(items, limit, n);
    forall j | 0 <= j < n
      ensures pages[j].hasMore <==> j < (|items| - 1) / limit
    {
      HonestDataPageAt(items, limit, n, j);
      LastPageIndex(|items|, limit, j);
    }
    FirstLastPageIs(pages, 0, (|items| - 1) / limit);
  }

  /** Against an honest server, the download returns every item in order,
      after the fewest requests: one per page of `limit` items (one for no
      items at all). */
  lemma HonestSyncData<T>(items: seq<T>, n: nat)
    requires (if |items| == 0 then 0 else (|items| - 1) / SyncPageLimit) < n
    ensures var pages := HonestDataPages(items, SyncPageLimit, n);
      var m := if |items| == 0 then 0 else (|items| - 1) / SyncPageLimit;
      FirstLastPage(pages, 0) == Some(m) && SyncDataResult(pages) == Some(items)
  {
    var pages := HonestDataPages(items, SyncPageLimit, n);
    if |items| == 0 {
      HonestDataPageAt(items, SyncPageLimit, n, 0);
      assert !pages[0].hasMore;
      FirstLastPageIs(pages, 0, 0);
      assert KeptItems(pages, 1) == KeptItems(pages, 0);
    } else {
      var m := (|items| - 1) / SyncPageLimit;
      HonestLastPage(items, SyncPageLimit, n);
      KeptItemsHonest(items, SyncPageLimit, n, m + 1);
      Paging.FlattenChunks(items, SyncPageLimit, n, m + 1);
      Paging.DivBounds(|items| - 1, SyncPageLimit);
      Paging.OffsetIsMin(m + 1, SyncPageLimit, |items|);
      assert items[..|items|] == items;
    }
  }

  lemma {:induction false} FirstLastPageIs<T>(pages: seq<DataPage<T>>, k: nat, m: nat)
    requires k <= m < |pages| && !pages[m].hasMore
    requires forall j | k <= j < m :: pages[j].hasMore
    ensures FirstLastPage(pages, k) == Some(m)
    decreases m - k
  {
    if k < m {
      FirstLastPageIs(pages, k + 1, m);
    }
  }

  // ---------------------------------------------------------------- eloqua_segment_refresh

  /** An answer to the segment count request. */
  datatype CountReply<C> = CountReply(lastCalculatedAt: Option<int>, count: C)

  /** `lastCalculatedAt`, 0 when the answer lacks it. */
  function CalculatedAt<C>(reply: CountReply<C>): int
  {
    match reply.lastCalculatedAt
    case None => 0
    case Some(t) => t
  }

  function FirstRefreshed<C>(replies: seq<CountReply<C>>, queuedAt: int, k: nat): (r: Option<nat>)
    requires k <= |replies|
    ensures r.Some? ==> k <= r.value < |replies| && CalculatedAt(replies[r.value]) > queuedAt
    ensures r.Some? ==> forall j | k <= j < r.value :: CalculatedAt(replies[j]) <= queuedAt
    ensures r.None? ==> forall j | k <= j < |replies| :: CalculatedAt(replies[j]) <= queuedAt
    decreases |replies| - k
  {
    if k == |replies| then None
    else if CalculatedAt(replies[k]) > queuedAt then Some(k)
    else FirstRefreshed(replies, queuedAt, k + 1)
  }

  /** `eloqua_segment_refresh`: queue the segment, then sleep ten seconds
      before every count request until the count was calculated after the
      queueing. The count of that first fresh answer is returned. */
  method SegmentRefresh<C>(segmentId: string, queuedAt: int, replies: seq<CountReply<C>>)
    returns (r: Option<C>, requests: seq<Request>, ghost sleeps: seq<nat>)
    ensures FirstRefreshed(replies, queuedAt, 0).None? ==> r.None?
    ensures FirstRefreshed(replies, queuedAt, 0).Some? ==>
      var n := FirstRefreshed(replies, queuedAt, 0).value;
      r == Some(replies[n].count) &&
      requests == [PostQueue("assets/contact/segment/queue/" + segmentId)]
        + Repeat(Get("assets/contact/segment/" + segmentId + "/count"), n + 1) &&
      |sleeps| == n + 1 && (forall k | 0 <= k < |sleeps| :: sleeps[k] == 10)
  {
    requests := [PostQueue("assets/contact/segment/queue/" + segmentId)];
    var root := "assets/contact/segment/" + segmentId + "/count";
    sleeps := [];
    var k := 0;
    while k < |replies|
      invariant 0 <= k <= |replies|
      invariant requests == [PostQueue("assets/contact/segment/queue/" + segmentId)] + Repeat(Get(root), k)
      invariant |sleeps| == k && forall j | 0 <= j < k :: sleeps[j] == 10
      invariant FirstRefreshed(replies, queuedAt, 0) == FirstRefreshed(replies, queuedAt, k)
    {
      sleeps := sleeps + [10];
      requests := requests + [Get(root)];
      var refresh := replies[k];
      var calculatedAt := CalculatedAt(refresh);
      if calculatedAt > queuedAt {
        return Some(refresh.count), requests, sleeps;
      }
      k := k + 1;
    }
    r := None;
  }

  // ---------------------------------------------------------------- import clean-up

  /** The clean-up after an import under `imports` (`contacts/imports` or
      `activities/imports`): the DELETE of `{imports}/{id}`, with the id
      taken as the last `/`-segment of the definition URI, sent only when
      the sync status is `success`. */
  function ImportCleanup(imports: string, uri: string, status: string): (r: Option<Request>)
    ensures r.Some? <==> status == "success"
    ensures r.Some? ==> r.value == Delete(imports + "/" + LastSegment(uri, '/'))
  {
    if status == "success" then Some(Delete(imports + "/" + LastSegment(uri, '/'))) else None
  }

  /** For an import defined at `{imports}/{id}`, the DELETE names the import
      that was synced. */
  lemma CleanupDeletesTheImport(imports: string, id: string)
    requires '/' !in id
    ensures ImportCleanup(imports, imports + "/" + id, "success") == Some(Delete(imports + "/" + id))
  {
    LastSegmentAfterSeparator(imports, '/', id);
  }

  /** The clean-up after the activity import of the webinar flow, as the
      code has it: the `contacts/imports` path of the contact clean-up. */
  function ActivityImportCleanupAsWritten(uri: string, status: string): Option<Request>
  {
    ImportCleanup("contacts/imports", uri, status)
  }

  /** The activity definition lives under `activities/imports`, so the
      clean-up as written deletes a contact import with the same number
      instead of the activity import that was synced. */
  lemma ActivityCleanupAsWrittenMissesImport(id: string)
    requires '/' !in id
    ensures ActivityImportCleanupAsWritten("activities/imports/" + id, "success") == Some(Delete("contacts/imports/" + id))
    ensures Delete("contacts/imports/" + id) != Delete("activities/imports/" + id)
  {
    LastSegmentAfterSeparator("activities/imports", '/', id);
    assert "activities/imports/" + id == "activities/imports" + "/" + id;
    assert "contacts/imports" + "/" + id == "contacts/imports/" + id;
    assert ("contacts/imports/" + id)[0] != ("activities/imports/" + id)[0];
  }

  /** The evidently intended clean-up of an activity import: the import
      just synced is the one deleted. */
  lemma ActivityCleanupDeletesTheImport(id: string)
    requires '/' !in id
    ensures ImportCleanup("activities/imports", "activities/imports/" + id, "success") == Some(Delete("activities/imports/" + id))
  {
    CleanupDeletesTheImport("activities/imports", id);
    assert "activities/imports" + "/" + id == "activities/imports/" + id;
  }

  // ---------------------------------------------------------------- upload flows

  function Cleanups(c: Option<Request>): seq<Request>
  {
    match c
    case None => []
    case Some(r) => [r]
  }

  /** The requests of one upload: the definition, the records, the sync
      (polls and log) and the clean-up, in that order. */
  function UploadRequests(definitionPath: string, uri: string, sync: SyncResult, cleanup: Option<Request>): seq<Request>
  {
    [PostDefinition(definitionPath), PostData(uri + "/data")] + sync.requests + Cleanups(cleanup)
  }

  /** The release rule of an upload: a DELETE is sent iff the sync ended in
      `success`, and then only as the very last request, right after the
      log request. */
  lemma ReleaseOnlyOnSuccess(imports: string, uri: string, handle: SyncHandle, polls: seq<string>, log: seq<LogItem>)
    requires SyncOutcome(uri, handle, polls, log).Some?
    ensures var s := SyncOutcome(uri, handle, polls, log).value;
      var rs := UploadRequests(imports, uri, s, ImportCleanup(imports, uri, s.status));
      ((exists i | 0 <= i < |rs| :: rs[i].Delete?) <==> s.status == "success") &&
      (s.status == "success" ==> rs[|rs| - 1].Delete? && rs[|rs| - 2] == Get(LogPath(handle.uri)))
  {
    var s := SyncOutcome(uri, handle, polls, log).value;
    var rs := UploadRequests(imports, uri, s, ImportCleanup(imports, uri, s.status));
    var n := FirstTerminal(polls, 0).value;
    assert |rs| == n + 5 + |Cleanups(ImportCleanup(imports, uri, s.status))|;
    forall i | 0 <= i < n + 5
      ensures !rs[i].Delete?
    {
      if 2 <= i {
        assert rs[i] == s.requests[i - 2];
      }
    }
    if s.status == "success" {
      assert rs[|rs| - 1].Delete?;
      assert rs[|rs| - 2] == s.requests[|s.requests| - 1];
    }
  }

  /** The outcome of one shared-list upload. */
  datatype UploadOutcome = UploadOutcome(listId: string, name: string, count: nat, status: string)

  /** One entry of `eloqua_create_sharedlist` once the list is known: define
      the import, upload the contacts, sync, and release the import on
      success. `definitionUri` is the URI the server gave the import. */
  method UploadToSharedList(name: string, listId: string, contacts: seq<string>, sourceCountry: string,
                            definitionUri: string, handle: SyncHandle, polls: seq<string>, log: seq<LogItem>)
    returns (r: Option<UploadOutcome>, requests: seq<Request>)
    ensures var uri := EloquaApi.DefinitionUri(definitionUri);
      r.None? <==> SyncOutcome(uri, handle, polls, log).None?
    ensures var uri := EloquaApi.DefinitionUri(definitionUri);
      r.Some? ==>
        var s := SyncOutcome(uri, handle, polls, log).value;
        r.value == UploadOutcome(listId, name, |contacts|, s.status) &&
        requests == UploadRequests("contacts/imports", uri, s, ImportCleanup("contacts/imports", uri, s.status))
  {
    var uri := EloquaApi.DefinitionUri(definitionUri);
    requests := [PostDefinition("contacts/imports")];
    var count, upload, dataPath := EloquaApi.ImportContacts(contacts, uri, sourceCountry);
    requests := requests + [PostData(dataPath)];
    var sync, _ := PostSyncAndWait(uri, handle, polls, log);
    if sync.None? {
      return None, requests;
    }
    var status := sync.value.status;
    requests := requests + sync.value.requests;
    if status == "success" {
      var importId := LastSegment(uri, '/');
      requests := requests + [Delete("contacts/imports/" + importId)];
      assert "contacts/imports/" + importId == "contacts/imports" + "/" + importId;
    }
    r := Some(UploadOutcome(listId, name, count, status));
  }

  // ---------------------------------------------------------------- eloqua_create_sharedlist

  /** The answer to the list creation: created (status 201) with the new
      id, or a name conflict naming the list that already exists. */
  datatype ListReply = ListCreated(id: string) | ListExists(conflictingId: string)

  /** What a choice does on a name conflict. `Spin` is every other choice:
      the menu loop asks nothing more and never ends. */
  datatype ConflictAction = Drop | Append | Rename | Spin

  function Decide(choice: string, single: bool): (a: ConflictAction)
    ensures a == Drop <==> choice == "" || choice == "0"
    ensures a == Append <==> choice == "1" || choice == "append"
    ensures a == Rename <==> choice == "2" && single
  {
    if choice == "" || choice == "0" then Drop
    else if choice == "1" || choice == "append" then Append
    else if choice == "2" && single then Rename
    else Spin
  }

  /** How the list of one entry is settled: the list to fill with the
      choice in force afterwards and the number of typed answers used, a
      stop, or a prompt with no answer left. */
  datatype Resolution = UseList(listId: string, choice: string, used: nat) | Stopped(action: ConflictAction) | Unanswered

  /** The choice is asked for only on a conflict and only while none was
      made; a list is used on creation or when the choice appends. */
  function ResolveList(reply: ListReply, choice: string, answers: seq<string>, single: bool): (r: Resolution)
    ensures reply.ListCreated? ==> r == UseList(reply.id, choice, 0)
    ensures r.Unanswered? <==> reply.ListExists? && choice == "" && |answers| == 0
    ensures r.UseList? ==> r.used <= |answers| && (r.used == 1 <==> reply.ListExists? && choice == "")
    ensures r.UseList? && reply.ListExists? ==>
      (r.listId == reply.conflictingId && Decide(r.choice, single) == Append &&
       r.choice == (if choice == "" then answers[0] else choice))
    ensures r.Stopped? ==>
      (reply.ListExists? && r.action != Append &&
       r.action == Decide(if choice == "" then answers[0] else choice, single))
  {
    match reply
    case ListCreated(id) => UseList(id, choice, 0)
    case ListExists(cid) =>
      if choice == "" && |answers| == 0 then Unanswered
      else
        var c := if choice == "" then answers[0] else choice;
        var used := if choice == "" then 1 else 0;
        if Decide(c, single) == Append then UseList(cid, c, used) else Stopped(Decide(c, single))
  }

  /** What the server gives one export entry: the list reply, the import
      definition's URI, the sync handle, its polls and its log. */
  datatype EntryServer = EntryServer(reply: ListReply, definitionUri: string, handle: SyncHandle,
                                     polls: seq<string>, log: seq<LogItem>)

  /** The result of `eloqua_create_sharedlist`: the outcome list, `False`
      after a dropping choice, or the rename that restarts the upload under
      a new name. */
  datatype SharedListRun =
    | Outcomes(outcomes: seq<UploadOutcome>)
    | Dropped
    | RenameAsked(name: string, contacts: seq<string>)

  /** The run from entry `k` on, after the outcomes `done` and the
      requests `sent`; `None` where the server's or the user's answers run
      out, a sync never ends, or the menu spins. */
  function SharedListFrom(entries: seq<(string, seq<string>)>, servers: seq<EntryServer>, choice: string,
                          answers: seq<string>, k: nat, done: seq<UploadOutcome>, sent: seq<Request>)
    : Option<(SharedListRun, seq<Request>)>
    requires k <= |entries|
    decreases |entries| - k
  {
    if k == |entries| then Some((Outcomes(done), sent))
    else if k >= |servers| then None
    else
      var name := entries[k].0;
      var contacts := entries[k].1;
      var server := servers[k];
      var posted := sent + [PostList(name)];
      match ResolveList(server.reply, choice, answers, |entries| == 1)
      case Unanswered => None
      case Stopped(action) =>
        if action == Drop then Some((Dropped, posted))
        else if action == Rename then Some((RenameAsked(name, contacts), posted))
        else None
      case UseList(listId, c, used) =>
        var uri := EloquaApi.DefinitionUri(server.definitionUri);
        match SyncOutcome(uri, server.handle, server.polls, server.log)
        case None => None
        case Some(s) =>
          SharedListFrom(entries, servers, c, answers[used..], k + 1,
                         done + [UploadOutcome(listId, name, |contacts|, s.status)],
                         posted + UploadRequests("contacts/imports", uri, s, ImportCleanup("contacts/imports", uri, s.status)))
  }

  /** `eloqua_create_sharedlist`: for every entry of the export, in order,
      create its shared list (or settle the conflict), upload its contacts
      there and collect `(list_id, name, count, status)`. */
  method CreateSharedList(entries: seq<(string, seq<string>)>, servers: seq<EntryServer>, choice: string,
                          answers: seq<string>, sourceCountry: string)
    returns (r: Option<SharedListRun>, requests: seq<Request>)
    ensures r.None? <==> SharedListFrom(entries, servers, choice, answers, 0, [], []).None?
    ensures r.Some? ==> (r.value, requests) == SharedListFrom(entries, servers, choice, answers, 0, [], []).value
  {
    var outcome: seq<UploadOutcome> := [];
    requests := [];
    var current := choice;
    var left := answers;
    var single := |entries| == 1;
    var k := 0;
    while k < |entries|
      invariant k <= |entries|
      invariant SharedListFrom(entries, servers, choice, answers, 0, [], [])
             == SharedListFrom(entries, servers, current, left, k, outcome, requests)
    {
      if k >= |servers| {
        return None, requests;
      }
      var name := entries[k].0;
      var contacts := entries[k].1;
      var server := servers[k];
      requests := requests + [PostList(name)];
      var listId: string;
      match ResolveList(server.reply, current, left, single) {
        case Unanswered =>
          return None, requests;
        case Stopped(action) =>
          if action == Drop {
            return Some(Dropped), requests;
          } else if action == Rename {
            return Some(RenameAsked(name, contacts)), requests;
          }
          return None, requests;   // any other choice: the menu loop never ends
        case UseList(id, c, used) =>
          listId, current, left := id, c, left[used..];
      }
      var entry, entryRequests := UploadToSharedList(name, listId, contacts, sourceCountry, server.definitionUri,
                                                     server.handle, server.polls, server.log);
      if entry.None? {
        return None, requests;
      }
      outcome := outcome + [entry.value];
      requests := requests + entryRequests;
      k := k + 1;
    }
    r := Some(Outcomes(outcome));
  }

  /** The list an entry's contacts go to: the new list, or the existing
      one on an appending conflict. */
  function ListOf(reply: ListReply): string
  {
    match reply
    case ListCreated(id) => id
    case ListExists(cid) => cid
  }

  /** `o` is the outcome one entry's upload gives with its server answers. */
  predicate OutcomeOfEntry(o: UploadOutcome, entry: (string, seq<string>), server: EntryServer)
  {
    var s := SyncOutcome(EloquaApi.DefinitionUri(server.definitionUri), server.handle, server.polls, server.log);
    s.Some? && o == UploadOutcome(ListOf(server.reply), entry.0, |entry.1|, s.value.status)
  }

  /** Appending entry k's own outcome keeps the outcomes matching the entries. */
  lemma OutcomesExtend(entries: seq<(string, seq<string>)>, servers: seq<EntryServer>, k: nat,
                       done: seq<UploadOutcome>, o: UploadOutcome)
    requires k < |entries| && k < |servers| && |done| == k
    requires forall i | 0 <= i < k :: OutcomeOfEntry(done[i], entries[i], servers[i])
    requires OutcomeOfEntry(o, entries[k], servers[k])
    ensures forall i | 0 <= i < k + 1 :: OutcomeOfEntry((done + [o])[i], entries[i], servers[i])
  {
    forall i | 0 <= i < k + 1 ensures OutcomeOfEntry((done + [o])[i], entries[i], servers[i]) {
      if i < k { assert (done + [o])[i] == done[i]; }
    }
  }

  lemma {:induction false} OutcomesFrom(entries: seq<(string, seq<string>)>, servers: seq<EntryServer>, choice: string,
                                        answers: seq<string>, k: nat, done: seq<UploadOutcome>, sent: seq<Request>)
    requires k <= |entries| && k <= |servers| && |done| == k
    requires forall i | 0 <= i < k :: OutcomeOfEntry(done[i], entries[i], servers[i])
    ensures var r := SharedListFrom(entries, servers, choice, answers, k, done, sent);
      r.Some? && r.value.0.Outcomes? ==>
        |r.value.0.outcomes| == |entries| <= |servers| &&
        forall i | 0 <= i < |entries| :: OutcomeOfEntry(r.value.0.outcomes[i], entries[i], servers[i])
    decreases |entries| - k
  {
    if k < |entries| && k < |servers| {
      var server := servers[k];
      match ResolveList(server.reply, choice, answers, |entries| == 1)
      case Unanswered =>
      case Stopped(_) =>
      case UseList(listId, c, used) =>
        var uri := EloquaApi.DefinitionUri(server.definitionUri);
        match SyncOutcome(uri, server.handle, server.polls, server.log)
        case None =>
        case Some(s) =>
          var o := UploadOutcome(listId, entries[k].0, |entries[k].1|, s.status);
          assert OutcomeOfEntry(o, entries[k], server);
          var done' := done + [o];
          var sent' := sent + [PostList(entries[k].0)] + UploadRequests("contacts/imports", uri, s, ImportCleanup("contacts/imports", uri, s.status));
          assert SharedListFrom(entries, servers, choice, answers, k, done, sent)
              == SharedListFrom(entries, servers, c, answers[used..], k + 1, done', sent');
          OutcomesExtend(entries, servers, k, done, o);
          OutcomesFrom(entries, servers, c, answers[used..], k + 1, done', sent');
    }
  }

  /** When the run ends with an outcome list, it holds exactly one outcome
      per entry, in the export's order, each the entry's own upload: its
      list, its name, its contact count and its sync status. */
  lemma OutcomesMatchEntries(entries: seq<(string, seq<string>)>, servers: seq<EntryServer>, choice: string, answers: seq<string>)
    ensures var r := SharedListFrom(entries, servers, choice, answers, 0, [], []);
      r.Some? && r.value.0.Outcomes? ==>
        |r.value.0.outcomes| == |entries| <= |servers| &&
        forall i | 0 <= i < |entries| :: OutcomeOfEntry(r.value.0.outcomes[i], entries[i], servers[i])
  {
    OutcomesFrom(entries, servers, choice, answers, 0, [], []);
  }

  lemma {:induction false} CreatedFrom(entries: seq<(string, seq<string>)>, servers: seq<EntryServer>, choice: string,
                                       answers: seq<string>, k: nat, done: seq<UploadOutcome>, sent: seq<Request>)
    requires k <= |entries| <= |servers|
    requires forall i | k <= i < |entries| ::
      (servers[i].reply.ListCreated? &&
       SyncOutcome(EloquaApi.DefinitionUri(servers[i].definitionUri), servers[i].handle, servers[i].polls, servers[i].log).Some?)
    ensures var r := SharedListFrom(entries, servers, choice, answers, k, done, sent);
      r.Some? && r.value.0.Outcomes?
    decreases |entries| - k
  {
    if k < |entries| {
      var server := servers[k];
      var uri := EloquaApi.DefinitionUri(server.definitionUri);
      var s := SyncOutcome(uri, server.handle, server.polls, server.log).value;
      assert ResolveList(server.reply, choice, answers, |entries| == 1) == UseList(server.reply.id, choice, 0);
      assert answers[0..] == answers;
      CreatedFrom(entries, servers, choice, answers, k + 1, done + [UploadOutcome(server.reply.id, entries[k].0, |entries[k].1|, s.status)],
                  sent + [PostList(entries[k].0)] + UploadRequests("contacts/imports", uri, s, ImportCleanup("contacts/imports", uri, s.status)));
    }
  }

  /** When every list is created afresh and every sync ends, no question is
      asked and every entry is uploaded. */
  lemma CreatedListsUploadAll(entries: seq<(string, seq<string>)>, servers: seq<EntryServer>, choice: string, answers: seq<string>)
    requires |entries| <= |servers|
    requires forall i | 0 <= i < |entries| ::
      (servers[i].reply.ListCreated? &&
       SyncOutcome(EloquaApi.DefinitionUri(servers[i].definitionUri), servers[i].handle, servers[i].polls, servers[i].log).Some?)
    ensures var r := SharedListFrom(entries, servers, choice, answers, 0, [], []);
      r.Some? && r.value.0.Outcomes?
  {
    CreatedFrom(entries, servers, choice, answers, 0, [], []);
  }

  /** A drop stops the run at the first conflict, with only the list
      creation sent for that entry; nothing after it is uploaded. */
  lemma DropStopsAtConflict(entries: seq<(string, seq<string>)>, servers: seq<EntryServer>, answers: seq<string>, cid: string)
    requires |entries| >= 1 && |servers| >= 1 && servers[0].reply == ListExists(cid)
    requires |answers| >= 1 && (answers[0] == "" || answers[0] == "0")
    ensures var r := SharedListFrom(entries, servers, "", answers, 0, [], []);
      r.Some? && r.value.0 == Dropped && r.value.1 == [PostList(entries[0].0)]
  {
    assert ResolveList(servers[0].reply, "", answers, |entries| == 1) == Stopped(Drop);
  }

  /** Why the webinar flow stops early. */
  datatype FlowError =
    | SyncUnfinished             // the answers ran out before a terminal status
    | ActivityTooShort(index: nat)  // an activity with fewer than six fields

  /** The activity half of the webinar flow: define the activity import,
      build and post the records, sync, and on success send the clean-up the
      code sends, the DELETE under `contacts/imports` (see
      `ActivityCleanupAsWrittenMissesImport`). */
  method UploadActivities(activities: seq<seq<string>>, activityDefinition: string,
                          handle: SyncHandle, polls: seq<string>, log: seq<LogItem>)
    returns (r: Result<seq<Request>, FlowError>)
    ensures var au := EloquaApi.DefinitionUri(activityDefinition);
      r.Ok? <==> EloquaApi.AllHaveSixFields(activities) && SyncOutcome(au, handle, polls, log).Some?
    ensures !EloquaApi.AllHaveSixFields(activities) ==> r.Err? && r.error.ActivityTooShort?
    ensures var au := EloquaApi.DefinitionUri(activityDefinition);
      r.Ok? ==>
        var s := SyncOutcome(au, handle, polls, log).value;
        r.value == UploadRequests("activities/imports", au, s, ActivityImportCleanupAsWritten(au, s.status))
  {
    var activityUri := EloquaApi.DefinitionUri(activityDefinition);
    var requests := [PostDefinition("activities/imports")];
    var built := EloquaApi.ImportWebinarActivity(activities, activityUri);
    if built.Err? {
      return Err(ActivityTooShort(built.error));
    }
    requests := requests + [PostData(built.value.2)];
    var sync, _ := PostSyncAndWait(activityUri, handle, polls, log);
    if sync.None? {
      return Err(SyncUnfinished);
    }
    requests := requests + sync.value.requests;
    if sync.value.status == "success" {
      var importId := LastSegment(activityUri, '/');
      requests := requests + [Delete("contacts/imports/" + importId)];
      assert "contacts/imports/" + importId == "contacts/imports" + "/" + importId;
    }
    return Ok(requests);
  }

  /** `eloqua_create_webinar_activity`: upload the attendees to the
      activity shared list (released as a contact import on success), then
      the activities. */
  method UploadWebinarActivity(attendees: seq<string>, activities: seq<seq<string>>, sourceCountry: string, listId: string,
                               contactDefinition: string, contactHandle: SyncHandle, contactPolls: seq<string>, contactLog: seq<LogItem>,
                               activityDefinition: string, activityHandle: SyncHandle, activityPolls: seq<string>, activityLog: seq<LogItem>)
    returns (r: Result<seq<Request>, FlowError>)
    ensures var cu := EloquaApi.DefinitionUri(contactDefinition);
      var au := EloquaApi.DefinitionUri(activityDefinition);
      r.Ok? <==> SyncOutcome(cu, contactHandle, contactPolls, contactLog).Some? &&
                 EloquaApi.AllHaveSixFields(activities) && SyncOutcome(au, activityHandle, activityPolls, activityLog).Some?
    ensures var cu := EloquaApi.DefinitionUri(contactDefinition);
      SyncOutcome(cu, contactHandle, contactPolls, contactLog).Some? && !EloquaApi.AllHaveSixFields(activities) ==>
        r.Err? && r.error.ActivityTooShort?
    ensures var cu := EloquaApi.DefinitionUri(contactDefinition);
      var au := EloquaApi.DefinitionUri(activityDefinition);
      r.Ok? ==>
        var cs := SyncOutcome(cu, contactHandle, contactPolls, contactLog).value;
        var as_ := SyncOutcome(au, activityHandle, activityPolls, activityLog).value;
        r.value == UploadRequests("contacts/imports", cu, cs, ImportCleanup("contacts/imports", cu, cs.status))
                 + UploadRequests("activities/imports", au, as_, ActivityImportCleanupAsWritten(au, as_.status))
  {
    var contact, contactRequests := UploadToSharedList("WKPL_ELQuent_Webinar-attendees-upload", listId, attendees, sourceCountry,
                                                       contactDefinition, contactHandle, contactPolls, contactLog);
    if contact.None? {
      return Err(SyncUnfinished);
    }
    var rest := UploadActivities(activities, activityDefinition, activityHandle, activityPolls, activityLog);
    if rest.Err? {
      return rest;
    }
    return Ok(contactRequests + rest.value);
  }

  // ---------------------------------------------------------------- worked examples

  /** The server's `/contacts/imports/42` becomes the definition URI
      `contacts/imports/42`, and the sync request names it back. */
  lemma ExampleDefinitionUri()
    ensures EloquaApi.DefinitionUri("/contacts/imports/42") == "contacts/imports/42"
    ensures SyncOutcome("contacts/imports/42", SyncHandle("/syncs/7", "pending"), ["success"], []).value.requests[0]
      == PostSync("/contacts/imports/42")
  {
  }

  /** Three pages, the last without more: three requests at offsets 0,
      50000 and 100000, and every item in request order. */
  lemma ExampleThreePages(a: int, b: int, c: int)
    ensures var pages := [DataPage(3, [a], true), DataPage(3, [b], true), DataPage(3, [c], false)];
      SyncDataResult(pages) == Some([a, b, c]) &&
      SyncDataRequests("/syncs/9", pages) ==
        [GetData("/syncs/9/data", 50000, 0), GetData("/syncs/9/data", 50000, 50000), GetData("/syncs/9/data", 50000, 100000)]
  {
    var pages := [DataPage(3, [a], true), DataPage(3, [b], true), DataPage(3, [c], false)];
    assert FirstLastPage(pages, 2) == Some(2);
    assert FirstLastPage(pages, 1) == Some(2);
    assert FirstLastPage(pages, 0) == Some(2);
    assert KeptItems(pages, 1) == [a];
    assert KeptItems(pages, 2) == [a, b];
    assert KeptItems(pages, 3) == [a, b, c];
    assert "/syncs/9" + "/data" == "/syncs/9/data";
    assert DataRequests("/syncs/9", 0) == [];
    assert DataRequests("/syncs/9", 1) == [GetData("/syncs/9/data", 50000, 0)];
    assert DataRequests("/syncs/9", 2) == [GetData("/syncs/9/data", 50000, 0), GetData("/syncs/9/data", 50000, 50000)];
  }

  /** A warning entry and a `Contacts created.` entry are both shown; an
      ordinary entry is not. */
  lemma ExampleLogFilter()
    ensures var w := LogItem("warning", "Field X invalid", 3);
      var c := LogItem("info", "Contacts created.", 10);
      var o := LogItem("info", "Some other text", 1);
      ShownLines([w, c, o]) == [WarningLine(w), SuccessLine(c)]
  {
    var w := LogItem("warning", "Field X invalid", 3);
    var c := LogItem("info", "Contacts created.", 10);
    var o := LogItem("info", "Some other text", 1);
    assert [w, c, o][..2] == [w, c] && [w, c][..1] == [w];
    assert [w][..0] == [];
    assert ItemLines(w) == [WarningLine(w)];
    assert ItemLines(c) == [SuccessLine(c)];
    assert ItemLines(o) == [];
    assert ShownLines([w]) == [WarningLine(w)];
    assert ShownLines([w, c]) == [WarningLine(w), SuccessLine(c)];
  }
}
