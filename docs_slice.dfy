/** The documents store (app/store/slices/docsSlice.ts): the records the
    viewer shows, the per-resource loading flags and the last error, with
    one transition per async operation outcome and four synchronous clears.

    The HTTP calls of each operation are not modelled: what the server sent
    back (or the failure it reported) is an input, and the post-processing
    each operation applies to it before the store sees it is a function of
    that input. Chunk times are integer instants (date parsing is not
    modelled), so the key equality and the newest-first order agree. */
module DocsSlice {
  import opened Nullable

  /** The instant that identifies one ingestion batch. */
  type ChunkTime = int

  /** One document record. `dbId` is the record's `_id`; `id` is the
      computed field the operations stamp with the record's timestamp. */
  datatype Doc = Doc(
    dbId: string,
    content: string,
    source: string,
    provider: string,
    model: string,
    timestamp: string,
    metadata: DocMetadata,
    createdAt: string,
    updatedAt: string,
    id: string)

  /** Where a document came from; every entry may be absent. No operation
      of the store reads it, and each keeps it as received. */
  datatype DocMetadata = DocMetadata(
    framework: Option<string>,
    moduleName: Option<string>,
    totalRoutes: Option<int>,
    source: Option<string>,
    runId: Option<string>,
    runTimestamp: Option<string>,
    chunkTimestamp: Option<string>,
    projectPath: Option<string>)

  /** The documents of one chunk time. */
  datatype ChangelogEntry = ChangelogEntry(chunkTime: ChunkTime, documentCount: int, documents: seq<Doc>)

  /** The count endpoint answers either a bare number or `{ count }`. */
  datatype TotalCount = Bare(n: int) | CountObject(count: int)

  datatype DocumentStats = DocumentStats(totalCount: TotalCount, latestDocuments: seq<Doc>, chunkTimes: seq<ChunkTime>)

  /** One loading flag per resource slot. */
  datatype Loading = Loading(docsList: bool, currentDoc: bool, changelog: bool, stats: bool)

  const NotLoading := Loading(false, false, false, false)

  /** The whole store as one value. */
  datatype DocsState = DocsState(
    docs: seq<Doc>,
    currentDoc: Option<Doc>,
    changelog: seq<ChangelogEntry>,
    stats: Option<DocumentStats>,
    loading: Loading,
    error: Option<string>)

  const InitialState := DocsState([], None, [], None, NotLoading, None)

  // ---------------------------------------------------------------------
  // What the server hands back, and what each operation makes of it

  /** A JSON body that should be an array: either it is one, or it is not. */
  datatype Body<T> = JsonArray(items: seq<T>) | NotAnArray

  /** One HTTP call: its data, or a failure carrying the server's
      `message` when the error response had one. */
  datatype Response<T> = Ok(data: T) | Failed(serverMessage: Option<string>)

  /** How an operation settles: the payload of its fulfilled action, or the
      message it rejects with. */
  datatype Settled<T> = Fulfilled(value: T) | Rejected(message: string)

  const DocsListFallback := "Failed to fetch documents list."
  const DocFallback := "Failed to fetch document."
  const UpdateFallback := "Failed to update document."
  const StatsFallback := "Failed to fetch document stats."
  const ChunkTimeFallback := "Failed to fetch documents by chunk time."
  const RunIdFallback := "Failed to fetch documents by run ID."
  const HealthMessage := "Backend is not available"

  /** `Array.isArray(data) ? data : []`. */
  function ArrayOrEmpty<T>(b: Body<T>): seq<T>
  {
    if b.JsonArray? then b.items else []
  }

  /** `{ ...doc, id: doc.timestamp }`. */
  function StampId(d: Doc): Doc
  {
    d.(id := d.timestamp)
  }

  /** `docs.map(doc => ({ ...doc, id: doc.timestamp }))`: same length and
      order, each record keeping every field but `id`, which becomes its
      timestamp. */
  function StampIds(docs: seq<Doc>): (r: seq<Doc>)
    ensures |r| == |docs|
    ensures forall i | 0 <= i < |r| :: r[i].id == r[i].timestamp && r[i] == docs[i].(id := docs[i].timestamp)
  {
    if docs == [] then [] else [StampId(docs[0])] + StampIds(docs[1..])
  }

  /** The chunk fetchDocsList asks for: the last listed chunk time, or none
      when the listing is empty or not an array. */
  function LatestChunkTime(chunkTimes: Body<ChunkTime>): Option<ChunkTime>
  {
    var ts := ArrayOrEmpty(chunkTimes);
    if |ts| == 0 then None else Some(ts[|ts| - 1])
  }

  predicate Ascending(ts: seq<ChunkTime>)
  {
    forall i, j | 0 <= i < j < |ts| :: ts[i] <= ts[j]
  }

  /** There is a chosen chunk exactly when the listing is a non-empty
      array, and it is a listed one. The source takes the last chunk time
      "assuming they're sorted": when the listing is ascending, the chosen
      chunk is the newest listed one. */
  lemma LatestChunkTimeIsNewest(chunkTimes: Body<ChunkTime>)
    ensures LatestChunkTime(chunkTimes).None? <==> ArrayOrEmpty(chunkTimes) == []
    ensures LatestChunkTime(chunkTimes).Some? ==> LatestChunkTime(chunkTimes).value in ArrayOrEmpty(chunkTimes)
    ensures Ascending(ArrayOrEmpty(chunkTimes)) && LatestChunkTime(chunkTimes).Some? ==>
      forall t | t in ArrayOrEmpty(chunkTimes) :: t <= LatestChunkTime(chunkTimes).value
  {
    var ts := ArrayOrEmpty(chunkTimes);
    if |ts| > 0 && Ascending(ts) {
      forall t | t in ts ensures t <= ts[|ts| - 1] {
        var i :| 0 <= i < |ts| && ts[i] == t;
      }
    }
  }

  /** fetchDocsList: list the chunk times, then fetch the documents of the
      latest one and stamp their ids. `chunk` is the server's answer to
      the documents request for a given chunk time; it is asked only for
      the chosen chunk, and not at all when none is listed. */
  function FetchDocsListThunk(chunkTimes: Response<Body<ChunkTime>>, chunk: ChunkTime -> Response<Body<Doc>>): Settled<seq<Doc>>
  {
    match chunkTimes
    case Failed(m) => Rejected(OrElse(m, DocsListFallback))
    case Ok(ts) =>
      match LatestChunkTime(ts)
      case None => Fulfilled([])
      case Some(t) =>
        match chunk(t)
        case Failed(m) => Rejected(OrElse(m, DocsListFallback))
        case Ok(docs) => Fulfilled(StampIds(ArrayOrEmpty(docs)))
  }

  /** With no chunk time to ask for, fetchDocsList settles with `[]`
      without a second request; otherwise its payload is the array the
      server answered for the last listed chunk time (or `[]`), each
      record stamped with its id. */
  lemma FetchDocsListPayload(chunkTimes: Body<ChunkTime>, chunk: ChunkTime -> Response<Body<Doc>>)
    ensures ArrayOrEmpty(chunkTimes) == [] ==> FetchDocsListThunk(Ok(chunkTimes), chunk) == Fulfilled([])
    ensures var ts := ArrayOrEmpty(chunkTimes);
      ts != [] && chunk(ts[|ts| - 1]).Ok? ==>
      var docs := ArrayOrEmpty(chunk(ts[|ts| - 1]).data);
      var r := FetchDocsListThunk(Ok(chunkTimes), chunk);
      && r.Fulfilled?
      && |r.value| == |docs|
      && forall i | 0 <= i < |r.value| :: r.value[i] == docs[i].(id := docs[i].timestamp)
  {
  }

  /** fetchDocById: the record, with `id` stamped. */
  function FetchDocByIdThunk(response: Response<Doc>): Settled<Doc>
  {
    match response
    case Ok(doc) => Fulfilled(StampId(doc))
    case Failed(m) => Rejected(OrElse(m, DocFallback))
  }

  /** updateDoc: the server's updated record, with `id` stamped. */
  function UpdateDocThunk(response: Response<Doc>): Settled<Doc>
  {
    match response
    case Ok(doc) => Fulfilled(StampId(doc))
    case Failed(m) => Rejected(OrElse(m, UpdateFallback))
  }

  /** The total-count normalisation: `.count` of an object, the raw value
      otherwise; the stored total is always a bare number. */
  function NormaliseTotalCount(body: TotalCount): (r: TotalCount)
    ensures r.Bare?
    ensures r.n == (if body.CountObject? then body.count else body.n)
  {
    match body
    case CountObject(c) => Bare(c)
    case Bare(n) => Bare(n)
  }

  /** fetchDocumentStats: the count and the chunk-time listing are fetched
      together and both must succeed (the count's failure is reported
      first); the documents of the last listed chunk time are fetched only
      when some chunk time is listed, and are not id-stamped. `chunk` is
      the server's answer to that request for a given chunk time. */
  function FetchDocumentStatsThunk(count: Response<TotalCount>, chunkTimes: Response<Body<ChunkTime>>, chunk: ChunkTime -> Response<Body<Doc>>): Settled<DocumentStats>
  {
    if count.Failed? then Rejected(OrElse(count.serverMessage, StatsFallback))
    else if chunkTimes.Failed? then Rejected(OrElse(chunkTimes.serverMessage, StatsFallback))
    else
      var ts := ArrayOrEmpty(chunkTimes.data);
      match LatestChunkTime(chunkTimes.data)
      case None => Fulfilled(DocumentStats(NormaliseTotalCount(count.data), [], ts))
      case Some(t) =>
        match chunk(t)
        case Failed(m) => Rejected(OrElse(m, StatsFallback))
        case Ok(docs) => Fulfilled(DocumentStats(NormaliseTotalCount(count.data), ArrayOrEmpty(docs), ts))
  }

  /** No partial stats: the operation succeeds exactly when every call it
      needed succeeded, and then carries the normalised count, the listing
      as received and the array answered for the last listed chunk time
      (or `[]`), no documents at all when nothing is listed. */
  lemma StatsAllOrNothing(count: Response<TotalCount>, chunkTimes: Response<Body<ChunkTime>>, chunk: ChunkTime -> Response<Body<Doc>>)
    ensures FetchDocumentStatsThunk(count, chunkTimes, chunk).Fulfilled? <==>
      && count.Ok? && chunkTimes.Ok?
      && var ts := ArrayOrEmpty(chunkTimes.data);
         ts == [] || chunk(ts[|ts| - 1]).Ok?
    ensures FetchDocumentStatsThunk(count, chunkTimes, chunk).Fulfilled? ==>
      var s := FetchDocumentStatsThunk(count, chunkTimes, chunk).value;
      && s.totalCount == Bare(if count.data.CountObject? then count.data.count else count.data.n)
      && s.chunkTimes == ArrayOrEmpty(chunkTimes.data)
      && (s.chunkTimes == [] ==> s.latestDocuments == [])
      && (s.chunkTimes != [] ==> s.latestDocuments == ArrayOrEmpty(chunk(s.chunkTimes[|s.chunkTimes| - 1]).data))
  {
  }

  /** fetchDocumentsByChunkTime: the chunk's documents as one changelog entry. */
  function FetchDocumentsByChunkTimeThunk(chunkTime: ChunkTime, response: Response<Body<Doc>>): Settled<ChangelogEntry>
  {
    match response
    case Ok(b) =>
      var documents := ArrayOrEmpty(b);
      Fulfilled(ChangelogEntry(chunkTime, |documents|, documents))
    case Failed(m) => Rejected(OrElse(m, ChunkTimeFallback))
  }

  /** A fetched changelog entry carries the key it was asked for, and its
      document count is the number of documents it holds. */
  lemma ChunkEntryCounted(chunkTime: ChunkTime, response: Response<Body<Doc>>)
    ensures FetchDocumentsByChunkTimeThunk(chunkTime, response).Fulfilled? <==> response.Ok?
    ensures FetchDocumentsByChunkTimeThunk(chunkTime, response).Fulfilled? ==>
      var e := FetchDocumentsByChunkTimeThunk(chunkTime, response).value;
      e.chunkTime == chunkTime && e.documentCount == |e.documents| && e.documents == ArrayOrEmpty(response.data)
  {
  }

  /** fetchDocumentsByRunId: the array answered, or `[]`; ids not stamped. */
  function FetchDocumentsByRunIdThunk(response: Response<Body<Doc>>): Settled<seq<Doc>>
  {
    match response
    case Ok(b) => Fulfilled(ArrayOrEmpty(b))
    case Failed(_) => Rejected(OrElse(response.serverMessage, RunIdFallback))
  }

  /** checkBackendHealth: any failure, whatever the server said, is
      reported with one fixed message. */
  function CheckBackendHealthThunk(response: Response<()>): Settled<bool>
  {
    if response.Ok? then Fulfilled(true) else Rejected(HealthMessage)
  }

  /** The single-request operations reject with the server's message when
      it sent a non-empty one and with the operation's own fallback
      otherwise; the health check ignores the server and always reports one
      fixed message. */
  lemma RejectionMessages(m: Option<string>, chunkTime: ChunkTime)
    ensures FetchDocByIdThunk(Failed(m)) == Rejected(if m.Some? && m.value != "" then m.value else DocFallback)
    ensures UpdateDocThunk(Failed(m)) == Rejected(if m.Some? && m.value != "" then m.value else UpdateFallback)
    ensures FetchDocumentsByChunkTimeThunk(chunkTime, Failed(m)) ==
      Rejected(if m.Some? && m.value != "" then m.value else ChunkTimeFallback)
    ensures FetchDocumentsByRunIdThunk(Failed(m)) == Rejected(if m.Some? && m.value != "" then m.value else RunIdFallback)
    ensures CheckBackendHealthThunk(Failed(m)) == Rejected(HealthMessage)
  {
  }

  /** fetchDocsList fails at either of its two requests (the listing, and
      the latest chunk's documents when a chunk is listed), and in both
      cases rejects with the server's non-empty message or its fallback. */
  lemma DocsListRejections(m: Option<string>, chunkTimes: Body<ChunkTime>, chunk: ChunkTime -> Response<Body<Doc>>)
    ensures FetchDocsListThunk(Failed(m), chunk) ==
      Rejected(if m.Some? && m.value != "" then m.value else DocsListFallback)
    ensures var ts := ArrayOrEmpty(chunkTimes);
      ts != [] && chunk(ts[|ts| - 1]) == Failed(m) ==>
      FetchDocsListThunk(Ok(chunkTimes), chunk) ==
      Rejected(if m.Some? && m.value != "" then m.value else DocsListFallback)
  {
  }

  /** fetchDocumentStats fails at any of its three requests (the count, the
      listing, and the latest chunk's documents when a chunk is listed),
      and rejects with that request's non-empty server message or the
      stats fallback. */
  lemma StatsRejections(m: Option<string>, count: Response<TotalCount>, chunkTimes: Response<Body<ChunkTime>>, chunk: ChunkTime -> Response<Body<Doc>>)
    ensures FetchDocumentStatsThunk(Failed(m), chunkTimes, chunk) ==
      Rejected(if m.Some? && m.value != "" then m.value else StatsFallback)
    ensures count.Ok? ==>
      FetchDocumentStatsThunk(count, Failed(m), chunk) ==
      Rejected(if m.Some? && m.value != "" then m.value else StatsFallback)
    ensures count.Ok? && chunkTimes.Ok? ==>
      var ts := ArrayOrEmpty(chunkTimes.data);
      ts != [] && chunk(ts[|ts| - 1]) == Failed(m) ==>
      FetchDocumentStatsThunk(count, chunkTimes, chunk) ==
      Rejected(if m.Some? && m.value != "" then m.value else StatsFallback)
  {
  }

  // ---------------------------------------------------------------------
  // The list work of the two fulfilled cases that edit a list

  /** `findIndex`: the first position whose element satisfies `p`, or -1. */
  method FindIndex<T>(s: seq<T>, p: T -> bool) returns (index: int)
    ensures -1 <= index < |s|
    ensures index == -1 <==> forall k | 0 <= k < |s| :: !p(s[k])
    ensures index != -1 ==> p(s[index]) && forall k | 0 <= k < index :: !p(s[k])
  {
    var i := 0;
    while i < |s|
      invariant 0 <= i <= |s|
      invariant forall k | 0 <= k < i :: !p(s[k])
    {
      if p(s[i]) {
        return i;
      }
      i := i + 1;
    }
    return -1;
  }

  /** The docs list after an update: the first record with the updated
      record's `_id` is replaced by it. */
  function ReplaceFirstById(docs: seq<Doc>, d: Doc): seq<Doc>
  {
    if docs == [] then []
    else if docs[0].dbId == d.dbId then [d] + docs[1..]
    else [docs[0]] + ReplaceFirstById(docs[1..], d)
  }

  /** When position `i` holds the first record with the updated `_id`,
      exactly that position changes: the length and every other record
      stay. */
  lemma {:induction false} ReplaceFirstByIdAt(docs: seq<Doc>, d: Doc, i: nat)
    requires i < |docs| && docs[i].dbId == d.dbId
    requires forall k | 0 <= k < i :: docs[k].dbId != d.dbId
    ensures ReplaceFirstById(docs, d) == docs[i := d]
  {
    if i > 0 {
      ReplaceFirstByIdAt(docs[1..], d, i - 1);
      assert docs[i := d] == [docs[0]] + docs[1..][i - 1 := d];
    }
  }

  /** When no record has the updated `_id`, the list is unchanged. */
  lemma {:induction false} ReplaceFirstByIdAbsent(docs: seq<Doc>, d: Doc)
    requires forall k | 0 <= k < |docs| :: docs[k].dbId != d.dbId
    ensures ReplaceFirstById(docs, d) == docs
  {
    if docs != [] {
      ReplaceFirstByIdAbsent(docs[1..], d);
    }
  }

  function ChunkTimes(entries: seq<ChangelogEntry>): set<ChunkTime>
  {
    set e | e in entries :: e.chunkTime
  }

  /** At most one entry per chunk time. */
  predicate UniqueChunkTimes(entries: seq<ChangelogEntry>)
  {
    forall i, j | 0 <= i < j < |entries| :: entries[i].chunkTime != entries[j].chunkTime
  }

  /** Newest chunk first. */
  predicate SortedNewestFirst(entries: seq<ChangelogEntry>)
  {
    forall i, j | 0 <= i < j < |entries| :: entries[i].chunkTime >= entries[j].chunkTime
  }

  /** The invariant the changelog keeps from the empty list on. */
  predicate ChangelogWellFormed(entries: seq<ChangelogEntry>)
  {
    UniqueChunkTimes(entries) && SortedNewestFirst(entries)
  }

  lemma ChunkTimesCons(x: ChangelogEntry, s: seq<ChangelogEntry>)
    ensures ChunkTimes([x] + s) == {x.chunkTime} + ChunkTimes(s)
  {
    assert forall e :: e in [x] + s <==> e == x || e in s;
  }

  lemma UniqueTail(s: seq<ChangelogEntry>)
    requires s != [] && UniqueChunkTimes(s)
    ensures UniqueChunkTimes(s[1..]) && s[0].chunkTime !in ChunkTimes(s[1..])
  {
    forall e | e in s[1..] ensures e.chunkTime != s[0].chunkTime {
      var i :| 0 <= i < |s[1..]| && s[1..][i] == e;
      assert s[i + 1] == e;
    }
    forall i, j | 0 <= i < j < |s[1..]| ensures s[1..][i].chunkTime != s[1..][j].chunkTime {
      assert s[1..][i] == s[i + 1] && s[1..][j] == s[j + 1];
    }
  }

  lemma UniqueCons(x: ChangelogEntry, s: seq<ChangelogEntry>)
    requires UniqueChunkTimes(s) && x.chunkTime !in ChunkTimes(s)
    ensures UniqueChunkTimes([x] + s)
  {
    var t := [x] + s;
    forall i, j | 0 <= i < j < |t| ensures t[i].chunkTime != t[j].chunkTime {
      assert t[j] == s[j - 1] && s[j - 1] in s;
      if i > 0 {
        assert t[i] == s[i - 1];
      }
    }
  }

  lemma SortedCons(x: ChangelogEntry, s: seq<ChangelogEntry>)
    requires SortedNewestFirst(s)
    requires forall e | e in s :: e.chunkTime <= x.chunkTime
    ensures SortedNewestFirst([x] + s)
  {
    var t := [x] + s;
    forall i, j | 0 <= i < j < |t| ensures t[i].chunkTime >= t[j].chunkTime {
      assert t[j] == s[j - 1] && s[j - 1] in s;
      if i > 0 {
        assert t[i] == s[i - 1];
      }
    }
  }

  /** Add or update: the first entry with the new entry's chunk time is
      replaced by it; when there is none, the new entry is pushed last. */
  function Upsert(entries: seq<ChangelogEntry>, e: ChangelogEntry): seq<ChangelogEntry>
  {
    if entries == [] then [e]
    else if entries[0].chunkTime == e.chunkTime then [e] + entries[1..]
    else [entries[0]] + Upsert(entries[1..], e)
  }

  /** When position `i` holds the first entry with the fetched chunk time,
      the upsert is the in-place assignment at `i`. */
  lemma {:induction false} UpsertAt(entries: seq<ChangelogEntry>, e: ChangelogEntry, i: nat)
    requires i < |entries| && entries[i].chunkTime == e.chunkTime
    requires forall k | 0 <= k < i :: entries[k].chunkTime != e.chunkTime
    ensures Upsert(entries, e) == entries[i := e]
  {
    if i > 0 {
      UpsertAt(entries[1..], e, i - 1);
      assert entries[i := e] == [entries[0]] + entries[1..][i - 1 := e];
    }
  }

  /** When no entry has the fetched chunk time, the upsert is a push. */
  lemma {:induction false} UpsertAbsent(entries: seq<ChangelogEntry>, e: ChangelogEntry)
    requires forall k | 0 <= k < |entries| :: entries[k].chunkTime != e.chunkTime
    ensures Upsert(entries, e) == entries + [e]
  {
    if entries != [] {
      UpsertAbsent(entries[1..], e);
      assert entries + [e] == [entries[0]] + (entries[1..] + [e]);
    }
  }

  /** Upsert grows the list by one exactly when the key was absent, holds
      the new entry and every entry with another key, and adds only the new
      key. */
  lemma {:induction false} UpsertContents(entries: seq<ChangelogEntry>, e: ChangelogEntry)
    ensures |Upsert(entries, e)| == |entries| + (if e.chunkTime in ChunkTimes(entries) then 0 else 1)
    ensures ChunkTimes(Upsert(entries, e)) == ChunkTimes(entries) + {e.chunkTime}
    ensures e in Upsert(entries, e)
    ensures forall x | x in entries && x.chunkTime != e.chunkTime :: x in Upsert(entries, e)
  {
    if entries != [] {
      var rest := entries[1..];
      assert entries == [entries[0]] + rest;
      ChunkTimesCons(entries[0], rest);
      if entries[0].chunkTime == e.chunkTime {
        ChunkTimesCons(e, rest);
      } else {
        UpsertContents(rest, e);
        ChunkTimesCons(entries[0], Upsert(rest, e));
      }
    }
  }

  /** Upsert keeps chunk times unique. */
  lemma {:induction false} UpsertKeepsUnique(entries: seq<ChangelogEntry>, e: ChangelogEntry)
    requires UniqueChunkTimes(entries)
    ensures UniqueChunkTimes(Upsert(entries, e))
  {
    if entries != [] {
      var rest := entries[1..];
      UniqueTail(entries);
      if entries[0].chunkTime == e.chunkTime {
        UniqueCons(e, rest);
      } else {
        UpsertKeepsUnique(rest, e);
        UpsertContents(rest, e);
        UniqueCons(entries[0], Upsert(rest, e));
      }
    }
  }

  /** Places `x` before the first entry that is not newer than it. */
  function InsertNewestFirst(x: ChangelogEntry, sorted: seq<ChangelogEntry>): (r: seq<ChangelogEntry>)
    ensures multiset(r) == multiset(sorted) + multiset{x}
    decreases |sorted|
  {
    if sorted == [] || sorted[0].chunkTime <= x.chunkTime then [x] + sorted
    else
      assert sorted == [sorted[0]] + sorted[1..];
      [sorted[0]] + InsertNewestFirst(x, sorted[1..])
  }

  lemma InsertElements(x: ChangelogEntry, s: seq<ChangelogEntry>)
    ensures forall e :: e in InsertNewestFirst(x, s) <==> e == x || e in s
    ensures ChunkTimes(InsertNewestFirst(x, s)) == ChunkTimes(s) + {x.chunkTime}
  {
    var r := InsertNewestFirst(x, s);
    assert forall e :: e in r <==> e in multiset(r);
    assert forall e :: e in s <==> e in multiset(s);
  }

  lemma {:induction false} InsertKeepsOrder(x: ChangelogEntry, sorted: seq<ChangelogEntry>)
    requires SortedNewestFirst(sorted)
    ensures SortedNewestFirst(InsertNewestFirst(x, sorted))
    decreases |sorted|
  {
    if sorted == [] || sorted[0].chunkTime <= x.chunkTime {
      forall e | e in sorted ensures e.chunkTime <= x.chunkTime {
        var i :| 0 <= i < |sorted| && sorted[i] == e;
      }
      SortedCons(x, sorted);
    } else {
      var rest := sorted[1..];
      InsertKeepsOrder(x, rest);
      InsertElements(x, rest);
      forall e | e in InsertNewestFirst(x, rest) ensures e.chunkTime <= sorted[0].chunkTime {
        if e != x {
          var i :| 0 <= i < |rest| && rest[i] == e;
          assert sorted[i + 1] == e;
        }
      }
      SortedCons(sorted[0], InsertNewestFirst(x, rest));
    }
  }

  lemma {:induction false} InsertKeepsUnique(x: ChangelogEntry, sorted: seq<ChangelogEntry>)
    requires UniqueChunkTimes(sorted) && x.chunkTime !in ChunkTimes(sorted)
    ensures UniqueChunkTimes(InsertNewestFirst(x, sorted))
    decreases |sorted|
  {
    if sorted == [] || sorted[0].chunkTime <= x.chunkTime {
      UniqueCons(x, sorted);
    } else {
      var rest := sorted[1..];
      UniqueTail(sorted);
      ChunkTimesCons(sorted[0], rest);
      assert sorted == [sorted[0]] + rest;
      InsertKeepsUnique(x, rest);
      InsertElements(x, rest);
      UniqueCons(sorted[0], InsertNewestFirst(x, rest));
    }
  }

  /** `changelog.sort` by chunk time, newest first, as a stable insertion
      sort: a newest-first permutation of its input. */
  function SortNewestFirst(entries: seq<ChangelogEntry>): (r: seq<ChangelogEntry>)
    ensures multiset(r) == multiset(entries)
    ensures SortedNewestFirst(r)
    decreases |entries|
  {
    if entries == [] then []
    else
      var tail := SortNewestFirst(entries[1..]);
      InsertKeepsOrder(entries[0], tail);
      assert entries == [entries[0]] + entries[1..];
      InsertNewestFirst(entries[0], tail)
  }

  /** Sorting keeps the length and the set of keys. */
  lemma SortKeepsKeys(entries: seq<ChangelogEntry>)
    ensures |SortNewestFirst(entries)| == |entries|
    ensures ChunkTimes(SortNewestFirst(entries)) == ChunkTimes(entries)
  {
    var r := SortNewestFirst(entries);
    assert |multiset(r)| == |multiset(entries)|;
    assert forall e :: e in r <==> e in multiset(r);
    assert forall e :: e in entries <==> e in multiset(entries);
  }

  /** Sorting keeps chunk times unique. */
  lemma {:induction false} SortKeepsUnique(entries: seq<ChangelogEntry>)
    requires UniqueChunkTimes(entries)
    ensures UniqueChunkTimes(SortNewestFirst(entries))
    decreases |entries|
  {
    if entries != [] {
      var rest := entries[1..];
      UniqueTail(entries);
      SortKeepsUnique(rest);
      SortKeepsKeys(rest);
      InsertKeepsUnique(entries[0], SortNewestFirst(rest));
    }
  }

  /** The fulfilled fetchDocumentsByChunkTime case as a whole: the new
      changelog holds the fetched entry and every entry with another key,
      grows by one exactly when the key was new, is sorted newest first,
      and keeps keys unique when they were unique before. */
  lemma ChangelogAfterFetch(entries: seq<ChangelogEntry>, e: ChangelogEntry)
    ensures var r := SortNewestFirst(Upsert(entries, e));
      && |r| == |entries| + (if e.chunkTime in ChunkTimes(entries) then 0 else 1)
      && e in r
      && (forall x | x in entries && x.chunkTime != e.chunkTime :: x in r)
      && SortedNewestFirst(r)
      && (UniqueChunkTimes(entries) ==> UniqueChunkTimes(r))
  {
    var u := Upsert(entries, e);
    var r := SortNewestFirst(u);
    UpsertContents(entries, e);
    SortKeepsKeys(u);
    if UniqueChunkTimes(entries) {
      UpsertKeepsUnique(entries, e);
      SortKeepsUnique(u);
    }
    assert e in multiset(r);
    forall x | x in entries && x.chunkTime != e.chunkTime ensures x in r {
      assert x in multiset(u);
    }
  }

  // ---------------------------------------------------------------------
  // The store and its reducer cases

  class DocsStore {
    var docs: seq<Doc>
    var currentDoc: Option<Doc>
    var changelog: seq<ChangelogEntry>
    var stats: Option<DocumentStats>
    var loading: Loading
    var error: Option<string>

    function Snapshot(): DocsState
      reads this
    {
      DocsState(docs, currentDoc, changelog, stats, loading, error)
    }

    /** Every reachable store keeps its changelog sorted newest first with
        one entry per chunk time. */
    predicate Valid()
      reads this
    {
      ChangelogWellFormed(changelog)
    }

    /** `initialState`. */
    constructor ()
      ensures Snapshot() == InitialState && Valid()
    {
      docs, currentDoc, changelog, stats := [], None, [], None;
      loading, error := NotLoading, None;
    }

    method ClearError()
      requires Valid()
      modifies this
      ensures Valid() && Snapshot() == old(Snapshot()).(error := None)
    {
      error := None;
    }

    method ClearCurrentDoc()
      requires Valid()
      modifies this
      ensures Valid() && Snapshot() == old(Snapshot()).(currentDoc := None)
    {
      currentDoc := None;
    }

    method ResetDocsState()
      modifies this
      ensures Valid() && Snapshot() == InitialState
    {
      docs := [];
      currentDoc := None;
      changelog := [];
      stats := None;
      loading := NotLoading;
      error := None;
    }

    method ClearChangelog()
      requires Valid()
      modifies this
      ensures Valid() && Snapshot() == old(Snapshot()).(changelog := [])
    {
      changelog := [];
    }

    // fetchDocsList

    method FetchDocsListPending()
      requires Valid()
      modifies this
      ensures Valid() && Snapshot() == old(Snapshot()).(loading := old(loading).(docsList := true), error := None)
    {
      loading := loading.(docsList := true);
      error := None;
    }

    method FetchDocsListFulfilled(payload: seq<Doc>)
      requires Valid()
      modifies this
      ensures Valid()
      ensures Snapshot() == old(Snapshot()).(loading := old(loading).(docsList := false), docs := payload, error := None)
    {
      loading := loading.(docsList := false);
      docs := payload;
      error := None;
    }

    method FetchDocsListRejected(payload: Option<string>)
      requires Valid()
      modifies this
      ensures Valid()
      ensures Snapshot() == old(Snapshot()).(loading := old(loading).(docsList := false), error := Some(OrElse(payload, DocsListFallback)))
    {
      loading := loading.(docsList := false);
      error := Some(OrElse(payload, DocsListFallback));
    }

    // fetchDocById

    method FetchDocByIdPending()
      requires Valid()
      modifies this
      ensures Valid() && Snapshot() == old(Snapshot()).(loading := old(loading).(currentDoc := true), error := None)
    {
      loading := loading.(currentDoc := true);
      error := None;
    }

    method FetchDocByIdFulfilled(payload: Doc)
      requires Valid()
      modifies this
      ensures Valid()
      ensures Snapshot() == old(Snapshot()).(loading := old(loading).(currentDoc := false), currentDoc := Some(payload), error := None)
    {
      loading := loading.(currentDoc := false);
      currentDoc := Some(payload);
      error := None;
    }

    method FetchDocByIdRejected(payload: Option<string>)
      requires Valid()
      modifies this
      ensures Valid()
      ensures Snapshot() == old(Snapshot()).(loading := old(loading).(currentDoc := false), error := Some(OrElse(payload, DocFallback)))
    {
      loading := loading.(currentDoc := false);
      error := Some(OrElse(payload, DocFallback));
    }

    // updateDoc

    method UpdateDocPending()
      requires Valid()
      modifies this
      ensures Valid() && Snapshot() == old(Snapshot()).(loading := old(loading).(currentDoc := true), error := None)
    {
      loading := loading.(currentDoc := true);
      error := None;
    }

    /** Splices the updated record into the list (first `_id` match only)
        and replaces the open document when it has that `_id`. */
    method UpdateDocFulfilled(payload: Doc)
      requires Valid()
      modifies this
      ensures Valid()
      ensures Snapshot() == old(Snapshot()).(
        loading := old(loading).(currentDoc := false),
        docs := ReplaceFirstById(old(docs), payload),
        currentDoc := if old(currentDoc).Some? && old(currentDoc).value.dbId == payload.dbId then Some(payload) else old(currentDoc),
        error := None)
    {
      loading := loading.(currentDoc := false);
      var index := FindIndex(docs, (doc: Doc) => doc.dbId == payload.dbId);
      if index != -1 {
        ReplaceFirstByIdAt(docs, payload, index);
        docs := docs[index := payload];
      } else {
        ReplaceFirstByIdAbsent(docs, payload);
      }
      if currentDoc.Some? && currentDoc.value.dbId == payload.dbId {
        currentDoc := Some(payload);
      }
      error := None;
    }

    method UpdateDocRejected(payload: Option<string>)
      requires Valid()
      modifies this
      ensures Valid()
      ensures Snapshot() == old(Snapshot()).(loading := old(loading).(currentDoc := false), error := Some(OrElse(payload, UpdateFallback)))
    {
      loading := loading.(currentDoc := false);
      error := Some(OrElse(payload, UpdateFallback));
    }

    // fetchDocumentStats

    method FetchDocumentStatsPending()
      requires Valid()
      modifies this
      ensures Valid() && Snapshot() == old(Snapshot()).(loading := old(loading).(stats := true), error := None)
    {
      loading := loading.(stats := true);
      error := None;
    }

    method FetchDocumentStatsFulfilled(payload: DocumentStats)
      requires Valid()
      modifies this
      ensures Valid()
      ensures Snapshot() == old(Snapshot()).(loading := old(loading).(stats := false), stats := Some(payload), error := None)
    {
      loading := loading.(stats := false);
      stats := Some(payload);
      error := None;
    }

    method FetchDocumentStatsRejected(payload: Option<string>)
      requires Valid()
      modifies this
      ensures Valid()
      ensures Snapshot() == old(Snapshot()).(loading := old(loading).(stats := false), error := Some(OrElse(payload, StatsFallback)))
    {
      loading := loading.(stats := false);
      error := Some(OrElse(payload, StatsFallback));
    }

    // fetchDocumentsByChunkTime

    method FetchDocumentsByChunkTimePending()
      requires Valid()
      modifies this
      ensures Valid() && Snapshot() == old(Snapshot()).(loading := old(loading).(changelog := true), error := None)
    {
      loading := loading.(changelog := true);
      error := None;
    }

    /** Adds or updates the entry by chunk time, then sorts newest first. */
    method FetchDocumentsByChunkTimeFulfilled(payload: ChangelogEntry)
      requires Valid()
      modifies this
      ensures Valid()
      ensures Snapshot() == old(Snapshot()).(
        loading := old(loading).(changelog := false),
        changelog := SortNewestFirst(Upsert(old(changelog), payload)),
        error := None)
    {
      loading := loading.(changelog := false);
      ghost var upserted := Upsert(changelog, payload);
      assert ChangelogWellFormed(SortNewestFirst(upserted)) by {
        UpsertKeepsUnique(changelog, payload);
        SortKeepsUnique(upserted);
      }
      var existingIndex := FindIndex(changelog, (entry: ChangelogEntry) => entry.chunkTime == payload.chunkTime);
      if existingIndex != -1 {
        assert changelog[existingIndex := payload] == upserted by {
          UpsertAt(changelog, payload, existingIndex);
        }
        changelog := changelog[existingIndex := payload];
      } else {
        assert changelog + [payload] == upserted by {
          UpsertAbsent(changelog, payload);
        }
        changelog := changelog + [payload];
      }
      changelog := SortNewestFirst(changelog);
      error := None;
    }

    method FetchDocumentsByChunkTimeRejected(payload: Option<string>)
      requires Valid()
      modifies this
      ensures Valid()
      ensures Snapshot() == old(Snapshot()).(loading := old(loading).(changelog := false), error := Some(OrElse(payload, ChunkTimeFallback)))
    {
      loading := loading.(changelog := false);
      error := Some(OrElse(payload, ChunkTimeFallback));
    }

    // fetchDocumentsByRunId

    method FetchDocumentsByRunIdPending()
      requires Valid()
      modifies this
      ensures Valid() && Snapshot() == old(Snapshot()).(loading := old(loading).(docsList := true), error := None)
    {
      loading := loading.(docsList := true);
      error := None;
    }

    method FetchDocumentsByRunIdFulfilled(payload: seq<Doc>)
      requires Valid()
      modifies this
      ensures Valid()
      ensures Snapshot() == old(Snapshot()).(loading := old(loading).(docsList := false), docs := payload, error := None)
    {
      loading := loading.(docsList := false);
      docs := payload;
      error := None;
    }

    method FetchDocumentsByRunIdRejected(payload: Option<string>)
      requires Valid()
      modifies this
      ensures Valid()
      ensures Snapshot() == old(Snapshot()).(loading := old(loading).(docsList := false), error := Some(OrElse(payload, RunIdFallback)))
    {
      loading := loading.(docsList := false);
      error := Some(OrElse(payload, RunIdFallback));
    }

    // checkBackendHealth: touches the error slot only

    method CheckBackendHealthPending()
      requires Valid()
      modifies this
      ensures Valid() && Snapshot() == old(Snapshot()).(error := None)
    {
      error := None;
    }

    method CheckBackendHealthFulfilled()
      requires Valid()
      modifies this
      ensures Valid() && Snapshot() == old(Snapshot()).(error := None)
    {
      error := None;
    }

    method CheckBackendHealthRejected(payload: Option<string>)
      requires Valid()
      modifies this
      ensures Valid() && Snapshot() == old(Snapshot()).(error := Some(OrElse(payload, HealthMessage)))
    {
      error := Some(OrElse(payload, HealthMessage));
    }
  }
}
