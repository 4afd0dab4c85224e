/**
 Building a candidate vector collection: gate, create, batched insert, verification, rollback.

 Every call to the vector client meets an arbitrary reply.  A refused call has no effect; a call whose
 reply is lost takes effect and then raises like a refused one.
 */
module VectorCandidates {
  import opened Wrappers

  datatype Reply = Works | Refused | Lost

  datatype Hit =
    | Malformed
    | Hit(id: Option<string>, docId: Option<string>, mentionsPath: bool)

  datatype SearchResult = NotAList | Hits(hits: seq<Hit>)

  class VectorClient<T> {
    const replies: nat -> Reply
    const answers: nat -> SearchResult
    var clock: nat
    var collections: map<string, seq<T>>

    constructor (replies: nat -> Reply, answers: nat -> SearchResult, collections: map<string, seq<T>>)
      ensures this.replies == replies && this.answers == answers
      ensures this.collections == collections && clock == 0
    {
      this.replies, this.answers := replies, answers;
      this.collections := collections;
      clock := 0;
    }

    /** A call that reads, or prepares something outside the collections. */
    method Observe() returns (ok: bool)
      modifies this`clock
      ensures clock == old(clock) + 1
      ensures ok <==> replies(old(clock)) == Works
    {
      ok := replies(clock) == Works;
      clock := clock + 1;
    }

    method HasCollection(name: string) returns (ok: bool, present: bool)
      modifies this`clock
      ensures clock == old(clock) + 1
      ensures ok <==> replies(old(clock)) == Works
      ensures present <==> name in collections
    {
      ok := Observe();
      present := name in collections;
    }

    method CreateCollection(name: string) returns (ok: bool)
      modifies this
      ensures clock == old(clock) + 1
      ensures ok <==> replies(old(clock)) == Works && name !in old(collections)
      ensures collections ==
        if replies(old(clock)) != Refused && name !in old(collections) then old(collections)[name := []]
        else old(collections)
    {
      ok := replies(clock) == Works && name !in collections;
      if replies(clock) != Refused && name !in collections {
        collections := collections[name := []];
      }
      clock := clock + 1;
    }

    method Insert(name: string, data: seq<T>) returns (ok: bool)
      modifies this
      ensures clock == old(clock) + 1
      ensures ok <==> replies(old(clock)) == Works && name in old(collections)
      ensures collections ==
        if replies(old(clock)) != Refused && name in old(collections)
        then old(collections)[name := old(collections)[name] + data] else old(collections)
    {
      ok := replies(clock) == Works && name in collections;
      if replies(clock) != Refused && name in collections {
        collections := collections[name := collections[name] + data];
      }
      clock := clock + 1;
    }

    method RowCount(name: string) returns (ok: bool, count: nat)
      modifies this`clock
      ensures clock == old(clock) + 1
      ensures ok <==> replies(old(clock)) == Works && name in collections
      ensures ok ==> count == |collections[name]|
    {
      ok := Observe();
      ok := ok && name in collections;
      count := if ok then |collections[name]| else 0;
    }

    method Search(name: string) returns (ok: bool, result: SearchResult)
      modifies this`clock
      ensures clock == old(clock) + 1
      ensures ok <==> replies(old(clock)) == Works && name in collections
      ensures result == answers(old(clock))
    {
      result := answers(clock);
      ok := Observe();
      ok := ok && name in collections;
    }

    method DropCollection(name: string) returns (ok: bool)
      modifies this
      ensures clock == old(clock) + 1
      ensures ok <==> replies(old(clock)) == Works
      ensures collections == if replies(old(clock)) != Refused then old(collections) - {name} else old(collections)
    {
      ok := replies(clock) == Works;
      if replies(clock) != Refused {
        collections := collections - {name};
      }
      clock := clock + 1;
    }
  }

  const BATCH: nat := 128

  /** `payload[start : start + 128]` */
  function Batch<T>(payload: seq<T>, start: nat): seq<T>
    requires start <= |payload|
  {
    payload[start..if start + BATCH <= |payload| then start + BATCH else |payload|]
  }

  /** The number of batches a payload is cut into. */
  function Batches(n: nat): nat {
    (n + 127) / 128
  }

  /** The calls `from, from + 1, ..., from + n - 1` all work. */
  ghost predicate AllWork(replies: nat -> Reply, from: nat, n: nat) {
    forall t :: from <= t < from + n ==> replies(t) == Works
  }

  /** The insert loop: what was sent so far is a prefix of the payload, in order, without a gap.  A lost
      reply may have sent one batch more. */
  method InsertBatches<T>(client: VectorClient<T>, name: string, payload: seq<T>) returns (ok: bool)
    requires name in client.collections && client.collections[name] == []
    modifies client
    ensures client.collections.Keys == old(client.collections).Keys
    ensures forall c :: c in client.collections && c != name ==> client.collections[c] == old(client.collections)[c]
    ensures ok ==> client.collections == old(client.collections)[name := payload]
    ensures ok ==> client.clock == old(client.clock) + Batches(|payload|)
    ensures client.collections[name] <= payload
    ensures ok <==> AllWork(client.replies, old(client.clock), Batches(|payload|))
  {
    ghost var before := client.collections;
    var start := 0;
    ghost var sent := 0;
    while start < |payload|
      invariant start == BATCH * sent && client.clock == old(client.clock) + sent
      invariant sent <= Batches(|payload|)
      invariant start >= |payload| ==> sent == Batches(|payload|)
      invariant client.collections == before[name := payload[..if start <= |payload| then start else |payload|]]
      invariant AllWork(client.replies, old(client.clock), sent)
      decreases |payload| - start
    {
      assert sent < Batches(|payload|);
      var batch := Batch(payload, start);
      assert payload[..start] + batch == payload[..start + |batch|];
      var inserted := client.Insert(name, batch);
      if !inserted {
        assert client.replies(old(client.clock) + sent) != Works;
        return false;
      }
      start := start + BATCH;
      sent := sent + 1;
    }
    assert payload[..|payload|] == payload;
    ok := true;
  }

  // ---------------------------------------------------------------- the lifecycle both builders share

  /** Where an exception left the `try`. */
  datatype Step =
    | Inputs | GateCheck | Connect | Provider | Embedding | Lookup
    | Schema | IndexParams | Create | Insertion | Flush | Load | Stats | Search | Verification

  datatype Status = Blocked | NotAuthorized | ExistingCollection | Pass

  datatype Rollback = NotNeeded | Dropped | CleanupFailed

  datatype Report = Report(status: Status, failedAt: Option<Step>, rollback: Rollback)

  /** The first two calls work and the third, which creates the collection, takes effect and raises. */
  ghost predicate CreationLost(replies: nat -> Reply, from: nat) {
    AllWork(replies, from, 2) && replies(from + 2) == Lost
  }

  /** The collection does not exist, the lookup says so, and the creation gets lost. */
  ghost predicate OnlyCreationLost<T>(replies: nat -> Reply, from: nat, before: map<string, seq<T>>, name: string) {
    name !in before && replies(from) == Works && CreationLost(replies, from + 1)
  }

  /** From the schema to the row count.  `created` says whether the creation was acknowledged. */
  method Populate<T>(client: VectorClient<T>, name: string, payload: seq<T>)
    returns (created: bool, failed: Option<Step>)
    requires name !in client.collections
    modifies client
    ensures forall c :: c != name ==>
      (c in client.collections <==> c in old(client.collections)) &&
      (c in old(client.collections) ==> client.collections[c] == old(client.collections)[c])
    ensures !created ==> failed.Some?
    ensures !created && name in client.collections ==> failed == Some(Create) && client.collections[name] == []
    ensures !created && name in client.collections <==> CreationLost(client.replies, old(client.clock))
    ensures created ==> name in client.collections && client.collections[name] <= payload
    ensures failed.None? ==> created && client.collections == old(client.collections)[name := payload]
    ensures failed.None? ==> client.clock == old(client.clock) + 6 + Batches(|payload|)
    ensures failed.None? <==> AllWork(client.replies, old(client.clock), 6 + Batches(|payload|))
  {
    var ok := client.Observe();
    if !ok { return false, Some(Schema); }
    ok := client.Observe();
    if !ok { return false, Some(IndexParams); }
    ok := client.CreateCollection(name);
    if !ok { return false, Some(Create); }
    created := true;
    failed := Fill(client, name, payload);
  }

  /** From the inserts to the row count. */
  method Fill<T>(client: VectorClient<T>, name: string, payload: seq<T>) returns (failed: Option<Step>)
    requires name in client.collections && client.collections[name] == []
    modifies client
    ensures client.collections.Keys == old(client.collections).Keys
    ensures forall c :: c in client.collections && c != name ==> client.collections[c] == old(client.collections)[c]
    ensures client.collections[name] <= payload
    ensures failed.None? ==> client.collections == old(client.collections)[name := payload]
    ensures failed.None? ==> client.clock == old(client.clock) + 3 + Batches(|payload|)
    ensures failed.None? <==> AllWork(client.replies, old(client.clock), 3 + Batches(|payload|))
  {
    ghost var begin, batches := client.clock, Batches(|payload|);
    var ok := InsertBatches(client, name, payload);
    if !ok {
      assert !AllWork(client.replies, begin, batches);
      return Some(Insertion);
    }
    assert AllWork(client.replies, begin, batches);
    ok := client.Observe();
    if !ok { return Some(Flush); }
    ok := client.Observe();
    if !ok { return Some(Load); }
    var count;
    ok, count := client.RowCount(name);
    if !ok || count != |payload| { return Some(Stats); }
    failed := None;
  }

  /** The handler: a created candidate is dropped. */
  method RollBack<T>(client: VectorClient<T>, name: string, created: bool) returns (rollback: Rollback)
    modifies client
    ensures !created ==> rollback == NotNeeded && client.collections == old(client.collections)
    ensures created ==> rollback == if client.replies(old(client.clock)) == Works then Dropped else CleanupFailed
    ensures created && client.replies(old(client.clock)) == Refused ==> client.collections == old(client.collections)
    ensures created && client.replies(old(client.clock)) != Refused ==>
      client.collections == old(client.collections) - {name}
  {
    rollback := NotNeeded;
    if created {
      var dropped := client.DropCollection(name);
      rollback := if dropped then Dropped else CleanupFailed;
    }
  }

  /** What every run keeps: other collections are untouched, a collection that existed is untouched, and
      a candidate that is left behind is reported, except when only its creation was lost. */
  ghost predicate Contained<T>(report: Report, before: map<string, seq<T>>, after: map<string, seq<T>>, name: string,
                               payload: seq<T>)
  {
    && (forall c :: c != name ==>
         (c in after <==> c in before) && (c in before ==> after[c] == before[c]))
    && (name in before ==> after == before && report.status != Pass && report.rollback == NotNeeded)
    && (report.status == Pass ==>
        after == before[name := payload] && report.failedAt == None && report.rollback == NotNeeded)
    && (report.status != Pass && name !in before && name in after ==>
         || (report.rollback == CleanupFailed && after[name] <= payload)
         || (report.failedAt == Some(Create) && report.rollback == NotNeeded && after[name] == []))
    && (report.rollback == Dropped ==> after == before)
  }

  /** What a build promises: a collection it leaves behind is complete, or the report says that cleaning up
      failed. */
  ghost predicate Reported<T>(report: Report, before: map<string, seq<T>>, after: map<string, seq<T>>, name: string) {
    name !in before && name in after ==> report.status == Pass || report.rollback == CleanupFailed
  }

  // ---------------------------------------------------------------- the dense candidate

  datatype Chunk =
    Chunk(assetId: string, chunkId: string, ordinal: int, text: string, contentDigest: string, sourceRevision: string)

  datatype Document = Document(assetId: string, sourceRevision: string, contentDigest: string)

  datatype Manifest = Manifest(collection: string, digest: string, documents: seq<Document>)

  datatype ChunkFile = ChunkFile(manifestDigest: string, collection: string, chunks: seq<Chunk>)

  const DENSE_COLLECTION := "puddingclaw_platform_candidate_text"
  const LEXICAL_COLLECTION := "puddingclaw_platform_candidate_lexical_text"

  function ChunkIds(chunks: seq<Chunk>): set<string> {
    set i | 0 <= i < |chunks| :: chunks[i].chunkId
  }

  function AssetIds(documents: seq<Document>): set<string> {
    set i | 0 <= i < |documents| :: documents[i].assetId
  }

  predicate UniqueDocuments(documents: seq<Document>) {
    forall i, j :: 0 <= i < j < |documents| ==> documents[i].assetId != documents[j].assetId
  }

  predicate Bound(chunk: Chunk, documents: seq<Document>) {
    exists d :: d in documents && d.assetId == chunk.assetId
      && d.contentDigest == chunk.contentDigest && d.sourceRevision == chunk.sourceRevision
  }

  /** The binding checks of `_load_inputs` on files that parsed; the manifest itself refuses documents
      with the same asset. */
  function LoadInputs(manifest: Manifest, file: ChunkFile): Option<seq<Chunk>> {
    if && manifest.collection == DENSE_COLLECTION
       && UniqueDocuments(manifest.documents)
       && file.manifestDigest == manifest.digest
       && file.collection == DENSE_COLLECTION
       && file.chunks != []
       && |ChunkIds(file.chunks)| == |file.chunks|
       && (set i | 0 <= i < |file.chunks| :: file.chunks[i].assetId) == AssetIds(manifest.documents)
       && (forall c :: c in file.chunks ==> Bound(c, manifest.documents))
    then Some(file.chunks) else None
  }

  datatype Options = Options(
    allowNetwork: bool, localEndpoint: bool, fromVault: bool, localModel: bool, injected: bool,
    endpoint: Option<string>, model: Option<string>, dimension: Option<int>, loopbackEndpoint: bool)

  datatype Gate = Invalid | Closed | Open

  function GateOf(o: Options): Gate {
    if o.localEndpoint && (o.allowNetwork || o.fromVault) then Invalid
    else if o.localEndpoint && (o.endpoint.None? || o.model.None? || o.dimension.None?) then Invalid
    else if o.localEndpoint && !o.loopbackEndpoint then Invalid
    else if o.localModel &&
      (o.allowNetwork || o.localEndpoint || o.fromVault || o.endpoint.Some? || o.model.Some? || o.injected) then Invalid
    else if o.localModel && o.dimension.None? then Invalid
    else if !o.allowNetwork && !o.localEndpoint && !o.localModel && !o.injected then Closed
    else Open
  }

  /** The gate is closed exactly when nothing was allowed, and open for exactly one way to an embedding: a
      complete local endpoint on the loopback, a local model with nothing but its dimension, or the network or
      an injected client without either of them. */
  lemma {:induction false} GateExact(o: Options)
    ensures GateOf(o) == Closed <==> !o.allowNetwork && !o.localEndpoint && !o.localModel && !o.injected
    ensures GateOf(o) == Open <==>
      || (o.localEndpoint && !o.localModel && o.loopbackEndpoint && o.endpoint.Some? && o.model.Some?
          && o.dimension.Some? && !o.allowNetwork && !o.fromVault)
      || (o.localModel && !o.localEndpoint && o.dimension.Some? && o.endpoint.None? && o.model.None?
          && !o.allowNetwork && !o.fromVault && !o.injected)
      || (!o.localEndpoint && !o.localModel && (o.allowNetwork || o.injected))
  {
    assert GateOf(o) == Invalid <==>
      || (o.localEndpoint && (o.allowNetwork || o.fromVault || o.endpoint.None? || o.model.None?
                              || o.dimension.None? || !o.loopbackEndpoint))
      || (o.localModel && (o.allowNetwork || o.localEndpoint || o.fromVault || o.endpoint.Some? || o.model.Some?
                           || o.injected || o.dimension.None?));
  }

  /** One component a provider returns: a finite number, or anything else. */
  datatype Component = Number(r: real) | NotFinite

  type Vector = seq<Component>

  /** An embedding provider: `embed(k, texts)` is its answer to the k-th call; `None` is an exception. */
  datatype EmbeddingProvider =
    EmbeddingProvider(dimension: int, batchSize: int, embed: (nat, seq<string>) -> Option<seq<Vector>>)

  datatype EmbeddedRow = EmbeddedRow(chunk: Chunk, embedding: seq<real>)

  predicate Accepted(v: Vector, dimension: int) {
    |v| == dimension && forall c :: c in v ==> c.Number?
  }

  function Numbers(v: Vector): seq<real>
    requires forall c :: c in v ==> c.Number?
  {
    seq(|v|, i requires 0 <= i < |v| => assert v[i] in v; v[i].r)
  }

  function Texts(chunks: seq<Chunk>): seq<string> {
    seq(|chunks|, i requires 0 <= i < |chunks| => chunks[i].text)
  }

  /** The rows of one batch. */
  function BatchRows(chunks: seq<Chunk>, answer: Option<seq<Vector>>, dimension: int): Option<seq<EmbeddedRow>> {
    if answer.None? || |answer.value| != |chunks| || exists v :: v in answer.value && !Accepted(v, dimension) then None
    else Some(seq(|chunks|, i requires 0 <= i < |chunks| =>
      assert answer.value[i] in answer.value;
      EmbeddedRow(chunks[i], Numbers(answer.value[i]))))
  }

  function Prepend(rows: seq<EmbeddedRow>, rest: Option<seq<EmbeddedRow>>): Option<seq<EmbeddedRow>> {
    match rest
    case Some(more) => Some(rows + more)
    case None => None
  }

  lemma {:induction false} PrependTwice(a: seq<EmbeddedRow>, b: seq<EmbeddedRow>, rest: Option<seq<EmbeddedRow>>)
    ensures Prepend(a, Prepend(b, rest)) == Prepend(a + b, rest)
  {
    if rest.Some? {
      assert a + (b + rest.value) == (a + b) + rest.value;
    }
  }

  /** All rows, batch by batch from the k-th call on. */
  function EmbeddedRows(chunks: seq<Chunk>, provider: EmbeddingProvider, k: nat): Option<seq<EmbeddedRow>>
    requires provider.batchSize >= 1
  {
    if chunks == [] then Some([])
    else
      var n := FirstBatch(|chunks|, provider.batchSize);
      match BatchRows(chunks[..n], provider.embed(k, Texts(chunks[..n])), provider.dimension)
      case None => None
      case Some(rows) => Prepend(rows, EmbeddedRows(chunks[n..], provider, k + 1))
  }

  function FirstBatch(n: nat, batchSize: int): (k: nat)
    requires batchSize >= 1
    ensures k <= n && (n > 0 ==> k > 0)
  {
    if n <= batchSize then n else batchSize
  }

  /** One row per chunk, in order, each with a vector of the right length. */
  ghost predicate Follow(rows: seq<EmbeddedRow>, chunks: seq<Chunk>, dimension: int) {
    |rows| == |chunks| && forall i :: 0 <= i < |rows| ==> rows[i].chunk == chunks[i] && |rows[i].embedding| == dimension
  }

  lemma {:induction false} BatchRowsFollowChunks(chunks: seq<Chunk>, answer: Option<seq<Vector>>, dimension: int)
    ensures BatchRows(chunks, answer, dimension).Some? ==>
      Follow(BatchRows(chunks, answer, dimension).value, chunks, dimension)
  {
    if BatchRows(chunks, answer, dimension).Some? {
      assert forall i :: 0 <= i < |chunks| ==> answer.value[i] in answer.value;
    }
  }

  lemma {:induction false} FollowAppend(rows: seq<EmbeddedRow>, more: seq<EmbeddedRow>, chunks: seq<Chunk>, n: nat,
                                        dimension: int)
    requires n <= |chunks| && Follow(rows, chunks[..n], dimension) && Follow(more, chunks[n..], dimension)
    ensures Follow(rows + more, chunks, dimension)
  {
  }

  /** Embedded rows follow the chunks, one for one. */
  lemma {:induction false} EmbeddedRowsFollowChunks(chunks: seq<Chunk>, provider: EmbeddingProvider, k: nat)
    requires provider.batchSize >= 1
    ensures EmbeddedRows(chunks, provider, k).Some? ==>
      Follow(EmbeddedRows(chunks, provider, k).value, chunks, provider.dimension)
  {
    if chunks != [] {
      var n := FirstBatch(|chunks|, provider.batchSize);
      EmbeddedRowsFollowChunks(chunks[n..], provider, k + 1);
      BatchRowsFollowChunks(chunks[..n], provider.embed(k, Texts(chunks[..n])), provider.dimension);
      if EmbeddedRows(chunks, provider, k).Some? {
        var rows := BatchRows(chunks[..n], provider.embed(k, Texts(chunks[..n])), provider.dimension).value;
        FollowAppend(rows, EmbeddedRows(chunks[n..], provider, k + 1).value, chunks, n, provider.dimension);
      }
    }
  }

  /** The length of so many full batches. */
  function Full(calls: nat, batchSize: nat): nat {
    if calls == 0 then 0 else Full(calls - 1, batchSize) + batchSize
  }

  /** The vector consists of these numbers. */
  ghost predicate Spells(numbers: seq<real>, v: Vector) {
    |numbers| == |v| && forall k :: 0 <= k < |v| ==> v[k] == Number(numbers[k])
  }

  /** An answer for `n` texts: a finite vector of the dimension for each. */
  ghost predicate Usable(answer: Option<seq<Vector>>, n: nat, dimension: int) {
    && answer.Some? && |answer.value| == n
    && forall i :: 0 <= i < n ==>
         |answer.value[i]| == dimension && forall c :: 0 <= c < |answer.value[i]| ==> answer.value[i][c].Number?
  }

  /** The number of chunks in the batch after `q` full ones. */
  ghost function SizeAfter(chunks: seq<Chunk>, batchSize: nat, q: nat): nat
    requires Full(q, batchSize) <= |chunks|
  {
    var left := |chunks| - Full(q, batchSize);
    if left < batchSize then left else batchSize
  }

  ghost function TextsAt(chunks: seq<Chunk>, start: nat, n: nat): (texts: seq<string>)
    requires start + n <= |chunks|
    ensures |texts| == n && forall i :: 0 <= i < n ==> texts[i] == chunks[start + i].text
  {
    seq(n, i requires 0 <= i < n => chunks[start + i].text)
  }

  /** What the provider answers about the texts of that batch, when its first call has number `k`. */
  ghost function AnswerTo(chunks: seq<Chunk>, provider: EmbeddingProvider, k: nat, q: nat): Option<seq<Vector>>
    requires provider.batchSize >= 1 && Full(q, provider.batchSize) < |chunks|
  {
    var start := Full(q, provider.batchSize);
    provider.embed(k + q, TextsAt(chunks, start, SizeAfter(chunks, provider.batchSize, q)))
  }

  ghost predicate UsableAfter(chunks: seq<Chunk>, provider: EmbeddingProvider, k: nat, q: nat)
    requires provider.batchSize >= 1 && Full(q, provider.batchSize) < |chunks|
  {
    Usable(AnswerTo(chunks, provider, k, q), SizeAfter(chunks, provider.batchSize, q), provider.dimension)
  }

  /** The provider answers every batch. */
  ghost predicate AllUsable(chunks: seq<Chunk>, provider: EmbeddingProvider, k: nat)
    requires provider.batchSize >= 1
  {
    forall q: nat :: Full(q, provider.batchSize) < |chunks| ==> UsableAfter(chunks, provider, k, q)
  }

  /** From `start` on the rows have the chunks and the numbers of these vectors, in order. */
  ghost predicate RowsFrom(rows: seq<EmbeddedRow>, chunks: seq<Chunk>, vectors: seq<Vector>, start: nat)
    requires start + |vectors| <= |rows| == |chunks|
  {
    forall i :: start <= i < start + |vectors| ==>
      rows[i].chunk == chunks[i] && Spells(rows[i].embedding, vectors[i - start])
  }

  /** The rows of that batch have its chunks and the numbers of its answer, in order. */
  ghost predicate RowsAfter(rows: seq<EmbeddedRow>, chunks: seq<Chunk>, provider: EmbeddingProvider, k: nat, q: nat)
    requires provider.batchSize >= 1 && Full(q, provider.batchSize) < |chunks| == |rows|
    requires UsableAfter(chunks, provider, k, q)
  {
    RowsFrom(rows, chunks, AnswerTo(chunks, provider, k, q).value, Full(q, provider.batchSize))
  }

  ghost predicate EmbeddedBy(rows: seq<EmbeddedRow>, chunks: seq<Chunk>, provider: EmbeddingProvider, k: nat)
    requires provider.batchSize >= 1 && AllUsable(chunks, provider, k)
  {
    && |rows| == |chunks|
    && forall q: nat :: Full(q, provider.batchSize) < |chunks| ==> RowsAfter(rows, chunks, provider, k, q)
  }

  lemma {:induction false} BatchRowsExact(chunks: seq<Chunk>, answer: Option<seq<Vector>>, dimension: int)
    ensures BatchRows(chunks, answer, dimension).Some? <==> Usable(answer, |chunks|, dimension)
    ensures forall rows: seq<EmbeddedRow> :: BatchRows(chunks, answer, dimension) == Some(rows) ==>
      |rows| == |chunks| &&
      forall j :: 0 <= j < |rows| ==> rows[j].chunk == chunks[j] && Spells(rows[j].embedding, answer.value[j])
  {
    if answer.Some? && |answer.value| == |chunks| {
      forall v: Vector ensures Accepted(v, dimension) <==>
        |v| == dimension && forall c :: 0 <= c < |v| ==> v[c].Number? {}
      if Usable(answer, |chunks|, dimension) {
        forall v | v in answer.value ensures Accepted(v, dimension) {
          var i :| 0 <= i < |chunks| && answer.value[i] == v;
        }
      } else {
        var i :| 0 <= i < |chunks| && !Accepted(answer.value[i], dimension);
        assert answer.value[i] in answer.value;
      }
    }
  }

  /** The batch after `q + 1` full ones is the batch after `q` full ones of the rest. */
  lemma {:induction false} BatchOfRest(chunks: seq<Chunk>, provider: EmbeddingProvider, k: nat, q: nat)
    requires provider.batchSize >= 1 && provider.batchSize <= |chunks|
    ensures var rest := chunks[provider.batchSize..];
      && (Full(q + 1, provider.batchSize) < |chunks| <==> Full(q, provider.batchSize) < |rest|)
      && (Full(q, provider.batchSize) < |rest| ==>
          && AnswerTo(chunks, provider, k, q + 1) == AnswerTo(rest, provider, k + 1, q)
          && SizeAfter(chunks, provider.batchSize, q + 1) == SizeAfter(rest, provider.batchSize, q))
  {
    var b := provider.batchSize;
    var rest := chunks[b..];
    assert Full(q + 1, b) == Full(q, b) + b;
    if Full(q, b) < |rest| {
      var n := SizeAfter(rest, b, q);
      assert SizeAfter(chunks, b, q + 1) == n;
      assert TextsAt(chunks, Full(q + 1, b), n) == TextsAt(rest, Full(q, b), n);
      assert k + (q + 1) == (k + 1) + q;
    }
  }

  /** Embedding succeeds exactly when the provider answers every batch with a finite vector of the dimension
      for each of its texts, and then the rows have these vectors. */
  lemma {:induction false} EmbeddedRowsExact(chunks: seq<Chunk>, provider: EmbeddingProvider, k: nat)
    requires provider.batchSize >= 1
    ensures EmbeddedRows(chunks, provider, k).Some? <==> AllUsable(chunks, provider, k)
    ensures EmbeddedRows(chunks, provider, k).Some? ==>
      EmbeddedBy(EmbeddedRows(chunks, provider, k).value, chunks, provider, k)
  {
    if chunks != [] {
      var n := FirstBatch(|chunks|, provider.batchSize);
      var answer := provider.embed(k, Texts(chunks[..n]));
      assert AnswerTo(chunks, provider, k, 0) == answer by {
        assert SizeAfter(chunks, provider.batchSize, 0) == n;
        assert Texts(chunks[..n]) == TextsAt(chunks, 0, n);
      }
      BatchRowsExact(chunks[..n], answer, provider.dimension);
      EmbeddedRowsExact(chunks[n..], provider, k + 1);
      AllUsableStep(chunks, provider, k, n);
      if AllUsable(chunks, provider, k) {
        EmbeddedByStep(BatchRows(chunks[..n], answer, provider.dimension).value,
                       EmbeddedRows(chunks[n..], provider, k + 1).value, chunks, provider, k, n);
      }
    }
  }

  lemma {:induction false} AllUsableStep(chunks: seq<Chunk>, provider: EmbeddingProvider, k: nat, n: nat)
    requires provider.batchSize >= 1 && chunks != [] && n == FirstBatch(|chunks|, provider.batchSize)
    ensures AllUsable(chunks, provider, k) <==>
      UsableAfter(chunks, provider, k, 0) && AllUsable(chunks[n..], provider, k + 1)
  {
    assert Full(0, provider.batchSize) == 0;
    if UsableAfter(chunks, provider, k, 0) && AllUsable(chunks[n..], provider, k + 1) {
      forall q: nat | Full(q, provider.batchSize) < |chunks| ensures UsableAfter(chunks, provider, k, q) {
        if q > 0 {
          FullGrows(q, provider.batchSize);
          UsableOfRest(chunks, provider, k, q - 1);
        }
      }
    }
    if AllUsable(chunks, provider, k) {
      forall q: nat | Full(q, provider.batchSize) < |chunks[n..]| ensures UsableAfter(chunks[n..], provider, k + 1, q) {
        UsableOfRest(chunks, provider, k, q);
      }
    }
  }

  lemma {:induction false} UsableOfRest(chunks: seq<Chunk>, provider: EmbeddingProvider, k: nat, q: nat)
    requires 1 <= provider.batchSize <= |chunks| && Full(q, provider.batchSize) < |chunks[provider.batchSize..]|
    ensures Full(q + 1, provider.batchSize) < |chunks|
    ensures UsableAfter(chunks, provider, k, q + 1) <==>
      UsableAfter(chunks[provider.batchSize..], provider, k + 1, q)
  {
    BatchOfRest(chunks, provider, k, q);
  }

  lemma {:induction false} FullGrows(q: nat, batchSize: nat)
    requires q > 0
    ensures Full(q, batchSize) >= batchSize
  {
  }

  lemma {:induction false} EmbeddedByStep(first: seq<EmbeddedRow>, more: seq<EmbeddedRow>, chunks: seq<Chunk>,
                                          provider: EmbeddingProvider, k: nat, n: nat)
    requires provider.batchSize >= 1 && chunks != [] && n == FirstBatch(|chunks|, provider.batchSize)
    requires AllUsable(chunks, provider, k) && AllUsable(chunks[n..], provider, k + 1)
    requires UsableAfter(chunks, provider, k, 0) && |first| == n
    requires forall j :: 0 <= j < n ==>
      first[j].chunk == chunks[j] && Spells(first[j].embedding, AnswerTo(chunks, provider, k, 0).value[j])
    requires EmbeddedBy(more, chunks[n..], provider, k + 1)
    ensures EmbeddedBy(first + more, chunks, provider, k)
  {
    assert RowsAfter(first + more, chunks, provider, k, 0) by {
      FirstRows(first, more, chunks, AnswerTo(chunks, provider, k, 0).value);
    }
    forall q: nat | 0 < q && Full(q, provider.batchSize) < |chunks|
      ensures RowsAfter(first + more, chunks, provider, k, q)
    {
      FullGrows(q, provider.batchSize);
      RowsOfRest(first, more, chunks, provider, k, q - 1);
    }
  }

  lemma {:induction false} FirstRows(first: seq<EmbeddedRow>, more: seq<EmbeddedRow>, chunks: seq<Chunk>,
                                     vectors: seq<Vector>)
    requires |first| == |vectors| <= |chunks| == |first + more|
    requires forall j :: 0 <= j < |first| ==> first[j].chunk == chunks[j] && Spells(first[j].embedding, vectors[j])
    ensures RowsFrom(first + more, chunks, vectors, 0)
  {
    assert forall i :: 0 <= i < |first| ==> (first + more)[i] == first[i];
  }

  lemma {:induction false} RowsOfRest(first: seq<EmbeddedRow>, more: seq<EmbeddedRow>, chunks: seq<Chunk>,
                                      provider: EmbeddingProvider, k: nat, q: nat)
    requires provider.batchSize >= 1 && |first| == provider.batchSize <= |chunks| == |first + more|
    requires Full(q, provider.batchSize) < |more| && Full(q + 1, provider.batchSize) < |chunks|
    requires UsableAfter(chunks, provider, k, q + 1)
    requires UsableAfter(chunks[provider.batchSize..], provider, k + 1, q)
    requires RowsAfter(more, chunks[provider.batchSize..], provider, k + 1, q)
    ensures RowsAfter(first + more, chunks, provider, k, q + 1)
  {
    BatchOfRest(chunks, provider, k, q);
    RowsShifted(first, more, chunks, AnswerTo(chunks, provider, k, q + 1).value, Full(q, provider.batchSize));
  }

  lemma {:induction false} RowsShifted(first: seq<EmbeddedRow>, more: seq<EmbeddedRow>, chunks: seq<Chunk>,
                                       vectors: seq<Vector>, start: nat)
    requires |first| <= |chunks| == |first + more| && start + |vectors| <= |more|
    requires RowsFrom(more, chunks[|first|..], vectors, start)
    ensures RowsFrom(first + more, chunks, vectors, |first| + start)
  {
    var rest, rows := chunks[|first|..], first + more;
    forall i | |first| + start <= i < |first| + start + |vectors|
      ensures rows[i] == more[i - |first|] && chunks[i] == rest[i - |first|]
    {
    }
  }

  /** `build_embedded_rows` */
  method BuildEmbeddedRows(chunks: seq<Chunk>, provider: EmbeddingProvider) returns (result: Option<seq<EmbeddedRow>>)
    ensures result ==
      if chunks == [] || !(1 <= provider.dimension <= 16_384) || !(1 <= provider.batchSize <= 256) then None
      else EmbeddedRows(chunks, provider, 0)
  {
    if chunks == [] || !(1 <= provider.dimension <= 16_384) || !(1 <= provider.batchSize <= 256) {
      return None;
    }
    var rows: seq<EmbeddedRow> := [];
    var start, call := 0, 0;
    ghost var whole := EmbeddedRows(chunks, provider, 0);
    ghost var left := chunks;
    assert whole.Some? ==> rows + whole.value == whole.value;
    while start < |chunks|
      invariant 0 <= start && left == chunks[if start <= |chunks| then start else |chunks|..]
      invariant whole == Prepend(rows, EmbeddedRows(left, provider, call))
    {
      var n := FirstBatch(|chunks| - start, provider.batchSize);
      var batch := chunks[start..start + n];
      assert left[..n] == batch;
      ghost var rest := EmbeddedRows(left[n..], provider, call + 1);
      match BatchRows(batch, provider.embed(call, Texts(batch)), provider.dimension) {
        case None => return None;
        case Some(more) =>
          PrependTwice(rows, more, rest);
          rows := rows + more;
      }
      left := left[n..];
      start := start + provider.batchSize;
      call := call + 1;
    }
    assert rows + [] == rows;
    result := Some(rows);
  }

  /** `run_shadow` of the dense candidate. */
  method RunDense(client: VectorClient<EmbeddedRow>, manifest: Manifest, file: ChunkFile, inputsReadable: bool,
                  options: Options, connected: bool, provider: Option<EmbeddingProvider>) returns (report: Report)
    modifies client
    ensures Contained(report, old(client.collections), client.collections, DENSE_COLLECTION,
                      Payload(file.chunks, provider))
    ensures report.status == Pass <==>
      && DenseReady(manifest, file, inputsReadable, options, connected, provider)
      && DENSE_COLLECTION !in old(client.collections)
      && AllWork(client.replies, old(client.clock), 7 + Batches(|file.chunks|))
    ensures Reported(report, old(client.collections), client.collections, DENSE_COLLECTION) <==>
      !(DenseReady(manifest, file, inputsReadable, options, connected, provider)
        && OnlyCreationLost(client.replies, old(client.clock), old(client.collections), DENSE_COLLECTION))
    ensures (forall t :: client.replies(t) != Lost) ==>
      Reported(report, old(client.collections), client.collections, DENSE_COLLECTION)
    ensures report.status == NotAuthorized <==>
      && inputsReadable && LoadInputs(manifest, file).Some?
      && !options.allowNetwork && !options.localEndpoint && !options.localModel && !options.injected
    ensures report.status == ExistingCollection <==>
      && inputsReadable && LoadInputs(manifest, file).Some? && GateOf(options) == Open && connected
      && client.replies(old(client.clock)).Works? && DENSE_COLLECTION in old(client.collections)
    ensures report.status == Pass ==>
      && provider.Some? && provider.value.batchSize >= 1 && AllUsable(file.chunks, provider.value, 0)
      && EmbeddedBy(client.collections[DENSE_COLLECTION], file.chunks, provider.value, 0)
  {
    if !inputsReadable || LoadInputs(manifest, file).None? {
      return Report(Blocked, Some(Inputs), NotNeeded);
    }
    var chunks := LoadInputs(manifest, file).value;
    match GateOf(options) {
      case Invalid => return Report(Blocked, Some(GateCheck), NotNeeded);
      case Closed => return Report(NotAuthorized, None, NotNeeded);
      case Open =>
    }
    if !connected {
      return Report(Blocked, Some(Connect), NotNeeded);
    }
    var ok, present := client.HasCollection(DENSE_COLLECTION);
    if !ok {
      return Report(Blocked, Some(Lookup), NotNeeded);
    }
    if present {
      return Report(ExistingCollection, None, NotNeeded);
    }
    if provider.None? {
      return Report(Blocked, Some(Provider), NotNeeded);
    }
    var embedded := BuildEmbeddedRows(chunks, provider.value);
    if embedded.None? || |embedded.value| != |chunks| {
      if embedded.Some? { EmbeddedRowsFollowChunks(chunks, provider.value, 0); }
      return Report(Blocked, Some(Embedding), NotNeeded);
    }
    EmbeddedRowsFollowChunks(chunks, provider.value, 0);
    EmbeddedRowsExact(chunks, provider.value, 0);
    report := BuildDense(client, embedded.value);
  }

  /** The dense build from the schema on, with its handler. */
  method BuildDense(client: VectorClient<EmbeddedRow>, payload: seq<EmbeddedRow>) returns (report: Report)
    requires DENSE_COLLECTION !in client.collections
    modifies client
    ensures Contained(report, old(client.collections), client.collections, DENSE_COLLECTION, payload)
    ensures report.status ==
      if AllWork(client.replies, old(client.clock), 6 + Batches(|payload|)) then Pass else Blocked
    ensures Reported(report, old(client.collections), client.collections, DENSE_COLLECTION)
      <==> !CreationLost(client.replies, old(client.clock))
  {
    var created, failed := Populate(client, DENSE_COLLECTION, payload);
    if failed.None? {
      return Report(Pass, None, NotNeeded);
    }
    var rollback := RollBack(client, DENSE_COLLECTION, created);
    report := Report(Blocked, failed, rollback);
  }

  /** Everything a dense build needs before the first change: inputs, gate, client, provider and embedding. */
  ghost predicate DenseReady(manifest: Manifest, file: ChunkFile, inputsReadable: bool, options: Options,
                             connected: bool, provider: Option<EmbeddingProvider>)
  {
    && inputsReadable && LoadInputs(manifest, file).Some? && GateOf(options) == Open && connected
    && provider.Some? && Embeddable(file.chunks, provider.value)
  }

  ghost predicate Embeddable(chunks: seq<Chunk>, provider: EmbeddingProvider) {
    1 <= provider.dimension <= 16_384 && 1 <= provider.batchSize <= 256 && EmbeddedRows(chunks, provider, 0).Some?
  }

  /** The rows a dense run inserts; none when embedding fails. */
  ghost function Payload(chunks: seq<Chunk>, provider: Option<EmbeddingProvider>): seq<EmbeddedRow> {
    if provider.Some? && Embeddable(chunks, provider.value) then EmbeddedRows(chunks, provider.value, 0).value else []
  }

  // ---------------------------------------------------------------- the lexical candidate

  datatype LexicalRow = LexicalRow(id: string, docId: string, text: string)

  function LexicalRows(chunks: seq<Chunk>): seq<LexicalRow> {
    seq(|chunks|, i requires 0 <= i < |chunks| => LexicalRow(chunks[i].chunkId, chunks[i].assetId, chunks[i].text))
  }

  /** The rows are about the first chunks, one for each. */
  ghost predicate LexicalOf(rows: seq<LexicalRow>, chunks: seq<Chunk>) {
    && |rows| <= |chunks|
    && forall i :: 0 <= i < |rows| ==>
         rows[i].id == chunks[i].chunkId && rows[i].docId == chunks[i].assetId && rows[i].text == chunks[i].text
  }

  /** A search hit that names a chunk and an asset of this build and mentions no physical path. */
  predicate BoundHit(hit: Hit, chunkIds: set<string>, assetIds: set<string>) {
    hit.Hit? && hit.id.Some? && hit.id.value in chunkIds && hit.docId.Some? && hit.docId.value in assetIds
      && !hit.mentionsPath
  }

  predicate Verified(result: SearchResult, chunkIds: set<string>, assetIds: set<string>) {
    result.Hits? && result.hits != [] && forall h :: h in result.hits ==> BoundHit(h, chunkIds, assetIds)
  }

  /** The verification loop over the hits. */
  method VerifyHits(result: SearchResult, chunkIds: set<string>, assetIds: set<string>)
    returns (ok: bool, verified: nat)
    ensures ok <==> Verified(result, chunkIds, assetIds)
    ensures ok ==> verified == |result.hits|
  {
    verified := 0;
    if result.NotAList? || result.hits == [] {
      return false, verified;
    }
    for i := 0 to |result.hits|
      invariant verified == i
      invariant forall k :: 0 <= k < i ==> BoundHit(result.hits[k], chunkIds, assetIds)
    {
      var hit := result.hits[i];
      assert hit in result.hits;
      if hit.Malformed? {
        return false, verified;
      }
      if hit.id.None? || hit.id.value !in chunkIds || hit.docId.None? || hit.docId.value !in assetIds {
        return false, verified;
      }
      if hit.mentionsPath {
        return false, verified;
      }
      verified := verified + 1;
    }
    ok := true;
  }

  /** The search that follows the row count, and the verification of its hits; there is no query without a
      first chunk. */
  method SearchAndVerify(client: VectorClient<LexicalRow>, documents: seq<Document>, chunks: seq<Chunk>)
    returns (failed: Option<Step>, verified: nat)
    requires LEXICAL_COLLECTION in client.collections
    modifies client
    ensures client.collections == old(client.collections)
    ensures failed.None? <==>
      && chunks != [] && client.replies(old(client.clock)) == Works
      && Verified(client.answers(old(client.clock)), ChunkIds(chunks), AssetIds(documents))
    ensures failed.None? ==> verified == |client.answers(old(client.clock)).hits| > 0
    ensures failed != Some(Create)
  {
    if chunks == [] {
      return Some(Search), 0;
    }
    var found, result := client.Search(LEXICAL_COLLECTION);
    if !found {
      return Some(Search), 0;
    }
    var ok;
    ok, verified := VerifyHits(result, ChunkIds(chunks), AssetIds(documents));
    failed := if ok then None else Some(Verification);
  }

  /** `run_shadow` of the lexical candidate; `inputs` is the manifest with its chunks, or an exception. */
  method RunLexical(client: VectorClient<LexicalRow>, inputs: Option<(seq<Document>, seq<Chunk>)>, connected: bool)
    returns (report: Report, searchResultCount: nat)
    modifies client
    ensures Contained(report, old(client.collections), client.collections, LEXICAL_COLLECTION,
                      if inputs.Some? then LexicalRows(inputs.value.1) else [])
    ensures report.status == Pass <==>
      && inputs.Some? && inputs.value.1 != [] && connected && LEXICAL_COLLECTION !in old(client.collections)
      && AllWork(client.replies, old(client.clock), 8 + Batches(|inputs.value.1|))
      && Verified(client.answers(old(client.clock) + 7 + Batches(|inputs.value.1|)),
                  ChunkIds(inputs.value.1), AssetIds(inputs.value.0))
    ensures Reported(report, old(client.collections), client.collections, LEXICAL_COLLECTION) <==>
      !(inputs.Some? && connected
        && OnlyCreationLost(client.replies, old(client.clock), old(client.collections), LEXICAL_COLLECTION))
    ensures (forall t :: client.replies(t) != Lost) ==>
      Reported(report, old(client.collections), client.collections, LEXICAL_COLLECTION)
    ensures LEXICAL_COLLECTION in client.collections && LEXICAL_COLLECTION !in old(client.collections) ==>
      inputs.Some? && LexicalOf(client.collections[LEXICAL_COLLECTION], inputs.value.1)
    ensures report.status == Pass ==> |client.collections[LEXICAL_COLLECTION]| == |inputs.value.1|
    ensures report.status != NotAuthorized
    ensures report.status == ExistingCollection <==>
      && inputs.Some? && connected && client.replies(old(client.clock)).Works?
      && LEXICAL_COLLECTION in old(client.collections)
    ensures report.status == Pass ==>
      searchResultCount == |client.answers(old(client.clock) + 7 + Batches(|inputs.value.1|)).hits| > 0
  {
    searchResultCount := 0;
    if inputs.None? {
      return Report(Blocked, Some(Inputs), NotNeeded), 0;
    }
    if !connected {
      return Report(Blocked, Some(Connect), NotNeeded), 0;
    }
    var (documents, chunks) := inputs.value;
    var ok, present := client.HasCollection(LEXICAL_COLLECTION);
    if !ok {
      return Report(Blocked, Some(Lookup), NotNeeded), 0;
    }
    if present {
      return Report(ExistingCollection, None, NotNeeded), 0;
    }
    report, searchResultCount := BuildLexical(client, documents, chunks);
  }

  /** The lexical build from the schema on, with its handler. */
  method BuildLexical(client: VectorClient<LexicalRow>, documents: seq<Document>, chunks: seq<Chunk>)
    returns (report: Report, searchResultCount: nat)
    requires LEXICAL_COLLECTION !in client.collections
    modifies client
    ensures Contained(report, old(client.collections), client.collections, LEXICAL_COLLECTION, LexicalRows(chunks))
    ensures LEXICAL_COLLECTION in client.collections ==>
      LexicalOf(client.collections[LEXICAL_COLLECTION], chunks)
    ensures report.status == Pass ==> |client.collections[LEXICAL_COLLECTION]| == |chunks|
    ensures report.status == Pass || report.status == Blocked
    ensures report.status == Pass <==>
      && chunks != [] && AllWork(client.replies, old(client.clock), 7 + Batches(|chunks|))
      && Verified(client.answers(old(client.clock) + 6 + Batches(|chunks|)), ChunkIds(chunks), AssetIds(documents))
    ensures report.status == Pass ==>
      searchResultCount == |client.answers(old(client.clock) + 6 + Batches(|chunks|)).hits| > 0
    ensures Reported(report, old(client.collections), client.collections, LEXICAL_COLLECTION)
      <==> !CreationLost(client.replies, old(client.clock))
  {
    searchResultCount := 0;
    var created, failed := Populate(client, LEXICAL_COLLECTION, LexicalRows(chunks));
    if failed.None? {
      failed, searchResultCount := SearchAndVerify(client, documents, chunks);
      if failed.None? {
        return Report(Pass, None, NotNeeded), searchResultCount;
      }
    }
    var rollback := RollBack(client, LEXICAL_COLLECTION, created);
    report := Report(Blocked, failed, rollback);
  }

  /** A lexical build whose fourth call, the creation, takes effect and raises: an empty collection stays,
      and the report does not mention it. */
  method LoseTheCreation() returns (client: VectorClient<LexicalRow>, report: Report)
    ensures fresh(client)
    ensures report == Report(Blocked, Some(Create), NotNeeded)
    ensures client.collections == map[LEXICAL_COLLECTION := []]
  {
    var replies := (t: nat) => if t == 3 then Lost else Works;
    client := new VectorClient(replies, _ => NotAList, map[]);
    var document, chunk := Document("a", "r", "d"), Chunk("a", "c", 0, "text", "d", "r");
    assert AllWork(replies, 1, 2) && replies(3) == Lost;
    var count;
    report, count := RunLexical(client, Some(([document], [chunk])), true);
    assert client.collections.Keys == {LEXICAL_COLLECTION};
  }
}
