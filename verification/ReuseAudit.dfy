/**
 The audit of a legacy vector collection: may its rows stand for the current chunks?
 Text digests are an uninterpreted function of the text.
 */
module ReuseAudit {
  import opened Wrappers
  import opened VectorCandidates

  /** A queried row after `str(...)`; an absent or null field is `None`, and a falsy text reads "". */
  datatype LegacyRow = LegacyRow(id: Option<string>, docId: Option<string>, text: string)

  datatype Summary = Summary(
    legacyRowCount: int, rowsObserved: nat, complete: bool, legacyUniqueIds: nat, legacyUniqueDocs: nat,
    chunkCount: nat, documentCount: nat, idMatches: nat, docMatches: nat, pairMatches: nat, compatible: bool)

  type Pair = (string, string)

  function CurrentDocs(chunks: seq<Chunk>): set<string> {
    set i | 0 <= i < |chunks| :: chunks[i].assetId
  }

  function PairOf(c: Chunk, digest: string -> string): Pair {
    (c.assetId, digest(c.text))
  }

  function CurrentPairs(chunks: seq<Chunk>, digest: string -> string): set<Pair> {
    set i | 0 <= i < |chunks| :: PairOf(chunks[i], digest)
  }

  function LegacyIds(rows: seq<LegacyRow>): set<string> {
    set j | 0 <= j < |rows| && rows[j].id.Some? :: rows[j].id.value
  }

  function LegacyDocs(rows: seq<LegacyRow>): set<string> {
    set j | 0 <= j < |rows| && rows[j].docId.Some? :: rows[j].docId.value
  }

  function RowPair(r: LegacyRow, digest: string -> string): Pair
    requires r.docId.Some?
  {
    (r.docId.value, digest(r.text))
  }

  function LegacyPairs(rows: seq<LegacyRow>, digest: string -> string): set<Pair> {
    set j | 0 <= j < |rows| && rows[j].docId.Some? :: RowPair(rows[j], digest)
  }

  /** `summarize_legacy_rows` */
  function Summarize(chunks: seq<Chunk>, rows: seq<LegacyRow>, legacyRowCount: int, digest: string -> string): Summary {
    var currentIds, legacyIds := ChunkIds(chunks), LegacyIds(rows);
    var currentPairs, legacyPairs := CurrentPairs(chunks, digest), LegacyPairs(rows, digest);
    var complete := legacyRowCount == |rows|;
    var idMatches, pairMatches := |currentIds * legacyIds|, |currentPairs * legacyPairs|;
    var compatible :=
      && complete
      && |chunks| > 0
      && legacyRowCount == |chunks|
      && |legacyIds| == legacyRowCount
      && idMatches == |currentIds|
      && pairMatches == |currentPairs|;
    Summary(legacyRowCount, |rows|, complete, |legacyIds|, |LegacyDocs(rows)|, |chunks|, |CurrentDocs(chunks)|,
            idMatches, |CurrentDocs(chunks) * LegacyDocs(rows)|, pairMatches, compatible)
  }

  // ---------------------------------------------------------------- pigeonhole

  /** The distinct values among the defined entries of a list. */
  function Defined(xs: seq<Option<string>>): set<string> {
    set j | 0 <= j < |xs| && xs[j].Some? :: xs[j].value
  }

  ghost predicate DefinedAndDistinct(xs: seq<Option<string>>) {
    && (forall j :: 0 <= j < |xs| ==> xs[j].Some?)
    && forall j, k :: 0 <= j < k < |xs| ==> xs[j] != xs[k]
  }

  /** As many distinct values as entries: every entry is defined, and no two are equal. */
  lemma {:induction false} AsManyAsEntries(xs: seq<Option<string>>)
    ensures |Defined(xs)| <= |xs|
    ensures |Defined(xs)| == |xs| <==> DefinedAndDistinct(xs)
  {
    if xs == [] {
      assert Defined(xs) == {};
    } else {
      var init, last := xs[..|xs| - 1], xs[|xs| - 1];
      assert xs == init + [last];
      AsManyAsEntries(init);
      DefinedAppend(init, last);
      DistinctAppend(init, last);
      if last.Some? && last !in init {
        assert |Defined(init) + {last.value}| == |Defined(init)| + 1;
      } else {
        assert Defined(xs) == Defined(init);
      }
    }
  }

  lemma {:induction false} DistinctAppend(init: seq<Option<string>>, last: Option<string>)
    ensures DefinedAndDistinct(init + [last]) <==> DefinedAndDistinct(init) && last.Some? && last !in init
  {
    var xs := init + [last];
    assert forall j :: 0 <= j < |init| ==> init[j] == xs[j];
    assert xs[|init|] == last;
  }

  lemma {:induction false} DefinedAppend(init: seq<Option<string>>, last: Option<string>)
    ensures Defined(init + [last]) == Defined(init) + (if last.Some? then {last.value} else {})
    ensures last.Some? ==> (last.value in Defined(init) <==> last in init)
  {
    var xs := init + [last];
    assert xs[|init|] == last;
    forall v | v in Defined(init) ensures v in Defined(xs) {
      var j :| 0 <= j < |init| && init[j] == Some(v);
      assert xs[j] == Some(v);
    }
    if last.Some? && last in init {
      var j :| 0 <= j < |init| && init[j] == last;
      assert init[j].value in Defined(init);
    }
  }

  lemma {:induction false} EqualByCount<T>(s: set<T>, t: set<T>)
    ensures |s * t| == |s| <==> s <= t
    ensures s <= t && |s| >= |t| ==> s == t
  {
    assert s == (s * t) + (s - t);
    assert |s| == |s * t| + |s - t|;
    if s <= t {
      assert t == s + (t - s);
      assert |t| == |s| + |t - s|;
    }
  }

  function Ids(rows: seq<LegacyRow>): seq<Option<string>> {
    seq(|rows|, j requires 0 <= j < |rows| => rows[j].id)
  }

  function CurrentIdList(chunks: seq<Chunk>): seq<Option<string>> {
    seq(|chunks|, i requires 0 <= i < |chunks| => Some(chunks[i].chunkId))
  }

  lemma {:induction false} IdsDefined(rows: seq<LegacyRow>)
    ensures Defined(Ids(rows)) == LegacyIds(rows)
  {
    forall v ensures v in Defined(Ids(rows)) <==> v in LegacyIds(rows) {
      if v in Defined(Ids(rows)) {
        var j :| 0 <= j < |rows| && Ids(rows)[j] == Some(v);
        assert rows[j].id.value == v;
      }
      if v in LegacyIds(rows) {
        var j :| 0 <= j < |rows| && rows[j].id == Some(v);
        assert Ids(rows)[j].value == v;
      }
    }
  }

  lemma {:induction false} CurrentIdsDefined(chunks: seq<Chunk>)
    ensures Defined(CurrentIdList(chunks)) == ChunkIds(chunks)
  {
    forall v ensures v in Defined(CurrentIdList(chunks)) <==> v in ChunkIds(chunks) {
      if v in Defined(CurrentIdList(chunks)) {
        var i :| 0 <= i < |chunks| && CurrentIdList(chunks)[i] == Some(v);
        assert chunks[i].chunkId == v;
      }
      if v in ChunkIds(chunks) {
        var i :| 0 <= i < |chunks| && chunks[i].chunkId == v;
        assert CurrentIdList(chunks)[i].value == v;
      }
    }
  }

  lemma {:induction false} DifferentIds(chunks: seq<Chunk>)
    ensures |ChunkIds(chunks)| == |chunks| <==>
      forall i, j :: 0 <= i < j < |chunks| ==> chunks[i].chunkId != chunks[j].chunkId
  {
    var ids := CurrentIdList(chunks);
    CurrentIdsDefined(chunks);
    AsManyAsEntries(ids);
    assert forall i :: 0 <= i < |chunks| ==> ids[i] == Some(chunks[i].chunkId);
  }

  /** Every document has a chunk. */
  ghost predicate AllUsed(documents: seq<Document>, chunks: seq<Chunk>) {
    forall d :: d in documents ==> exists c :: c in chunks && c.assetId == d.assetId
  }

  /** Every chunk has a document, with its asset, revision and digest. */
  ghost predicate AllBound(documents: seq<Document>, chunks: seq<Chunk>) {
    forall c :: c in chunks ==> Document(c.assetId, c.sourceRevision, c.contentDigest) in documents
  }

  ghost predicate DifferentAssets(documents: seq<Document>) {
    forall i, j :: 0 <= i < j < |documents| ==> documents[i].assetId != documents[j].assetId
  }

  ghost predicate DifferentChunks(chunks: seq<Chunk>) {
    forall i, j :: 0 <= i < j < |chunks| ==> chunks[i].chunkId != chunks[j].chunkId
  }

  /** The inputs are accepted exactly when both files name the dense collection and the same manifest, every
      document has one entry and a chunk, and every chunk has an ID of its own and its document. */
  lemma {:induction false} LoadInputsExact(manifest: Manifest, file: ChunkFile)
    ensures LoadInputs(manifest, file).Some? ==> LoadInputs(manifest, file).value == file.chunks
    ensures LoadInputs(manifest, file).Some? <==>
      && manifest.collection == file.collection == "puddingclaw_platform_candidate_text"
      && manifest.digest == file.manifestDigest && |file.chunks| > 0
      && DifferentAssets(manifest.documents) && DifferentChunks(file.chunks)
      && AllUsed(manifest.documents, file.chunks) && AllBound(manifest.documents, file.chunks)
  {
    DifferentIds(file.chunks);
    BoundExactly(manifest.documents, file.chunks);
    if AllBound(manifest.documents, file.chunks) {
      SameAssets(manifest.documents, file.chunks);
    }
  }

  lemma {:induction false} BoundExactly(documents: seq<Document>, chunks: seq<Chunk>)
    ensures AllBound(documents, chunks) <==> forall c :: c in chunks ==> Bound(c, documents)
  {
    forall c: Chunk
      ensures Bound(c, documents) <==> Document(c.assetId, c.sourceRevision, c.contentDigest) in documents
    {
      var own := Document(c.assetId, c.sourceRevision, c.contentDigest);
      if Bound(c, documents) {
        var d :|
          d in documents && d.assetId == c.assetId && d.contentDigest == c.contentDigest
            && d.sourceRevision == c.sourceRevision;
        assert d == own;
      }
    }
  }

  lemma {:induction false} AssetIdIn(documents: seq<Document>, a: string)
    ensures a in AssetIds(documents) <==> exists d :: d in documents && d.assetId == a
  {
    if a in AssetIds(documents) {
      var k :| 0 <= k < |documents| && documents[k].assetId == a;
      assert documents[k] in documents;
    }
    if d :| d in documents && d.assetId == a {
      var k :| 0 <= k < |documents| && documents[k] == d;
      assert documents[k].assetId in AssetIds(documents);
    }
  }

  lemma {:induction false} NamedAssetIn(chunks: seq<Chunk>, a: string)
    ensures a in CurrentDocs(chunks) <==> exists c :: c in chunks && c.assetId == a
  {
    if a in CurrentDocs(chunks) {
      var i :| 0 <= i < |chunks| && chunks[i].assetId == a;
      assert chunks[i] in chunks;
    }
    if c :| c in chunks && c.assetId == a {
      var i :| 0 <= i < |chunks| && chunks[i] == c;
      assert chunks[i].assetId in CurrentDocs(chunks);
    }
  }

  lemma {:induction false} SameAssets(documents: seq<Document>, chunks: seq<Chunk>)
    requires AllBound(documents, chunks)
    ensures CurrentDocs(chunks) == AssetIds(documents) <==> AllUsed(documents, chunks)
  {
    forall a | a in CurrentDocs(chunks) ensures a in AssetIds(documents) {
      NamedAssetIn(chunks, a);
      var c :| c in chunks && c.assetId == a;
      assert Document(c.assetId, c.sourceRevision, c.contentDigest) in documents;
      AssetIdIn(documents, a);
    }
    if AllUsed(documents, chunks) {
      forall a | a in AssetIds(documents) ensures a in CurrentDocs(chunks) {
        AssetIdIn(documents, a);
        NamedAssetIn(chunks, a);
      }
    }
    if CurrentDocs(chunks) == AssetIds(documents) {
      forall d | d in documents ensures exists c :: c in chunks && c.assetId == d.assetId {
        AssetIdIn(documents, d.assetId);
        NamedAssetIn(chunks, d.assetId);
      }
    }
  }

  /** What input loading accepts: chunk IDs that are all different, at least one chunk for every document,
      and every chunk with the digest and revision of each document that has its asset. */
  lemma {:induction false} LoadedInputsAreBound(manifest: Manifest, file: ChunkFile)
    requires LoadInputs(manifest, file).Some?
    ensures forall i, j :: 0 <= i < j < |file.chunks| ==> file.chunks[i].chunkId != file.chunks[j].chunkId
    ensures forall d :: d in manifest.documents ==> exists c :: c in file.chunks && c.assetId == d.assetId
    ensures forall c, d :: c in file.chunks && d in manifest.documents && c.assetId == d.assetId ==>
      c.contentDigest == d.contentDigest && c.sourceRevision == d.sourceRevision
  {
    var ids := CurrentIdList(file.chunks);
    CurrentIdsDefined(file.chunks);
    AsManyAsEntries(ids);
    forall i, j | 0 <= i < j < |file.chunks| ensures file.chunks[i].chunkId != file.chunks[j].chunkId {
      assert ids[i] != ids[j];
    }
    forall d | d in manifest.documents ensures exists c :: c in file.chunks && c.assetId == d.assetId {
      var k :| 0 <= k < |manifest.documents| && manifest.documents[k] == d;
      assert d.assetId in AssetIds(manifest.documents);
      var i :| 0 <= i < |file.chunks| && file.chunks[i].assetId == d.assetId;
      assert file.chunks[i] in file.chunks;
    }
    forall c, d | c in file.chunks && d in manifest.documents && c.assetId == d.assetId
      ensures c.contentDigest == d.contentDigest && c.sourceRevision == d.sourceRevision
    {
      assert Bound(c, manifest.documents);
      var e :| e in manifest.documents && e.assetId == c.assetId
        && e.contentDigest == c.contentDigest && e.sourceRevision == c.sourceRevision;
      SameDocument(manifest.documents, d, e);
    }
  }

  lemma {:induction false} SameDocument(documents: seq<Document>, d: Document, e: Document)
    requires UniqueDocuments(documents) && d in documents && e in documents && d.assetId == e.assetId
    ensures d == e
  {
    var i :| 0 <= i < |documents| && documents[i] == d;
    var j :| 0 <= j < |documents| && documents[j] == e;
  }

  // ---------------------------------------------------------------- what compatibility means

  /** `match` pairs every chunk with the row of its ID, and every row is the row of one chunk. */
  /** The sets a summary counts: IDs, documents and (document, text digest) pairs of the chunks and of the rows. */
  ghost predicate Counted(chunks: seq<Chunk>, rows: seq<LegacyRow>, digest: string -> string,
                          ids: set<string>, docs: set<string>, pairs: set<Pair>,
                          oldIds: set<string>, oldDocs: set<string>, oldPairs: set<Pair>)
  {
    && (forall v :: v in ids <==> exists c :: c in chunks && c.chunkId == v)
    && (forall v :: v in docs <==> exists c :: c in chunks && c.assetId == v)
    && (forall v :: v in pairs <==> exists c :: c in chunks && (c.assetId, digest(c.text)) == v)
    && (forall v :: v in oldIds <==> exists r :: r in rows && r.id == Some(v))
    && (forall v :: v in oldDocs <==> exists r :: r in rows && r.docId == Some(v))
    && (forall v :: v in oldPairs <==> exists r :: r in rows && r.docId == Some(v.0) && digest(r.text) == v.1)
  }

  /** What the fields of a summary count, and exactly when it is compatible. */
  lemma {:induction false} SummaryExact(chunks: seq<Chunk>, rows: seq<LegacyRow>, count: int, digest: string -> string,
                                        ids: set<string>, docs: set<string>, pairs: set<Pair>,
                                        oldIds: set<string>, oldDocs: set<string>, oldPairs: set<Pair>)
    requires Counted(chunks, rows, digest, ids, docs, pairs, oldIds, oldDocs, oldPairs)
    ensures var s := Summarize(chunks, rows, count, digest);
      && s.legacyRowCount == count && s.rowsObserved == |rows| && (s.complete <==> |rows| == count)
      && s.legacyUniqueIds == |oldIds| && s.legacyUniqueDocs == |oldDocs|
      && s.chunkCount == |chunks| && s.documentCount == |docs|
      && s.idMatches == |ids * oldIds| && s.docMatches == |docs * oldDocs| && s.pairMatches == |pairs * oldPairs|
      && (s.compatible <==> 0 < |chunks| == |rows| == count == |oldIds| && ids <= oldIds && pairs <= oldPairs)
  {
    SameCurrent(chunks, ids, docs);
    SameLegacy(rows, oldIds, oldDocs);
    SamePairs(chunks, rows, digest, pairs, oldPairs);
    EqualByCount(ids, oldIds);
    EqualByCount(pairs, oldPairs);
  }

  lemma {:induction false} SameCurrent(chunks: seq<Chunk>, ids: set<string>, docs: set<string>)
    requires forall v :: v in ids <==> exists c :: c in chunks && c.chunkId == v
    requires forall v :: v in docs <==> exists c :: c in chunks && c.assetId == v
    ensures ids == ChunkIds(chunks) && docs == CurrentDocs(chunks)
  {
    forall v ensures v in docs <==> v in CurrentDocs(chunks) { NamedAssetIn(chunks, v); }
    forall v ensures v in ids <==> v in ChunkIds(chunks) { ChunkIdIn(chunks, v); }
  }

  lemma {:induction false} ChunkIdIn(chunks: seq<Chunk>, v: string)
    ensures v in ChunkIds(chunks) <==> exists c :: c in chunks && c.chunkId == v
  {
    if v in ChunkIds(chunks) {
      var i :| 0 <= i < |chunks| && chunks[i].chunkId == v;
      assert chunks[i] in chunks;
    }
    if c :| c in chunks && c.chunkId == v {
      var i :| 0 <= i < |chunks| && chunks[i] == c;
      assert chunks[i].chunkId in ChunkIds(chunks);
    }
  }

  lemma {:induction false} SameLegacy(rows: seq<LegacyRow>, ids: set<string>, docs: set<string>)
    requires forall v :: v in ids <==> exists r :: r in rows && r.id == Some(v)
    requires forall v :: v in docs <==> exists r :: r in rows && r.docId == Some(v)
    ensures ids == LegacyIds(rows) && docs == LegacyDocs(rows)
  {
    forall j | 0 <= j < |rows|
      ensures rows[j].id.Some? ==> rows[j].id.value in ids
      ensures rows[j].docId.Some? ==> rows[j].docId.value in docs
    {
      assert rows[j] in rows;
      assert rows[j].id.Some? ==> rows[j].id == Some(rows[j].id.value);
      assert rows[j].docId.Some? ==> rows[j].docId == Some(rows[j].docId.value);
    }
    forall v | v in ids ensures v in LegacyIds(rows) {
      var r :| r in rows && r.id == Some(v);
      var j :| 0 <= j < |rows| && rows[j] == r;
    }
    forall v | v in docs ensures v in LegacyDocs(rows) {
      var r :| r in rows && r.docId == Some(v);
      var j :| 0 <= j < |rows| && rows[j] == r;
    }
  }

  lemma {:induction false} SamePairs(chunks: seq<Chunk>, rows: seq<LegacyRow>, digest: string -> string,
                                     pairs: set<Pair>, oldPairs: set<Pair>)
    requires forall v :: v in pairs <==> exists c :: c in chunks && (c.assetId, digest(c.text)) == v
    requires forall v :: v in oldPairs <==> exists r :: r in rows && r.docId == Some(v.0) && digest(r.text) == v.1
    ensures pairs == CurrentPairs(chunks, digest) && oldPairs == LegacyPairs(rows, digest)
  {
    forall i | 0 <= i < |chunks| ensures PairOf(chunks[i], digest) in pairs {
      assert chunks[i] in chunks;
    }
    forall v | v in pairs ensures v in CurrentPairs(chunks, digest) {
      var c :| c in chunks && (c.assetId, digest(c.text)) == v;
      var i :| 0 <= i < |chunks| && chunks[i] == c;
      assert PairOf(chunks[i], digest) == v;
    }
    forall j | 0 <= j < |rows| && rows[j].docId.Some? ensures RowPair(rows[j], digest) in oldPairs {
      assert rows[j] in rows && rows[j].docId == Some(rows[j].docId.value);
    }
    forall v | v in oldPairs ensures v in LegacyPairs(rows, digest) {
      var r :| r in rows && r.docId == Some(v.0) && digest(r.text) == v.1;
      var j :| 0 <= j < |rows| && rows[j] == r;
      assert RowPair(rows[j], digest) == v;
    }
  }

  ghost predicate Bijection(chunks: seq<Chunk>, rows: seq<LegacyRow>) {
    && |chunks| == |rows|
    && DefinedAndDistinct(Ids(rows))
    && DefinedAndDistinct(CurrentIdList(chunks))
    && forall id :: Some(id) in CurrentIdList(chunks) <==> Some(id) in Ids(rows)
  }

  ghost predicate EveryPairOccurs(chunks: seq<Chunk>, rows: seq<LegacyRow>, digest: string -> string) {
    forall i :: 0 <= i < |chunks| ==> PairOccurs(chunks[i], rows, digest)
  }

  ghost predicate PairOccurs(c: Chunk, rows: seq<LegacyRow>, digest: string -> string) {
    exists j :: 0 <= j < |rows| && rows[j].docId == Some(c.assetId) && digest(rows[j].text) == digest(c.text)
  }

  /** On chunks that input loading accepted, a compatible summary says exactly this: there is a row, the
      query returned all rows, chunks and rows correspond one to one by ID, and the asset and text digest
      of every chunk occur together in some row. */
  lemma {:induction false} CompatibleExact(manifest: Manifest, file: ChunkFile, rows: seq<LegacyRow>, count: int,
                                           digest: string -> string)
    requires LoadInputs(manifest, file).Some?
    ensures var chunks := LoadInputs(manifest, file).value;
      Summarize(chunks, rows, count, digest).compatible <==>
      (count == |rows| && Bijection(chunks, rows) && EveryPairOccurs(chunks, rows, digest))
  {
    var chunks := LoadInputs(manifest, file).value;
    IdsDefined(rows);
    CurrentIdsDefined(chunks);
    AsManyAsEntries(Ids(rows));
    AsManyAsEntries(CurrentIdList(chunks));
    EqualByCount(ChunkIds(chunks), LegacyIds(rows));
    EqualByCount(CurrentPairs(chunks, digest), LegacyPairs(rows, digest));
    PairsIncluded(chunks, rows, digest);
    SameMembers(CurrentIdList(chunks), Ids(rows));
  }

  lemma {:induction false} SameMembers(xs: seq<Option<string>>, ys: seq<Option<string>>)
    ensures (forall id :: Some(id) in xs <==> Some(id) in ys) <==> Defined(xs) == Defined(ys)
  {
    DefinedMember(xs);
    DefinedMember(ys);
    if forall id :: Some(id) in xs <==> Some(id) in ys {
      forall id ensures id in Defined(xs) <==> id in Defined(ys) {
        assert Some(id) in xs <==> Some(id) in ys;
      }
    }
    if Defined(xs) == Defined(ys) {
      forall id ensures Some(id) in xs <==> Some(id) in ys {
        assert id in Defined(xs) <==> id in Defined(ys);
      }
    }
  }

  lemma {:induction false} DefinedMember(xs: seq<Option<string>>)
    ensures forall id :: id in Defined(xs) <==> Some(id) in xs
  {
    forall id | Some(id) in xs ensures id in Defined(xs) {
      var j :| 0 <= j < |xs| && xs[j] == Some(id);
      assert xs[j].value in Defined(xs);
    }
  }

  lemma {:induction false} PairsIncluded(chunks: seq<Chunk>, rows: seq<LegacyRow>, digest: string -> string)
    ensures CurrentPairs(chunks, digest) <= LegacyPairs(rows, digest) <==> EveryPairOccurs(chunks, rows, digest)
  {
    if CurrentPairs(chunks, digest) <= LegacyPairs(rows, digest) {
      forall i | 0 <= i < |chunks| ensures PairOccurs(chunks[i], rows, digest) {
        assert PairOf(chunks[i], digest) in CurrentPairs(chunks, digest);
        var j :| 0 <= j < |rows| && rows[j].docId.Some? && RowPair(rows[j], digest) == PairOf(chunks[i], digest);
      }
    }
    if EveryPairOccurs(chunks, rows, digest) {
      forall p | p in CurrentPairs(chunks, digest) ensures p in LegacyPairs(rows, digest) {
        var i :| 0 <= i < |chunks| && PairOf(chunks[i], digest) == p;
        assert PairOccurs(chunks[i], rows, digest);
        var j :| 0 <= j < |rows| && rows[j].docId == Some(chunks[i].assetId)
          && digest(rows[j].text) == digest(chunks[i].text);
        assert RowPair(rows[j], digest) == p;
      }
    }
  }

  /** The row of a chunk: the only one with its ID, and every row is the row of exactly one chunk. */
  lemma {:induction false} OneRowEach(chunks: seq<Chunk>, rows: seq<LegacyRow>)
    requires Bijection(chunks, rows)
    ensures forall i :: 0 <= i < |chunks| ==> RowOf(chunks, rows, i)
    ensures forall j :: 0 <= j < |rows| ==> ChunkOf(chunks, rows, j)
  {
    forall i | 0 <= i < |chunks| ensures RowOf(chunks, rows, i) {
      assert CurrentIdList(chunks)[i] in CurrentIdList(chunks);
      assert Some(chunks[i].chunkId) in Ids(rows);
      var j :| 0 <= j < |rows| && Ids(rows)[j] == Some(chunks[i].chunkId);
      assert forall k :: 0 <= k < |rows| ==> rows[k].id == Ids(rows)[k];
    }
    forall j | 0 <= j < |rows| ensures ChunkOf(chunks, rows, j) {
      assert Ids(rows)[j] in Ids(rows) && Ids(rows)[j].Some?;
      assert Some(Ids(rows)[j].value) in CurrentIdList(chunks);
      var i :| 0 <= i < |chunks| && CurrentIdList(chunks)[i] == Ids(rows)[j];
      assert forall k :: 0 <= k < |chunks| ==> CurrentIdList(chunks)[k] == Some(chunks[k].chunkId);
    }
  }

  ghost predicate RowOf(chunks: seq<Chunk>, rows: seq<LegacyRow>, i: nat)
    requires i < |chunks|
  {
    exists j :: 0 <= j < |rows| && rows[j].id == Some(chunks[i].chunkId) &&
      forall k :: 0 <= k < |rows| && rows[k].id == Some(chunks[i].chunkId) ==> k == j
  }

  ghost predicate ChunkOf(chunks: seq<Chunk>, rows: seq<LegacyRow>, j: nat)
    requires j < |rows|
  {
    exists i :: 0 <= i < |chunks| && rows[j].id == Some(chunks[i].chunkId) &&
      forall k :: 0 <= k < |chunks| && rows[j].id == Some(chunks[k].chunkId) ==> k == i
  }

  /** When the chunks of a compatible collection have distinct pairs, the rows hold exactly their pairs. */
  lemma {:induction false} DistinctPairsExact(manifest: Manifest, file: ChunkFile, rows: seq<LegacyRow>, count: int,
                                              digest: string -> string)
    requires LoadInputs(manifest, file).Some?
    requires Summarize(file.chunks, rows, count, digest).compatible
    requires |CurrentPairs(file.chunks, digest)| == |file.chunks|
    ensures LegacyPairs(rows, digest) == CurrentPairs(file.chunks, digest)
  {
    EqualByCount(CurrentPairs(file.chunks, digest), LegacyPairs(rows, digest));
    PairsAtMost(rows, digest);
  }

  lemma {:induction false} PairsAtMost(rows: seq<LegacyRow>, digest: string -> string)
    ensures |LegacyPairs(rows, digest)| <= |rows|
  {
    if rows != [] {
      var init, last := rows[..|rows| - 1], rows[|rows| - 1];
      PairsAtMost(init, digest);
      var more := if last.docId.Some? then {RowPair(last, digest)} else {};
      PairsGrow(rows, digest, more);
      SubsetCount(LegacyPairs(rows, digest), LegacyPairs(init, digest) + more);
    }
  }

  lemma {:induction false} PairsGrow(rows: seq<LegacyRow>, digest: string -> string, more: set<Pair>)
    requires rows != []
    requires var last := rows[|rows| - 1]; more == if last.docId.Some? then {RowPair(last, digest)} else {}
    ensures LegacyPairs(rows, digest) <= LegacyPairs(rows[..|rows| - 1], digest) + more
  {
    var init := rows[..|rows| - 1];
    forall p | p in LegacyPairs(rows, digest) ensures p in LegacyPairs(init, digest) + more {
      var j :| 0 <= j < |rows| && rows[j].docId.Some? && RowPair(rows[j], digest) == p;
      if j < |init| { assert init[j] == rows[j]; }
    }
  }

  lemma {:induction false} SubsetCount<T>(s: set<T>, t: set<T>)
    requires s <= t
    ensures |s| <= |t|
  {
    assert t == s + (t - s);
  }

  // ---------------------------------------------------------------- are IDs tied to their pairs?

  /** The row with the ID of a chunk carries the asset and the text digest of that chunk. */
  ghost predicate Tied(chunks: seq<Chunk>, rows: seq<LegacyRow>, digest: string -> string) {
    forall i, j :: 0 <= i < |chunks| && 0 <= j < |rows| && rows[j].id == Some(chunks[i].chunkId) ==>
      SamePair(chunks[i], rows[j], digest)
  }

  ghost predicate SamePair(c: Chunk, r: LegacyRow, digest: string -> string) {
    r.docId == Some(c.assetId) && digest(r.text) == digest(c.text)
  }

  /** Whatever the legacy rows are, a compatible summary ties every ID to its pair. */
  ghost predicate AlwaysTied(chunks: seq<Chunk>, digest: string -> string) {
    forall rows: seq<LegacyRow>, count: int ::
      Summarize(chunks, rows, count, digest).compatible ==> Tied(chunks, rows, digest)
  }

  /** Compatibility ties the IDs of accepted chunks to their pairs exactly when there is one chunk. */
  lemma {:induction false} TiedExactly(manifest: Manifest, file: ChunkFile, digest: string -> string)
    requires LoadInputs(manifest, file).Some?
    ensures AlwaysTied(file.chunks, digest) <==> |file.chunks| == 1
  {
    if |file.chunks| == 1 {
      forall rows: seq<LegacyRow>, count: int | Summarize(file.chunks, rows, count, digest).compatible
        ensures Tied(file.chunks, rows, digest)
      {
        CompatibleExact(manifest, file, rows, count, digest);
        assert PairOccurs(file.chunks[0], rows, digest);
      }
    } else {
      var rows := UntiedRows(manifest, file, digest);
      assert Summarize(file.chunks, rows, |rows|, digest).compatible;
    }
  }

  /** A row with the ID of one chunk and the document and text of another. */
  function RowWith(c: Chunk, other: Chunk): LegacyRow {
    LegacyRow(Some(c.chunkId), Some(other.assetId), other.text)
  }

  function Partner(a: nat, b: nat, i: nat): nat {
    if i == a then b else if i == b then a else i
  }

  function ExchangedRows(chunks: seq<Chunk>, a: nat, b: nat): (rows: seq<LegacyRow>)
    requires a < b < |chunks|
    ensures |rows| == |chunks| && forall i :: 0 <= i < |rows| ==> rows[i].id == Some(chunks[i].chunkId)
    ensures forall i :: 0 <= i < |rows| ==> rows[Partner(a, b, i)] == RowWith(chunks[Partner(a, b, i)], chunks[i])
  {
    seq(|chunks|, i requires 0 <= i < |chunks| => RowWith(chunks[i], chunks[Partner(a, b, i)]))
  }

  lemma {:induction false} OccursAt(c: Chunk, rows: seq<LegacyRow>, j: nat, digest: string -> string)
    requires j < |rows| && SamePair(c, rows[j], digest)
    ensures PairOccurs(c, rows, digest)
  {
  }

  /** For two chunks or more there are compatible rows that are not tied: two chunks with different pairs
      exchange them, and of chunks with the same pair one row may belong to another document. */
  lemma {:induction false} UntiedRows(manifest: Manifest, file: ChunkFile, digest: string -> string)
    returns (rows: seq<LegacyRow>)
    requires LoadInputs(manifest, file).Some? && |file.chunks| >= 2
    ensures Summarize(file.chunks, rows, |rows|, digest).compatible && !Tied(file.chunks, rows, digest)
  {
    var chunks := file.chunks;
    if a, b :| 0 <= a < b < |chunks| && PairOf(chunks[a], digest) != PairOf(chunks[b], digest) {
      rows := Exchanged(chunks, a, b, digest);
    } else {
      rows := OneMoved(chunks, digest);
    }
    OwnIdsCompatible(manifest, file, rows, digest);
  }

  /** Two chunks with different pairs exchange them. */
  lemma {:induction false} Exchanged(chunks: seq<Chunk>, a: nat, b: nat, digest: string -> string)
    returns (rows: seq<LegacyRow>)
    requires a < b < |chunks| && PairOf(chunks[a], digest) != PairOf(chunks[b], digest)
    ensures |rows| == |chunks| && forall i :: 0 <= i < |rows| ==> rows[i].id == Some(chunks[i].chunkId)
    ensures EveryPairOccurs(chunks, rows, digest) && !Tied(chunks, rows, digest)
  {
    rows := ExchangedRows(chunks, a, b);
    forall i | 0 <= i < |chunks| ensures PairOccurs(chunks[i], rows, digest) {
      OccursAt(chunks[i], rows, Partner(a, b, i), digest);
    }
    assert rows[a] == RowWith(chunks[a], chunks[b]);
    assert !SamePair(chunks[a], rows[a], digest);
  }

  /** All pairs are equal, and the row of the second chunk belongs to another document. */
  lemma {:induction false} OneMoved(chunks: seq<Chunk>, digest: string -> string) returns (rows: seq<LegacyRow>)
    requires |chunks| >= 2
    requires forall a, b :: 0 <= a < b < |chunks| ==> PairOf(chunks[a], digest) == PairOf(chunks[b], digest)
    ensures |rows| == |chunks| && forall i :: 0 <= i < |rows| ==> rows[i].id == Some(chunks[i].chunkId)
    ensures EveryPairOccurs(chunks, rows, digest) && !Tied(chunks, rows, digest)
  {
    rows := seq(|chunks|, i requires 0 <= i < |chunks| =>
      if i == 1 then RowWith(chunks[1], chunks[1].(assetId := chunks[1].assetId + "x"))
      else RowWith(chunks[i], chunks[i]));
    forall i | 0 <= i < |chunks| ensures PairOccurs(chunks[i], rows, digest) {
      assert i == 0 || PairOf(chunks[0], digest) == PairOf(chunks[i], digest);
      OccursAt(chunks[i], rows, 0, digest);
    }
    assert |chunks[1].assetId + "x"| > |chunks[1].assetId|;
    assert !SamePair(chunks[1], rows[1], digest);
  }

  /** Rows with the IDs of the chunks, in order, are compatible when every pair occurs. */
  lemma {:induction false} OwnIdsCompatible(manifest: Manifest, file: ChunkFile, rows: seq<LegacyRow>,
                                            digest: string -> string)
    requires LoadInputs(manifest, file).Some?
    requires |rows| == |file.chunks| && forall i :: 0 <= i < |rows| ==> rows[i].id == Some(file.chunks[i].chunkId)
    requires EveryPairOccurs(file.chunks, rows, digest)
    ensures Summarize(file.chunks, rows, |rows|, digest).compatible
  {
    LoadedInputsAreBound(manifest, file);
    OwnIdsMatch(file.chunks, rows);
    CompatibleExact(manifest, file, rows, |rows|, digest);
  }

  lemma {:induction false} OwnIdsMatch(chunks: seq<Chunk>, rows: seq<LegacyRow>)
    requires |rows| == |chunks| && forall i :: 0 <= i < |rows| ==> rows[i].id == Some(chunks[i].chunkId)
    requires forall i, j :: 0 <= i < j < |chunks| ==> chunks[i].chunkId != chunks[j].chunkId
    ensures Bijection(chunks, rows)
  {
    var ids := CurrentIdList(chunks);
    assert Ids(rows) == ids;
    forall j, k | 0 <= j < k < |ids| ensures ids[j] != ids[k] {
      assert ids[j] == Some(chunks[j].chunkId) && ids[k] == Some(chunks[k].chunkId);
    }
  }

  /** Two accepted chunks of two documents, and compatible rows that have exchanged their documents. */
  lemma {:induction false} PairsNotTiedToIds(digest: string -> string)
    ensures var file :=
      ChunkFile("m", DENSE_COLLECTION, [Chunk("a", "c1", 0, "t", "d1", "r"), Chunk("b", "c2", 0, "t", "d2", "r")]);
      var manifest := Manifest(DENSE_COLLECTION, "m", [Document("a", "r", "d1"), Document("b", "r", "d2")]);
      var rows := [LegacyRow(Some("c1"), Some("b"), "t"), LegacyRow(Some("c2"), Some("a"), "t")];
      && LoadInputs(manifest, file) == Some(file.chunks)
      && Summarize(file.chunks, rows, 2, digest).compatible && !Tied(file.chunks, rows, digest)
  {
    var chunks := [Chunk("a", "c1", 0, "t", "d1", "r"), Chunk("b", "c2", 0, "t", "d2", "r")];
    var documents := [Document("a", "r", "d1"), Document("b", "r", "d2")];
    var file, manifest := ChunkFile("m", DENSE_COLLECTION, chunks), Manifest(DENSE_COLLECTION, "m", documents);
    var rows := [LegacyRow(Some("c1"), Some("b"), "t"), LegacyRow(Some("c2"), Some("a"), "t")];
    TwoLoaded(manifest, file, chunks, documents);
    assert SamePair(chunks[0], rows[1], digest) && SamePair(chunks[1], rows[0], digest);
    OwnIdsCompatible(manifest, file, rows, digest);
    assert !SamePair(chunks[0], rows[0], digest);
  }

  lemma {:induction false} TwoLoaded(manifest: Manifest, file: ChunkFile, chunks: seq<Chunk>, documents: seq<Document>)
    requires |chunks| == |documents| == 2 && chunks[0].chunkId != chunks[1].chunkId
      && documents[0].assetId != documents[1].assetId
    requires forall i :: 0 <= i < 2 ==>
      && chunks[i].assetId == documents[i].assetId
      && chunks[i].contentDigest == documents[i].contentDigest
      && chunks[i].sourceRevision == documents[i].sourceRevision
    requires manifest == Manifest(DENSE_COLLECTION, file.manifestDigest, documents)
    requires file.collection == DENSE_COLLECTION && file.chunks == chunks
    ensures LoadInputs(manifest, file) == Some(chunks)
  {
    assert ChunkIds(chunks) == {chunks[0].chunkId, chunks[1].chunkId};
    assert AssetIds(documents) == {documents[0].assetId, documents[1].assetId};
    assert (set i | 0 <= i < |chunks| :: chunks[i].assetId) == {chunks[0].assetId, chunks[1].assetId};
    assert documents[0] in documents && documents[1] in documents;
    assert Bound(chunks[0], documents) && Bound(chunks[1], documents);
  }
}
