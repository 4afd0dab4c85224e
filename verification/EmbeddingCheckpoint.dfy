/**
 Embedding with a checkpoint: a run that stops is resumed by the next one from the rows it saved.

 The checkpoint is replaced as a whole.  A refused replacement leaves the old file; when the reply is
 lost the new file is in place and the run stops all the same.
 */
module EmbeddingCheckpoint {
  import opened Wrappers
  import opened VectorCandidates
  import Strings

  datatype SavedRow =
    | Malformed
    | SavedRow(chunkId: string, assetId: string, sourceRevision: string, contentDigest: string, embedding: Vector)

  /** `Unreadable` is a file without the fields and the format of a checkpoint. */
  datatype CheckpointFile =
    | Absent
    | Unreadable
    | Saved(manifestDigest: string, signature: string, dimension: int, rows: seq<SavedRow>)

  datatype Job = Job(chunks: seq<Chunk>, manifestDigest: string, signature: string)

  type Completed = map<string, seq<real>>

  ghost predicate UniqueIds(chunks: seq<Chunk>) {
    forall i, j :: 0 <= i < j < |chunks| ==> chunks[i].chunkId != chunks[j].chunkId
  }

  // ---------------------------------------------------------------- reading and writing the checkpoint

  /** `chunks_by_id.get(id)`: the last chunk with that ID. */
  function ChunkById(chunks: seq<Chunk>, id: string): Option<Chunk> {
    if chunks == [] then None
    else if chunks[|chunks| - 1].chunkId == id then Some(chunks[|chunks| - 1])
    else ChunkById(chunks[..|chunks| - 1], id)
  }

  predicate RowMatches(row: SavedRow, job: Job, dimension: int) {
    && row.SavedRow?
    && var chunk := ChunkById(job.chunks, row.chunkId);
       && chunk.Some? && row.assetId == chunk.value.assetId && row.sourceRevision == chunk.value.sourceRevision
       && row.contentDigest == chunk.value.contentDigest && Accepted(row.embedding, dimension)
  }

  function RestoredRows(rows: seq<SavedRow>, job: Job, dimension: int): Option<Completed> {
    if rows == [] then Some(map[])
    else
      var last := rows[|rows| - 1];
      match RestoredRows(rows[..|rows| - 1], job, dimension)
      case None => None
      case Some(done) =>
        if !RowMatches(last, job, dimension) || last.chunkId in done then None
        else Some(done[last.chunkId := Numbers(last.embedding)])
  }

  predicate SameIdentity(file: CheckpointFile, job: Job, dimension: int)
    requires file.Saved?
  {
    && file.manifestDigest == job.manifestDigest && file.signature == job.signature
    && file.dimension == dimension && |file.rows| <= |job.chunks|
  }

  /** What a run finds completed; `None` when the checkpoint cannot be reused. */
  function Restored(file: CheckpointFile, job: Job, dimension: int): Option<Completed> {
    match file
    case Absent => Some(map[])
    case Unreadable => None
    case Saved(_, _, _, rows) => if SameIdentity(file, job, dimension) then RestoredRows(rows, job, dimension) else None
  }

  method Restore(file: CheckpointFile, job: Job, dimension: int) returns (completed: Option<Completed>)
    ensures completed == Restored(file, job, dimension)
    ensures Recovers(file, job, dimension, completed)
  {
    RestoredExact(file, job, dimension);
    if file.Absent? {
      return Some(map[]);
    }
    if file.Unreadable? || !SameIdentity(file, job, dimension) {
      return None;
    }
    completed := RestoreRows(file.rows, job, dimension);
  }

  /** The loop over the rows. */
  method RestoreRows(rows: seq<SavedRow>, job: Job, dimension: int) returns (completed: Option<Completed>)
    ensures completed == RestoredRows(rows, job, dimension)
  {
    var done: Completed := map[];
    for i := 0 to |rows|
      invariant RestoredRows(rows[..i], job, dimension) == Some(done)
    {
      var row := rows[i];
      assert rows[..i + 1][..i] == rows[..i];
      if !RowMatches(row, job, dimension) || row.chunkId in done {
        RestoredPrefix(rows, i + 1, job, dimension);
        return None;
      }
      done := done[row.chunkId := Numbers(row.embedding)];
    }
    assert rows[..|rows|] == rows;
    completed := Some(done);
  }

  lemma {:induction false} RestoredPrefix(rows: seq<SavedRow>, n: nat, job: Job, dimension: int)
    requires n <= |rows| && RestoredRows(rows[..n], job, dimension).None?
    ensures RestoredRows(rows, job, dimension).None?
  {
    if n < |rows| {
      assert rows[..|rows| - 1][..n] == rows[..n];
      RestoredPrefix(rows[..|rows| - 1], n, job, dimension);
    } else {
      assert rows[..n] == rows;
    }
  }

  // ---------------------------------------------------------------- what can be reused

  /** The chunk at `j` is the last one with its ID, and the row carries its provenance. */
  ghost predicate Names(row: SavedRow, chunks: seq<Chunk>, j: nat)
    requires row.SavedRow? && j < |chunks|
  {
    && row.chunkId == chunks[j].chunkId && row.assetId == chunks[j].assetId
    && row.sourceRevision == chunks[j].sourceRevision && row.contentDigest == chunks[j].contentDigest
    && forall k :: j < k < |chunks| ==> chunks[k].chunkId != row.chunkId
  }

  /** A row about one of the chunks, with a finite vector of the dimension. */
  ghost predicate Genuine(row: SavedRow, chunks: seq<Chunk>, dimension: int) {
    && row.SavedRow? && |row.embedding| == dimension
    && (forall k :: 0 <= k < |row.embedding| ==> row.embedding[k].Number?)
    && exists j :: 0 <= j < |chunks| && Names(row, chunks, j)
  }

  /** Genuine rows about different chunks. */
  ghost predicate GenuineRows(rows: seq<SavedRow>, chunks: seq<Chunk>, dimension: int) {
    && (forall i :: 0 <= i < |rows| ==> Genuine(rows[i], chunks, dimension))
    && forall i, j :: 0 <= i < j < |rows| ==> rows[i].chunkId != rows[j].chunkId
  }

  /** A file of the same manifest, signature and dimension, with genuine rows about different chunks. */
  ghost predicate Reusable(file: CheckpointFile, job: Job, dimension: int) {
    && file.Saved? && file.manifestDigest == job.manifestDigest && file.signature == job.signature
    && file.dimension == dimension && |file.rows| <= |job.chunks| && GenuineRows(file.rows, job.chunks, dimension)
  }

  /** The vectors of these rows under their IDs, and nothing else. */
  ghost predicate ExactlyRows(done: Completed, rows: seq<SavedRow>)
    requires forall i :: 0 <= i < |rows| ==> rows[i].SavedRow?
  {
    && (forall id :: id in done <==> exists i :: 0 <= i < |rows| && rows[i].chunkId == id)
    && forall i :: 0 <= i < |rows| && rows[i].chunkId in done ==>
         Spells(done[rows[i].chunkId], rows[i].embedding)
  }

  lemma {:induction false} ChunkByIdFound(chunks: seq<Chunk>, id: string) returns (j: nat)
    requires ChunkById(chunks, id).Some?
    ensures j < |chunks| && chunks[j].chunkId == id && ChunkById(chunks, id) == Some(chunks[j])
    ensures forall k :: j < k < |chunks| ==> chunks[k].chunkId != id
  {
    if chunks[|chunks| - 1].chunkId == id {
      j := |chunks| - 1;
    } else {
      j := ChunkByIdFound(chunks[..|chunks| - 1], id);
    }
  }

  lemma {:induction false} MatchesExactly(row: SavedRow, job: Job, dimension: int)
    ensures RowMatches(row, job, dimension) <==> Genuine(row, job.chunks, dimension)
  {
    if row.SavedRow? {
      assert Accepted(row.embedding, dimension) <==>
        |row.embedding| == dimension && forall k :: 0 <= k < |row.embedding| ==> row.embedding[k].Number?;
      if RowMatches(row, job, dimension) {
        var j := ChunkByIdFound(job.chunks, row.chunkId);
        assert Names(row, job.chunks, j);
      }
      if j :| 0 <= j < |job.chunks| && Names(row, job.chunks, j) {
        ChunkByIdAt(job.chunks, j);
      }
    }
  }

  lemma {:induction false} OneGenuineMore(rows: seq<SavedRow>, row: SavedRow, chunks: seq<Chunk>, dimension: int)
    requires GenuineRows(rows, chunks, dimension) && Genuine(row, chunks, dimension)
    requires forall i :: 0 <= i < |rows| ==> rows[i].chunkId != row.chunkId
    ensures GenuineRows(rows + [row], chunks, dimension)
  {
    var all := rows + [row];
    assert forall i :: 0 <= i < |rows| ==> all[i] == rows[i];
    assert all[|rows|] == row;
  }

  lemma {:induction false} RestoredRowsGenuine(rows: seq<SavedRow>, job: Job, dimension: int)
    requires RestoredRows(rows, job, dimension).Some?
    ensures GenuineRows(rows, job.chunks, dimension)
    ensures ExactlyRows(RestoredRows(rows, job, dimension).value, rows)
  {
    if rows != [] {
      var init, last := rows[..|rows| - 1], rows[|rows| - 1];
      var done := RestoredRows(init, job, dimension).value;
      assert init + [last] == rows;
      RestoredRowsGenuine(init, job, dimension);
      GenuineStep(init, last, done, job, dimension);
    }
  }

  lemma {:induction false} GenuineStep(rows: seq<SavedRow>, row: SavedRow, done: Completed, job: Job, dimension: int)
    requires GenuineRows(rows, job.chunks, dimension) && ExactlyRows(done, rows)
    requires RowMatches(row, job, dimension) && row.chunkId !in done
    ensures GenuineRows(rows + [row], job.chunks, dimension)
    ensures ExactlyRows(done[row.chunkId := Numbers(row.embedding)], rows + [row])
  {
    MatchesExactly(row, job, dimension);
    forall i | 0 <= i < |rows| ensures rows[i].chunkId in done {}
    OneGenuineMore(rows, row, job.chunks, dimension);
    OneRowMore(done, rows, row);
  }

  lemma {:induction false} GenuineRowsRestored(rows: seq<SavedRow>, job: Job, dimension: int)
    requires GenuineRows(rows, job.chunks, dimension)
    ensures RestoredRows(rows, job, dimension).Some?
  {
    if rows != [] {
      var init, last := rows[..|rows| - 1], rows[|rows| - 1];
      forall i | 0 <= i < |init| ensures init[i] == rows[i] && init[i].chunkId != last.chunkId {
        assert rows[i].chunkId != rows[|rows| - 1].chunkId;
      }
      GenuineRowsRestored(init, job, dimension);
      RestoredRowsGenuine(init, job, dimension);
      MatchesExactly(last, job, dimension);
    }
  }

  lemma {:induction false} OneRowMore(done: Completed, init: seq<SavedRow>, last: SavedRow)
    requires last.SavedRow? && forall i :: 0 <= i < |init| ==> init[i].SavedRow?
    requires ExactlyRows(done, init)
    requires last.chunkId !in done && forall c :: c in last.embedding ==> c.Number?
    ensures ExactlyRows(done[last.chunkId := Numbers(last.embedding)], init + [last])
  {
    var rows, numbers := init + [last], Numbers(last.embedding);
    var more := done[last.chunkId := numbers];
    assert rows[|init|] == last;
    forall id ensures id in more <==> exists i :: 0 <= i < |rows| && rows[i].chunkId == id {
      if id in done {
        var i :| 0 <= i < |init| && init[i].chunkId == id;
        assert rows[i].chunkId == id;
      }
      if i :| 0 <= i < |init| && rows[i].chunkId == id {
        assert init[i].chunkId == id;
      }
    }
    assert Spells(numbers, last.embedding) by {
      forall k | 0 <= k < |last.embedding| ensures last.embedding[k] == Number(numbers[k]) {
        assert last.embedding[k] in last.embedding;
      }
    }
    forall i | 0 <= i < |rows| ensures Spells(more[rows[i].chunkId], rows[i].embedding) {
      if i < |init| {
        assert init[i] == rows[i] && rows[i].chunkId in done;
      }
    }
  }

  /** A file is accepted exactly when there is none or it can be reused, and what is restored are exactly
      its rows. */
  ghost predicate Recovers(file: CheckpointFile, job: Job, dimension: int, found: Option<Completed>) {
    && (found.Some? <==> file.Absent? || Reusable(file, job, dimension))
    && (file.Absent? ==> found == Some(map[]))
    && (found.Some? && Reusable(file, job, dimension) ==> ExactlyRows(found.value, file.rows))
  }

  lemma {:induction false} RestoredExact(file: CheckpointFile, job: Job, dimension: int)
    ensures Recovers(file, job, dimension, Restored(file, job, dimension))
  {
    if file.Saved? {
      if RestoredRows(file.rows, job, dimension).Some? {
        RestoredRowsGenuine(file.rows, job, dimension);
      } else if GenuineRows(file.rows, job.chunks, dimension) {
        GenuineRowsRestored(file.rows, job, dimension);
      }
    }
  }

  function AsVector(numbers: seq<real>): Vector {
    seq(|numbers|, i requires 0 <= i < |numbers| => Number(numbers[i]))
  }

  function RowFor(chunk: Chunk, embedding: seq<real>): SavedRow {
    SavedRow(chunk.chunkId, chunk.assetId, chunk.sourceRevision, chunk.contentDigest, AsVector(embedding))
  }

  function RowsFor(chunks: seq<Chunk>, completed: Completed): seq<SavedRow> {
    if chunks == [] then []
    else
      var last := chunks[|chunks| - 1];
      RowsFor(chunks[..|chunks| - 1], completed) +
      (if last.chunkId in completed then [RowFor(last, completed[last.chunkId])] else [])
  }

  function Written(job: Job, dimension: int, completed: Completed): CheckpointFile {
    Saved(job.manifestDigest, job.signature, dimension, RowsFor(job.chunks, completed))
  }

  /** What a run completes: some of the chunks, each with a vector of the right length. */
  ghost predicate Plausible(completed: Completed, chunks: seq<Chunk>, dimension: int) {
    && completed.Keys <= ChunkIds(chunks)
    && forall id :: id in completed ==> |completed[id]| == dimension
  }

  /** No completed ID belongs to two chunks. */
  ghost predicate NoneTwice(chunks: seq<Chunk>, completed: Completed) {
    forall i, j :: 0 <= i < j < |chunks| && chunks[i].chunkId in completed ==> chunks[i].chunkId != chunks[j].chunkId
  }

  lemma {:induction false} ChunkByIdAt(chunks: seq<Chunk>, i: nat)
    requires i < |chunks|
    requires forall j :: i < j < |chunks| ==> chunks[j].chunkId != chunks[i].chunkId
    ensures ChunkById(chunks, chunks[i].chunkId) == Some(chunks[i])
  {
    if i < |chunks| - 1 {
      ChunkByIdAt(chunks[..|chunks| - 1], i);
    }
  }

  function Only(completed: Completed, chunks: seq<Chunk>): Completed {
    map id | id in completed && id in ChunkIds(chunks) :: completed[id]
  }

  lemma {:induction false} OnlyStep(completed: Completed, chunks: seq<Chunk>, n: nat)
    requires n < |chunks|
    ensures var id := chunks[n].chunkId;
      Only(completed, chunks[..n + 1]) ==
        if id in completed then Only(completed, chunks[..n])[id := completed[id]] else Only(completed, chunks[..n])
    ensures chunks[n].chunkId in Only(completed, chunks[..n]) ==>
      chunks[n].chunkId in completed && exists i :: 0 <= i < n && chunks[i].chunkId == chunks[n].chunkId
  {
    IdsStep(chunks, n);
    if chunks[n].chunkId in Only(completed, chunks[..n]) {
      var i :| 0 <= i < n && chunks[..n][i].chunkId == chunks[n].chunkId;
      assert chunks[i].chunkId == chunks[n].chunkId;
    }
  }

  lemma {:induction false} IdsStep(chunks: seq<Chunk>, n: nat)
    requires n < |chunks|
    ensures ChunkIds(chunks[..n + 1]) == ChunkIds(chunks[..n]) + {chunks[n].chunkId}
  {
    forall id ensures id in ChunkIds(chunks[..n + 1]) <==> id in ChunkIds(chunks[..n]) + {chunks[n].chunkId} {
      if id in ChunkIds(chunks[..n]) {
        var i :| 0 <= i < n && chunks[..n][i].chunkId == id;
        assert chunks[..n + 1][i].chunkId == id;
      }
      assert chunks[..n + 1][n] == chunks[n];
      if id in ChunkIds(chunks[..n + 1]) && id != chunks[n].chunkId {
        var i :| 0 <= i < n + 1 && chunks[..n + 1][i].chunkId == id;
        assert chunks[..n][i].chunkId == id;
      }
    }
  }

  lemma {:induction false} AcceptedAsVector(numbers: seq<real>)
    ensures Accepted(AsVector(numbers), |numbers|) && Numbers(AsVector(numbers)) == numbers
  {
  }

  lemma {:induction false} RestoreRowsFor(job: Job, dimension: int, completed: Completed, n: nat)
    requires n <= |job.chunks|
    requires Plausible(completed, job.chunks, dimension) && NoneTwice(job.chunks, completed)
    ensures RestoredRows(RowsFor(job.chunks[..n], completed), job, dimension) == Some(Only(completed, job.chunks[..n]))
  {
    if n > 0 {
      var last := job.chunks[n - 1];
      RestoreRowsFor(job, dimension, completed, n - 1);
      assert job.chunks[..n][..n - 1] == job.chunks[..n - 1];
      OnlyStep(completed, job.chunks, n - 1);
      if last.chunkId in completed {
        var rows := RowsFor(job.chunks[..n], completed);
        assert rows[..|rows| - 1] == RowsFor(job.chunks[..n - 1], completed);
        ChunkByIdAt(job.chunks, n - 1);
        AcceptedAsVector(completed[last.chunkId]);
        assert rows[|rows| - 1] == RowFor(last, completed[last.chunkId]);
        assert RowMatches(RowFor(last, completed[last.chunkId]), job, dimension);
        assert last.chunkId !in Only(completed, job.chunks[..n - 1]);
      } else {
        assert RowsFor(job.chunks[..n], completed) == RowsFor(job.chunks[..n - 1], completed);
      }
    }
  }

  lemma {:induction false} RowsForBound(chunks: seq<Chunk>, completed: Completed)
    ensures |RowsFor(chunks, completed)| <= |chunks|
  {
    if chunks != [] { RowsForBound(chunks[..|chunks| - 1], completed); }
  }

  lemma {:induction false} RowsForHas(chunks: seq<Chunk>, completed: Completed, i: nat)
    requires i < |chunks| && chunks[i].chunkId in completed
    ensures RowFor(chunks[i], completed[chunks[i].chunkId]) in RowsFor(chunks, completed)
  {
    if i < |chunks| - 1 { RowsForHas(chunks[..|chunks| - 1], completed, i); }
  }

  lemma {:induction false} RestoredKeys(rows: seq<SavedRow>, job: Job, dimension: int)
    requires RestoredRows(rows, job, dimension).Some?
    ensures forall row :: row in rows ==> row.SavedRow? && row.chunkId in RestoredRows(rows, job, dimension).value
  {
    if rows != [] {
      RestoredKeys(rows[..|rows| - 1], job, dimension);
      assert rows == rows[..|rows| - 1] + [rows[|rows| - 1]];
    }
  }

  lemma {:induction false} TwiceIsRefused(job: Job, dimension: int, completed: Completed, chunks: seq<Chunk>, i: nat,
                                          j: nat)
    requires i < j < |chunks| && chunks[i].chunkId == chunks[j].chunkId && chunks[i].chunkId in completed
    ensures RestoredRows(RowsFor(chunks, completed), job, dimension).None?
  {
    var init := chunks[..|chunks| - 1];
    var rows := RowsFor(chunks, completed);
    if j < |chunks| - 1 {
      TwiceIsRefused(job, dimension, completed, init, i, j);
      if chunks[|chunks| - 1].chunkId in completed {
        assert rows[..|rows| - 1] == RowsFor(init, completed);
      } else {
        assert rows == RowsFor(init, completed);
      }
    } else {
      assert rows[..|rows| - 1] == RowsFor(init, completed);
      if RestoredRows(RowsFor(init, completed), job, dimension).Some? {
        RowsForHas(init, completed, i);
        RestoredKeys(RowsFor(init, completed), job, dimension);
      }
    }
  }

  /** A checkpoint is read back as it was written, unless a completed ID belongs to two chunks; then it
      can never be reused. */
  lemma {:induction false} RestoredOfWritten(job: Job, dimension: int, completed: Completed)
    requires Plausible(completed, job.chunks, dimension)
    ensures Restored(Written(job, dimension, completed), job, dimension) ==
      if NoneTwice(job.chunks, completed) then Some(completed) else None
  {
    RowsForBound(job.chunks, completed);
    if NoneTwice(job.chunks, completed) {
      RestoreRowsFor(job, dimension, completed, |job.chunks|);
      assert job.chunks[..|job.chunks|] == job.chunks;
      assert Only(completed, job.chunks) == completed;
    } else {
      var i, j :|
        0 <= i < j < |job.chunks| && job.chunks[i].chunkId in completed
          && job.chunks[i].chunkId == job.chunks[j].chunkId;
      TwiceIsRefused(job, dimension, completed, job.chunks, i, j);
    }
  }

  /** Two chunks with one ID: what a run writes for them, no run can reuse. */
  lemma {:induction false} RepeatedIdIsRefused(c: Chunk, manifestDigest: string, signature: string)
    ensures var job := Job([c, c], manifestDigest, signature);
      Restored(Written(job, 1, map[c.chunkId := [0.0]]), job, 1) == None
  {
    var job, completed := Job([c, c], manifestDigest, signature), map[c.chunkId := [0.0]];
    assert c.chunkId in ChunkIds(job.chunks) by { assert job.chunks[0].chunkId == c.chunkId; }
    assert !NoneTwice(job.chunks, completed) by {
      assert job.chunks[0].chunkId == job.chunks[1].chunkId;
    }
    RestoredOfWritten(job, 1, completed);
  }

  // ---------------------------------------------------------------- a run

  class CheckpointStore {
    const replies: nat -> Reply
    var clock: nat
    var file: CheckpointFile

    constructor (replies: nat -> Reply, file: CheckpointFile)
      ensures this.replies == replies && this.file == file && clock == 0
    {
      this.replies, this.file, clock := replies, file, 0;
    }

    method Replace(content: CheckpointFile) returns (ok: bool)
      modifies this
      ensures clock == old(clock) + 1
      ensures ok <==> replies(old(clock)).Works?
      ensures file == if replies(old(clock)).Refused? then old(file) else content
    {
      var reply := replies(clock);
      clock := clock + 1;
      if !reply.Refused? {
        file := content;
      }
      ok := reply.Works?;
    }
  }

  function Missing(chunks: seq<Chunk>, completed: Completed): seq<Chunk> {
    if chunks == [] then []
    else
      var last := chunks[|chunks| - 1];
      Missing(chunks[..|chunks| - 1], completed) + (if last.chunkId in completed then [] else [last])
  }

  function Noted(completed: Completed, rows: seq<EmbeddedRow>): Completed {
    if rows == [] then completed
    else
      var last := rows[|rows| - 1];
      Noted(completed, rows[..|rows| - 1])[last.chunk.chunkId := last.embedding]
  }

  lemma {:induction false} NotedAppend(completed: Completed, rows: seq<EmbeddedRow>, more: seq<EmbeddedRow>)
    ensures Noted(Noted(completed, rows), more) == Noted(completed, rows + more)
  {
    if more == [] {
      assert rows + more == rows;
    } else {
      var all := rows + more;
      NotedAppend(completed, rows, more[..|more| - 1]);
      assert all[..|all| - 1] == rows + more[..|more| - 1];
    }
  }

  lemma {:induction false} NotedKeys(completed: Completed, rows: seq<EmbeddedRow>)
    ensures forall id ::
      id in Noted(completed, rows) <==> id in completed || exists i :: 0 <= i < |rows| && rows[i].chunk.chunkId == id
  {
    if rows != [] {
      var init, last := rows[..|rows| - 1], rows[|rows| - 1];
      NotedKeys(completed, init);
      assert rows == init + [last];
      forall id
        ensures id in Noted(completed, rows) <==>
          id in completed || exists i :: 0 <= i < |rows| && rows[i].chunk.chunkId == id
      {
        if id in Noted(completed, init) && id !in completed {
          var i :| 0 <= i < |init| && init[i].chunk.chunkId == id;
          assert rows[i].chunk.chunkId == id;
        }
        if i :| 0 <= i < |rows| && rows[i].chunk.chunkId == id {
          if i < |init| { assert init[i].chunk.chunkId == id; }
        }
      }
    }
  }

  lemma {:induction false} MissingExact(chunks: seq<Chunk>, completed: Completed)
    ensures forall c :: c in Missing(chunks, completed) <==> c in chunks && c.chunkId !in completed
  {
    if chunks != [] {
      MissingExact(chunks[..|chunks| - 1], completed);
      assert chunks == chunks[..|chunks| - 1] + [chunks[|chunks| - 1]];
    }
  }

  /** The number of batches of so many chunks: the calls of a run that gets to its end. */
  function Calls(size: nat, batchSize: nat): nat
    requires batchSize >= 1
  {
    if size == 0 then 0 else if size <= batchSize then 1 else 1 + Calls(size - batchSize, batchSize)
  }

  lemma {:induction false} CallsExact(size: nat, batchSize: nat, n: nat)
    requires batchSize >= 1
    ensures n < Calls(size, batchSize) <==> Full(n, batchSize) < size
  {
    if size > batchSize && n > 0 {
      CallsExact(size - batchSize, batchSize, n - 1);
    } else if n > 0 {
      FullBound(n - 1, batchSize);
    }
  }

  /** Embedding `a` and then `b` is embedding both, when `a` fills its batches. */
  lemma {:induction false} EmbedInTwo(a: seq<Chunk>, b: seq<Chunk>, provider: EmbeddingProvider, k: nat, calls: nat)
    requires provider.batchSize >= 1 && |a| == Full(calls, provider.batchSize)
    ensures EmbeddedRows(a + b, provider, k) ==
      match EmbeddedRows(a, provider, k)
      case None => None
      case Some(rows) => Prepend(rows, EmbeddedRows(b, provider, k + calls))
  {
    var n := provider.batchSize;
    if calls == 0 {
      assert a + b == b;
      var rest := EmbeddedRows(b, provider, k);
      assert rest.Some? ==> [] + rest.value == rest.value;
    } else {
      assert (a + b)[..n] == a[..n] && (a + b)[n..] == a[n..] + b;
      EmbedInTwo(a[n..], b, provider, k + 1, calls - 1);
      var first := BatchRows(a[..n], provider.embed(k, Texts(a[..n])), provider.dimension);
      if first.Some? && EmbeddedRows(a[n..], provider, k + 1).Some? {
        PrependTwice(first.value, EmbeddedRows(a[n..], provider, k + 1).value, EmbeddedRows(b, provider, k + calls));
      }
    }
  }

  predicate ValidSizes(job: Job, provider: EmbeddingProvider) {
    job.chunks != [] && 1 <= provider.dimension <= 16_384 && 1 <= provider.batchSize <= 256
  }

  predicate Alphanumeric(c: char) {
    'A' <= c <= 'Z' || 'a' <= c <= 'z' || '0' <= c <= '9'
  }

  /** `^[A-Za-z0-9][A-Za-z0-9._:=|+\-]{0,511}$`; such a text is never blank. */
  predicate IsSignature(s: string) {
    1 <= |s| <= 512 && Alphanumeric(s[0]) && forall i :: 1 <= i < |s| ==> Alphanumeric(s[i]) || s[i] in "._:=|+-"
  }

  /** The admissible runs: chunks, sizes within their bounds, a digest of the manifest, a signature of at most 512
      characters, by their codes, and a regular file or none at a path without links. */
  lemma {:induction false} AdmissibleExact(job: Job, provider: EmbeddingProvider, site: Site)
    ensures Admissible(job, provider, site) <==>
      && |job.chunks| > 0 && 0 < provider.dimension <= 16_384 && 0 < provider.batchSize <= 256
      && Strings.IsDigest(job.manifestDigest) && 0 < |job.signature| <= 512
      && (forall i :: 0 <= i < |job.signature| ==>
           var c := job.signature[i] as int;
           || 48 <= c <= 57 || 65 <= c <= 90 || 97 <= c <= 122
           || (i > 0 && (c == 46 || c == 95 || c == 58 || c == 61 || c == 124 || c == 43 || c == 45)))
      && site == Site(false, false)
  {
    forall c: char ensures Alphanumeric(c) <==>
      48 <= c as int <= 57 || 65 <= c as int <= 90 || 97 <= c as int <= 122 {}
    forall c: char ensures c in "._:=|+-" <==> c as int in {46, 95, 58, 61, 124, 43, 45} {
      assert "._:=|+-" == ['.', '_', ':', '=', '|', '+', '-'];
    }
  }

  /** What the run finds at the path of the checkpoint. */
  datatype Site = Site(linkOnPath: bool, notARegularFile: bool)

  /** The checks before the checkpoint is read. */
  predicate Admissible(job: Job, provider: EmbeddingProvider, site: Site) {
    && ValidSizes(job, provider) && Strings.IsDigest(job.manifestDigest) && IsSignature(job.signature)
    && !site.linkOnPath && !site.notARegularFile
  }

  function ResultRows(chunks: seq<Chunk>, completed: Completed): seq<EmbeddedRow>
    requires forall i :: 0 <= i < |chunks| ==> chunks[i].chunkId in completed
  {
    seq(|chunks|, i requires 0 <= i < |chunks| => EmbeddedRow(chunks[i], completed[chunks[i].chunkId]))
  }

  function FileAfter(job: Job, dimension: int, before: CheckpointFile, p: nat, completed: Completed): CheckpointFile {
    if p == 0 then before else Written(job, dimension, completed)
  }

  function NextBatch(missing: seq<Chunk>, start: nat, batchSize: int): (batch: seq<Chunk>)
    requires batchSize >= 1 && start < |missing|
    ensures |batch| == FirstBatch(|missing| - start, batchSize)
  {
    missing[start..start + FirstBatch(|missing| - start, batchSize)]
  }

  function Answer(batch: seq<Chunk>, provider: EmbeddingProvider, call: nat): Option<seq<EmbeddedRow>> {
    BatchRows(batch, provider.embed(call, Texts(batch)), provider.dimension)
  }

  /** A run that found `start` completed has embedded the first `p` missing chunks, as `embedded`, and
      the checkpoint holds what it found and these. */
  ghost predicate Stands(job: Job, provider: EmbeddingProvider, start: Completed, p: nat, embedded: seq<EmbeddedRow>,
                         before: CheckpointFile, after: CheckpointFile)
    requires provider.batchSize >= 1
  {
    && p <= |Missing(job.chunks, start)|
    && EmbeddedRows(Missing(job.chunks, start)[..p], provider, 0) == Some(embedded)
    && after == FileAfter(job, provider.dimension, before, p, Noted(start, embedded))
  }

  /** A run delivers when it has embedded all missing chunks: for each chunk what is now completed. */
  ghost predicate Delivers(job: Job, start: Completed, p: nat, embedded: seq<EmbeddedRow>, rows: seq<EmbeddedRow>) {
    && p == |Missing(job.chunks, start)|
    && (forall i :: 0 <= i < |job.chunks| ==> job.chunks[i].chunkId in Noted(start, embedded))
    && rows == ResultRows(job.chunks, Noted(start, embedded))
  }

  /** Why a run stopped after so many full batches, all of them saved: the provider failed on the next one,
      or its checkpoint did; then `p` missing chunks are in the checkpoint. */
  ghost predicate Stopped(job: Job, provider: EmbeddingProvider, found: Completed, p: nat, batches: nat, saved: nat,
                          replies: nat -> Reply, from: nat)
    requires provider.batchSize >= 1
  {
    && AllWork(replies, from, batches) && Full(batches, provider.batchSize) < |Missing(job.chunks, found)|
    && BatchStopped(job, Asking(provider), found, saved, batches, replies(from + batches))
    && p == Reached(Missing(job.chunks, found), Asking(provider), saved)
  }

  /** Why the batch after so many stopped the run, and how many were saved. */
  ghost predicate BatchStopped(job: Job, asker: Asker, found: Completed, saved: nat, batches: nat, reply: Reply)
    requires asker.batchSize >= 1 && Full(batches, asker.batchSize) < |Missing(job.chunks, found)|
  {
    if BatchAnswer(Missing(job.chunks, found), asker, batches).None? then saved == batches
    else !reply.Works? && saved == if reply.Refused? then batches else batches + 1
  }

  /** How a run ends that found `found` in the checkpoint: it has embedded a prefix of the missing chunks and
      leaves what it found and that prefix, and nothing else, in the checkpoint. */
  ghost predicate Ends(job: Job, provider: EmbeddingProvider, found: Completed, p: nat, embedded: seq<EmbeddedRow>,
                       before: CheckpointFile, after: CheckpointFile, rows: Option<seq<EmbeddedRow>>,
                       replies: nat -> Reply, from: nat)
    requires provider.batchSize >= 1
  {
    var plain := EmbeddedRows(Missing(job.chunks, found), provider, 0);
    && Stands(job, provider, found, p, embedded, before, after)
    && (rows.Some? ==> Delivers(job, found, p, embedded, rows.value))
    && (rows.None? ==> exists batches, saved :: Stopped(job, provider, found, p, batches, saved, replies, from))
    && (rows.Some? <==> plain.Some? && AllWork(replies, from, Calls(|Missing(job.chunks, found)|, provider.batchSize)))
  }

  /** `build_embedded_rows_checkpointed`.  A run that is not admissible or cannot reuse the checkpoint
      touches nothing; any other succeeds exactly when the provider answers for all missing chunks and the
      replacements after all their batches work. */
  method BuildCheckpointed(job: Job, provider: EmbeddingProvider, site: Site, store: CheckpointStore)
    returns (rows: Option<seq<EmbeddedRow>>, ghost p: nat, ghost embedded: seq<EmbeddedRow>)
    modifies store
    ensures var file, found := old(store.file), Restored(old(store.file), job, provider.dimension);
      if !Admissible(job, provider, site) || !(file.Absent? || Reusable(file, job, provider.dimension)) then
        rows.None? && store.file == file
      else
        && found.Some? && Recovers(file, job, provider.dimension, found)
        && Ends(job, provider, found.value, p, embedded, file, store.file, rows, store.replies, old(store.clock))
  {
    if !Admissible(job, provider, site) {
      return None, 0, [];
    }
    var restored := Restore(store.file, job, provider.dimension);
    if restored.None? {
      return None, 0, [];
    }
    rows, p, embedded := Resume(job, provider, store, restored.value);
  }

  /** The run from what it found completed. */
  method Resume(job: Job, provider: EmbeddingProvider, store: CheckpointStore, found: Completed)
    returns (rows: Option<seq<EmbeddedRow>>, ghost p: nat, ghost embedded: seq<EmbeddedRow>)
    requires provider.batchSize >= 1
    modifies store
    ensures Ends(job, provider, found, p, embedded, old(store.file), store.file, rows, store.replies, old(store.clock))
  {
    ghost var before, from, missing := store.file, store.clock, Missing(job.chunks, found);
    var completed, done, batches, saved := EmbedMissing(job, Asking(provider), store, found);
    ghost var after := store.file;
    p, embedded := Reached(missing, Asking(provider), saved), Progress(missing, Asking(provider), saved);
    if done {
      EndsDone(job, provider, found, saved, before, after, store.replies, from);
      rows := Some(ResultRows(job.chunks, completed));
    } else {
      EndsStopped(job, provider, found, batches, saved, before, after, store.replies, from);
      rows := None;
    }
  }

  lemma {:induction false} EndsStopped(job: Job, provider: EmbeddingProvider, found: Completed, batches: nat,
                                       saved: nat, before: CheckpointFile, after: CheckpointFile,
                                       replies: nat -> Reply, from: nat)
    requires provider.batchSize >= 1 && InCheckpoint(job, Asking(provider), found, saved, before, after)
    requires AllWork(replies, from, batches) && Full(batches, provider.batchSize) < |Missing(job.chunks, found)|
    requires BatchStopped(job, Asking(provider), found, saved, batches, replies(from + batches))
    ensures var missing, asker := Missing(job.chunks, found), Asking(provider);
      Ends(job, provider, found, Reached(missing, asker, saved), Progress(missing, asker, saved), before, after, None,
           replies, from)
  {
    var p := Reached(Missing(job.chunks, found), Asking(provider), saved);
    ProgressStands(job, provider, found, saved, before, after);
    assert Stopped(job, provider, found, p, batches, saved, replies, from);
    StoppedMeans(job, provider, found, p, batches, saved, replies, from);
  }

  lemma {:induction false} EndsDone(job: Job, provider: EmbeddingProvider, found: Completed, n: nat,
                                    before: CheckpointFile, after: CheckpointFile, replies: nat -> Reply, from: nat)
    requires provider.batchSize >= 1 && InCheckpoint(job, Asking(provider), found, n, before, after)
    requires Full(n, provider.batchSize) >= |Missing(job.chunks, found)| && AllWork(replies, from, n)
    ensures var missing, asker := Missing(job.chunks, found), Asking(provider);
      && (forall i :: 0 <= i < |job.chunks| ==> job.chunks[i].chunkId in After(job, asker, found, n))
      && Ends(job, provider, found, Reached(missing, asker, n), Progress(missing, asker, n), before, after,
              Some(ResultRows(job.chunks, After(job, asker, found, n))), replies, from)
  {
    var missing, asker := Missing(job.chunks, found), Asking(provider);
    var p, embedded := Reached(missing, asker, n), Progress(missing, asker, n);
    ProgressStands(job, provider, found, n, before, after);
    StandsAtEnd(job, provider, found, p, embedded, before, after);
    AllCompleted(job.chunks, found, provider, embedded);
    CallsExact(|missing|, provider.batchSize, n);
    assert Delivers(job, found, p, embedded, ResultRows(job.chunks, Noted(found, embedded)));
  }

  /** A provider as the loop over the batches sees it: `ask(k, batch)` is the outcome of the k-th call, the
      rows of the batch if the answer is acceptable. */
  datatype Asker = Asker(dimension: int, batchSize: int, ask: (nat, seq<Chunk>) -> Option<seq<EmbeddedRow>>)

  function Asking(provider: EmbeddingProvider): Asker {
    Asker(provider.dimension, provider.batchSize, (k: nat, batch) => Answer(batch, provider, k))
  }

  /** The rows of the first `n` batches, as far as the provider answered. */
  function Progress(missing: seq<Chunk>, asker: Asker, n: nat): seq<EmbeddedRow>
    requires asker.batchSize >= 1
  {
    if n == 0 then []
    else
      Progress(missing, asker, n - 1) +
      (if Answered(missing, asker, n - 1) then BatchAnswer(missing, asker, n - 1).value else [])
  }

  /** There is a k-th batch, and the provider answers it. */
  predicate Answered(missing: seq<Chunk>, asker: Asker, k: nat)
    requires asker.batchSize >= 1
  {
    Full(k, asker.batchSize) < |missing| && BatchAnswer(missing, asker, k).Some?
  }

  predicate AllAnswered(missing: seq<Chunk>, asker: Asker, n: nat)
    requires asker.batchSize >= 1
  {
    n > 0 ==> AllAnswered(missing, asker, n - 1) && Answered(missing, asker, n - 1)
  }

  function BatchAnswer(missing: seq<Chunk>, asker: Asker, k: nat): Option<seq<EmbeddedRow>>
    requires asker.batchSize >= 1 && Full(k, asker.batchSize) < |missing|
  {
    asker.ask(k, NextBatch(missing, Full(k, asker.batchSize), asker.batchSize))
  }

  /** The number of chunks in the first `n` batches. */
  function Reached(missing: seq<Chunk>, asker: Asker, n: nat): nat
    requires asker.batchSize >= 1
  {
    if Full(n, asker.batchSize) <= |missing| then Full(n, asker.batchSize) else |missing|
  }

  /** Answered batches are embedded chunks. */
  lemma {:induction false} ProgressEmbeds(missing: seq<Chunk>, provider: EmbeddingProvider, n: nat)
    requires provider.batchSize >= 1 && AllAnswered(missing, Asking(provider), n)
    ensures EmbeddedRows(missing[..Reached(missing, Asking(provider), n)], provider, 0) ==
      Some(Progress(missing, Asking(provider), n))
  {
    if n == 0 {
      assert missing[..0] == [];
    } else {
      var asker := Asking(provider);
      ProgressEmbeds(missing, provider, n - 1);
      var start := Full(n - 1, provider.batchSize);
      var batch := NextBatch(missing, start, provider.batchSize);
      assert Reached(missing, asker, n - 1) == start && Reached(missing, asker, n) == start + |batch|;
      BatchStep(missing, start, |batch|, provider, n - 1, Progress(missing, asker, n - 1),
                Answer(batch, provider, n - 1));
    }
  }

  /** What the loop has to its credit after `n` saved batches. */
  lemma {:induction false} ProgressStands(job: Job, provider: EmbeddingProvider, found: Completed, n: nat,
                                          before: CheckpointFile, after: CheckpointFile)
    requires provider.batchSize >= 1 && InCheckpoint(job, Asking(provider), found, n, before, after)
    ensures var missing := Missing(job.chunks, found);
      Stands(job, provider, found, Reached(missing, Asking(provider), n), Progress(missing, Asking(provider), n),
             before, after)
  {
    ProgressEmbeds(Missing(job.chunks, found), provider, n);
    FullBound(n, provider.batchSize);
  }

  /** The checkpoint after `n` saved batches. */
  function SavedAfter(job: Job, asker: Asker, found: Completed, n: nat, before: CheckpointFile): CheckpointFile
    requires asker.batchSize >= 1
  {
    if n == 0 then before
    else Written(job, asker.dimension, Noted(found, Progress(Missing(job.chunks, found), asker, n)))
  }

  /** `n` batches are answered and in the checkpoint. */
  ghost predicate InCheckpoint(job: Job, asker: Asker, found: Completed, n: nat, before: CheckpointFile,
                               file: CheckpointFile)
    requires asker.batchSize >= 1
  {
    AllAnswered(Missing(job.chunks, found), asker, n) && file == SavedAfter(job, asker, found, n, before)
  }

  /** What is completed after `n` answered batches. */
  function After(job: Job, asker: Asker, found: Completed, n: nat): Completed
    requires asker.batchSize >= 1
  {
    Noted(found, Progress(Missing(job.chunks, found), asker, n))
  }

  /** The loop over the batches of the missing chunks: `batches` of them were answered and saved, `saved`
      counts also one whose checkpoint took effect and raised. */
  method EmbedMissing(job: Job, asker: Asker, store: CheckpointStore, found: Completed)
    returns (completed: Completed, done: bool, ghost batches: nat, ghost saved: nat)
    requires asker.batchSize >= 1
    modifies store
    ensures InCheckpoint(job, asker, found, saved, old(store.file), store.file)
    ensures AllWork(store.replies, old(store.clock), batches)
    ensures done ==>
      saved == batches && Full(batches, asker.batchSize) >= |Missing(job.chunks, found)|
        && completed == After(job, asker, found, saved)
    ensures !done ==>
      Full(batches, asker.batchSize) < |Missing(job.chunks, found)| &&
      BatchStopped(job, asker, found, saved, batches, store.replies(old(store.clock) + batches))
  {
    var missing := Missing(job.chunks, found);
    completed, done, batches, saved := found, true, 0, 0;
    var start, call := 0, 0;
    ghost var from, before := store.clock, store.file;
    while start < |missing|
      invariant 0 <= start && start == Full(call, asker.batchSize)
      invariant saved == batches == call
      invariant completed == After(job, asker, found, call)
      invariant InCheckpoint(job, asker, found, call, before, store.file)
      invariant store.clock == from + call && AllWork(store.replies, from, call)
    {
      var answer := asker.ask(call, NextBatch(missing, start, asker.batchSize));
      if answer.None? {
        done := false;
        return;
      }
      NextInCheckpoint(job, asker, found, call, before, store.file);
      completed := Note(completed, answer.value);
      done := store.Replace(Written(job, asker.dimension, completed));
      saved := if store.replies(from + call).Refused? then call else call + 1;
      assert InCheckpoint(job, asker, found, saved, before, store.file);
      if !done {
        return;
      }
      AllWorkNext(store.replies, from, call);
      start := start + asker.batchSize;
      call := call + 1;
      batches := call;
    }
  }

  lemma {:induction false} NextInCheckpoint(job: Job, asker: Asker, found: Completed, n: nat, before: CheckpointFile,
                                            file: CheckpointFile)
    requires asker.batchSize >= 1 && Answered(Missing(job.chunks, found), asker, n)
    requires InCheckpoint(job, asker, found, n, before, file)
    ensures Noted(After(job, asker, found, n), BatchAnswer(Missing(job.chunks, found), asker, n).value) ==
      After(job, asker, found, n + 1)
    ensures InCheckpoint(job, asker, found, n + 1, before,
                         Written(job, asker.dimension, After(job, asker, found, n + 1)))
  {
    var missing := Missing(job.chunks, found);
    NotedAppend(found, Progress(missing, asker, n), BatchAnswer(missing, asker, n).value);
  }

  lemma {:induction false} AllWorkNext(replies: nat -> Reply, from: nat, n: nat)
    requires AllWork(replies, from, n) && replies(from + n).Works?
    ensures AllWork(replies, from, n + 1)
  {
  }

  lemma {:induction false} FullBound(calls: nat, batchSize: nat)
    requires batchSize >= 1
    ensures calls <= Full(calls, batchSize)
  {
    if calls > 0 { FullBound(calls - 1, batchSize); }
  }

  /** When every replacement works, only a provider that does not answer stops a run, and then no run
      without checkpoint would have succeeded in its place. */
  lemma {:induction false} StoppedMeans(job: Job, provider: EmbeddingProvider, found: Completed, p: nat, batches: nat,
                                        saved: nat, replies: nat -> Reply, from: nat)
    requires provider.batchSize >= 1 && Stopped(job, provider, found, p, batches, saved, replies, from)
    ensures AllWork(replies, from, Calls(|Missing(job.chunks, found)|, provider.batchSize)) ==>
      EmbeddedRows(Missing(job.chunks, found), provider, 0).None?
  {
    var missing := Missing(job.chunks, found);
    CallsExact(|missing|, provider.batchSize, batches);
    if AllWork(replies, from, Calls(|missing|, provider.batchSize)) {
      assert replies(from + batches) == Works;
      NoAnswerNoRows(missing, provider, batches);
    }
  }

  lemma {:induction false} NoAnswerNoRows(missing: seq<Chunk>, provider: EmbeddingProvider, batches: nat)
    requires provider.batchSize >= 1 && Full(batches, provider.batchSize) < |missing|
    requires BatchAnswer(missing, Asking(provider), batches).None?
    ensures EmbeddedRows(missing, provider, 0).None?
  {
    var start := Full(batches, provider.batchSize);
    var rest, batch := missing[start..], NextBatch(missing, start, provider.batchSize);
    assert rest[..|batch|] == batch;
    FirstAnswer(rest, |batch|, provider, batches, Answer(batch, provider, batches));
    EmbedInTwo(missing[..start], rest, provider, 0, batches);
    assert missing[..start] + rest == missing;
  }

  lemma {:induction false} StandsAtEnd(job: Job, provider: EmbeddingProvider, found: Completed, p: nat,
                                       embedded: seq<EmbeddedRow>, before: CheckpointFile, after: CheckpointFile)
    requires provider.batchSize >= 1 && Stands(job, provider, found, p, embedded, before, after)
    requires p == |Missing(job.chunks, found)|
    ensures EmbeddedRows(Missing(job.chunks, found), provider, 0) == Some(embedded)
  {
    assert Missing(job.chunks, found)[..p] == Missing(job.chunks, found);
  }

  /** `completed[chunk.chunk_id] = vector` for the rows of a batch. */
  method Note(completed: Completed, rows: seq<EmbeddedRow>) returns (result: Completed)
    ensures result == Noted(completed, rows)
  {
    result := completed;
    for i := 0 to |rows|
      invariant result == Noted(completed, rows[..i])
    {
      assert rows[..i + 1][..i] == rows[..i];
      result := result[rows[i].chunk.chunkId := rows[i].embedding];
    }
    assert rows[..|rows|] == rows;
  }

  /** One more batch. */
  lemma {:induction false} BatchStep(missing: seq<Chunk>, start: nat, n: nat, provider: EmbeddingProvider, call: nat,
                                     embedded: seq<EmbeddedRow>, answer: Option<seq<EmbeddedRow>>)
    requires provider.batchSize >= 1 && start < |missing| && n == FirstBatch(|missing| - start, provider.batchSize)
    requires start == Full(call, provider.batchSize)
    requires EmbeddedRows(missing[..start], provider, 0) == Some(embedded)
    requires answer ==
      BatchRows(missing[start..start + n], provider.embed(call, Texts(missing[start..start + n])), provider.dimension)
    ensures answer.None? ==> EmbeddedRows(missing, provider, 0).None?
    ensures answer.Some? ==> EmbeddedRows(missing[..start + n], provider, 0) == Some(embedded + answer.value)
  {
    var batch, rest := missing[start..start + n], missing[start..];
    assert rest[..n] == batch;
    FirstAnswer(rest, n, provider, call, answer);
    if answer.None? {
      EmbedInTwo(missing[..start], rest, provider, 0, call);
      assert missing[..start] + rest == missing;
    } else {
      EmbedInTwo(missing[..start], batch, provider, 0, call);
      assert missing[..start] + batch == missing[..start + n];
    }
  }

  lemma {:induction false} FirstAnswer(rest: seq<Chunk>, n: nat, provider: EmbeddingProvider, call: nat,
                                       answer: Option<seq<EmbeddedRow>>)
    requires provider.batchSize >= 1 && rest != [] && n == FirstBatch(|rest|, provider.batchSize)
    requires answer == Answer(rest[..n], provider, call)
    ensures answer.None? ==> EmbeddedRows(rest, provider, call).None?
    ensures answer.Some? ==> EmbeddedRows(rest[..n], provider, call) == answer
  {
    var batch := rest[..n];
    assert batch[..n] == batch && batch[n..] == [];
    if answer.Some? { assert answer.value + [] == answer.value; }
  }

  lemma {:induction false} AllCompleted(chunks: seq<Chunk>, start: Completed, provider: EmbeddingProvider,
                                        embedded: seq<EmbeddedRow>)
    requires provider.batchSize >= 1
    requires EmbeddedRows(Missing(chunks, start), provider, 0) == Some(embedded)
    ensures forall i :: 0 <= i < |chunks| ==> chunks[i].chunkId in Noted(start, embedded)
  {
    EmbeddedRowsFollowChunks(Missing(chunks, start), provider, 0);
    NotedKeys(start, embedded);
    MissingExact(chunks, start);
    forall i | 0 <= i < |chunks| ensures chunks[i].chunkId in Noted(start, embedded) {
      if chunks[i].chunkId !in start {
        assert chunks[i] in Missing(chunks, start);
        var k :| 0 <= k < |embedded| && Missing(chunks, start)[k] == chunks[i];
        assert embedded[k].chunk.chunkId == chunks[i].chunkId;
      }
    }
  }

  // ---------------------------------------------------------------- interrupted and resumed runs

  function VectorsOf(texts: seq<string>, f: string -> Vector): seq<Vector> {
    seq(|texts|, i requires 0 <= i < |texts| => f(texts[i]))
  }

  /** Whatever else a provider does, a text it embeds gets the vector `f` of the text. */
  ghost predicate Deterministic(provider: EmbeddingProvider, f: string -> Vector) {
    forall k, texts :: provider.embed(k, texts).Some? ==> provider.embed(k, texts).value == VectorsOf(texts, f)
  }

  function NumbersOf(v: Vector): seq<real> {
    if forall c :: c in v ==> c.Number? then Numbers(v) else []
  }

  function RowsBy(chunks: seq<Chunk>, f: string -> Vector): seq<EmbeddedRow> {
    seq(|chunks|, i requires 0 <= i < |chunks| => EmbeddedRow(chunks[i], NumbersOf(f(chunks[i].text))))
  }

  lemma {:induction false} BatchRowsBy(chunks: seq<Chunk>, provider: EmbeddingProvider, f: string -> Vector, k: nat)
    requires Deterministic(provider, f)
    ensures Answer(chunks, provider, k).Some? ==> Answer(chunks, provider, k).value == RowsBy(chunks, f)
  {
    var texts := Texts(chunks);
    if Answer(chunks, provider, k).Some? {
      var answer := provider.embed(k, texts).value;
      assert answer == VectorsOf(texts, f);
      forall i | 0 <= i < |chunks| ensures answer[i] == f(chunks[i].text) && answer[i] in answer {
        assert texts[i] == chunks[i].text;
      }
    }
  }

  /** A plain run with such a provider, if it succeeds, embeds each chunk with the vector of its text. */
  lemma {:induction false} PlainRowsBy(chunks: seq<Chunk>, provider: EmbeddingProvider, f: string -> Vector, k: nat)
    requires provider.batchSize >= 1 && Deterministic(provider, f)
    ensures EmbeddedRows(chunks, provider, k).Some? ==> EmbeddedRows(chunks, provider, k).value == RowsBy(chunks, f)
  {
    if chunks != [] {
      var n := FirstBatch(|chunks|, provider.batchSize);
      PlainRowsBy(chunks[n..], provider, f, k + 1);
      BatchRowsBy(chunks[..n], provider, f, k);
      RowsByInTwo(chunks, n, f);
    }
  }

  lemma {:induction false} RowsByInTwo(chunks: seq<Chunk>, n: nat, f: string -> Vector)
    requires n <= |chunks|
    ensures RowsBy(chunks[..n], f) + RowsBy(chunks[n..], f) == RowsBy(chunks, f)
  {
  }

  ghost predicate Faithful(completed: Completed, chunks: seq<Chunk>, f: string -> Vector) {
    forall i ::
      0 <= i < |chunks| && chunks[i].chunkId in completed ==>
        completed[chunks[i].chunkId] == NumbersOf(f(chunks[i].text))
  }

  lemma {:induction false} RestoredPlausible(rows: seq<SavedRow>, job: Job, dimension: int)
    ensures RestoredRows(rows, job, dimension).Some? ==>
      Plausible(RestoredRows(rows, job, dimension).value, job.chunks, dimension)
  {
    if rows != [] && RestoredRows(rows, job, dimension).Some? {
      RestoredPlausible(rows[..|rows| - 1], job, dimension);
      ChunkByIdIsChunk(job.chunks, rows[|rows| - 1].chunkId);
    }
  }

  lemma {:induction false} ChunkByIdIsChunk(chunks: seq<Chunk>, id: string)
    ensures ChunkById(chunks, id).Some? ==> id in ChunkIds(chunks)
  {
    if chunks != [] {
      ChunkByIdIsChunk(chunks[..|chunks| - 1], id);
      if ChunkById(chunks[..|chunks| - 1], id).Some? {
        var i :| 0 <= i < |chunks| - 1 && chunks[..|chunks| - 1][i].chunkId == id;
        assert chunks[i].chunkId == id;
      }
    }
  }

  lemma {:induction false} NotedAt(completed: Completed, rows: seq<EmbeddedRow>, id: string)
    requires forall i, j :: 0 <= i < j < |rows| ==> rows[i].chunk.chunkId != rows[j].chunk.chunkId
    ensures forall i ::
      0 <= i < |rows| && rows[i].chunk.chunkId == id ==>
        id in Noted(completed, rows) && Noted(completed, rows)[id] == rows[i].embedding
    ensures (forall i :: 0 <= i < |rows| ==> rows[i].chunk.chunkId != id) ==>
      (id in Noted(completed, rows) <==> id in completed)
        && (id in completed ==> Noted(completed, rows)[id] == completed[id])
  {
    if rows != [] {
      var n := |rows| - 1;
      NotedAt(completed, rows[..n], id);
      assert rows == rows[..n] + [rows[n]];
    }
  }

  /** The rows a run embeds are for missing chunks, each once. */
  lemma {:induction false} MissingUnique(chunks: seq<Chunk>, completed: Completed)
    requires UniqueIds(chunks)
    ensures UniqueIds(Missing(chunks, completed))
  {
    if chunks != [] {
      var init, last := chunks[..|chunks| - 1], chunks[|chunks| - 1];
      MissingUnique(init, completed);
      MissingExact(init, completed);
      var early := Missing(init, completed);
      forall i | 0 <= i < |early| ensures early[i].chunkId != last.chunkId {
        assert early[i] in early;
        var k :| 0 <= k < |init| && init[k] == early[i];
        assert chunks[k].chunkId != chunks[|init|].chunkId;
      }
    }
  }

  lemma {:induction false} NotedFaithful(job: Job, f: string -> Vector, found: Completed, p: nat, i: nat)
    requires UniqueIds(job.chunks) && Faithful(found, job.chunks, f) && p <= |Missing(job.chunks, found)|
      && i < |job.chunks|
    ensures var noted := Noted(found, RowsBy(Missing(job.chunks, found)[..p], f));
      && (job.chunks[i].chunkId in noted ==> noted[job.chunks[i].chunkId] == NumbersOf(f(job.chunks[i].text)))
      && (job.chunks[i].chunkId in found ==> job.chunks[i].chunkId in noted)
  {
    var missing := Missing(job.chunks, found);
    var rows := RowsBy(missing[..p], f);
    MissingUnique(job.chunks, found);
    MissingExact(job.chunks, found);
    NotedAt(found, rows, job.chunks[i].chunkId);
    forall q | 0 <= q < |rows| && rows[q].chunk.chunkId == job.chunks[i].chunkId
      ensures rows[q].chunk == job.chunks[i]
    {
      assert missing[q] in missing;
      var k :| 0 <= k < |job.chunks| && job.chunks[k] == missing[q];
      assert k == i;
    }
  }

  lemma {:induction false} NotedPlausible(job: Job, provider: EmbeddingProvider, found: Completed, p: nat,
                                          embedded: seq<EmbeddedRow>)
    requires provider.batchSize >= 1 && Plausible(found, job.chunks, provider.dimension)
      && p <= |Missing(job.chunks, found)|
    requires EmbeddedRows(Missing(job.chunks, found)[..p], provider, 0) == Some(embedded)
    ensures Plausible(Noted(found, embedded), job.chunks, provider.dimension)
  {
    var missing := Missing(job.chunks, found);
    EmbeddedRowsFollowChunks(missing[..p], provider, 0);
    MissingExact(job.chunks, found);
    forall q | 0 <= q < |embedded| ensures embedded[q].chunk.chunkId in ChunkIds(job.chunks) {
      assert missing[q] in missing;
      var k :| 0 <= k < |job.chunks| && job.chunks[k] == missing[q];
      assert job.chunks[k].chunkId in ChunkIds(job.chunks);
    }
    NotingPlausible(found, embedded, job.chunks, provider.dimension);
  }

  lemma {:induction false} NotingPlausible(completed: Completed, rows: seq<EmbeddedRow>, chunks: seq<Chunk>,
                                           dimension: int)
    requires Plausible(completed, chunks, dimension)
    requires forall q ::
      0 <= q < |rows| ==> rows[q].chunk.chunkId in ChunkIds(chunks) && |rows[q].embedding| == dimension
    ensures Plausible(Noted(completed, rows), chunks, dimension)
  {
    if rows != [] { NotingPlausible(completed, rows[..|rows| - 1], chunks, dimension); }
  }

  lemma {:induction false} RestoredFilePlausible(file: CheckpointFile, job: Job, dimension: int)
    ensures Restored(file, job, dimension).Some? ==>
      Plausible(Restored(file, job, dimension).value, job.chunks, dimension)
  {
    if file.Saved? { RestoredPlausible(file.rows, job, dimension); }
  }

  /** After any run, however it ended and whatever the provider answered, the next run can reuse the
      checkpoint and finds exactly what was completed: nothing is lost. */
  lemma {:induction false} RunResumable(job: Job, provider: EmbeddingProvider, found: Completed, p: nat,
                                        embedded: seq<EmbeddedRow>, before: CheckpointFile, after: CheckpointFile)
    requires provider.batchSize >= 1 && UniqueIds(job.chunks)
    requires Restored(before, job, provider.dimension) == Some(found)
    requires Stands(job, provider, found, p, embedded, before, after)
    ensures Restored(after, job, provider.dimension) == Some(Noted(found, embedded))
    ensures found.Keys <= Noted(found, embedded).Keys
  {
    RestoredFilePlausible(before, job, provider.dimension);
    NotedPlausible(job, provider, found, p, embedded);
    NotedKeys(found, embedded);
    if p > 0 {
      RestoredOfWritten(job, provider.dimension, Noted(found, embedded));
    } else {
      assert Missing(job.chunks, found)[..0] == [];
    }
  }

  /** With a provider that gives a text the same vector in every call, vectors stay those of the texts. */
  lemma {:induction false} RunFaithful(job: Job, provider: EmbeddingProvider, f: string -> Vector, found: Completed,
                                       p: nat, embedded: seq<EmbeddedRow>, before: CheckpointFile,
                                       after: CheckpointFile)
    requires provider.batchSize >= 1 && UniqueIds(job.chunks) && Deterministic(provider, f)
    requires Faithful(found, job.chunks, f) && Stands(job, provider, found, p, embedded, before, after)
    ensures Faithful(Noted(found, embedded), job.chunks, f)
  {
    PlainRowsBy(Missing(job.chunks, found)[..p], provider, f, 0);
    forall i | 0 <= i < |job.chunks| && job.chunks[i].chunkId in Noted(found, embedded)
      ensures Noted(found, embedded)[job.chunks[i].chunkId] == NumbersOf(f(job.chunks[i].text))
    {
      NotedFaithful(job, f, found, p, i);
    }
  }

  datatype Run =
    Run(provider: EmbeddingProvider, found: Completed, p: nat, embedded: seq<EmbeddedRow>, after: CheckpointFile)

  /** Runs one after the other, each stopped anywhere, with any batch sizes. */
  ghost predicate Runs(job: Job, dimension: int, f: string -> Vector, before: CheckpointFile, runs: seq<Run>)
    decreases |runs|
  {
    runs != [] ==>
      var run := runs[0];
      && run.provider.batchSize >= 1 && run.provider.dimension == dimension && Deterministic(run.provider, f)
      && Restored(before, job, dimension) == Some(run.found)
      && Stands(job, run.provider, run.found, run.p, run.embedded, before, run.after)
      && Runs(job, dimension, f, run.after, runs[1..])
  }

  lemma {:induction false} LastRunFaithful(job: Job, dimension: int, f: string -> Vector, before: CheckpointFile,
                                           runs: seq<Run>)
    requires UniqueIds(job.chunks) && runs != [] && Runs(job, dimension, f, before, runs)
    requires Restored(before, job, dimension).Some? && Faithful(Restored(before, job, dimension).value, job.chunks, f)
    ensures var last := runs[|runs| - 1];
      && Restored(last.after, job, dimension) == Some(Noted(last.found, last.embedded))
      && Faithful(Noted(last.found, last.embedded), job.chunks, f)
      && Restored(before, job, dimension).value.Keys <= Noted(last.found, last.embedded).Keys
    decreases |runs|
  {
    var run := runs[0];
    RunResumable(job, run.provider, run.found, run.p, run.embedded, before, run.after);
    RunFaithful(job, run.provider, f, run.found, run.p, run.embedded, before, run.after);
    if |runs| > 1 {
      LastRunFaithful(job, dimension, f, run.after, runs[1..]);
    }
  }

  /** Any number of interrupted runs and a last one that delivers, started without a checkpoint, give the
      rows of one uninterrupted run without checkpoint. */
  lemma {:induction false} ResumedIsPlain(job: Job, f: string -> Vector, runs: seq<Run>, rows: seq<EmbeddedRow>,
                                          plain: EmbeddingProvider)
    requires UniqueIds(job.chunks) && runs != [] && Runs(job, plain.dimension, f, Absent, runs)
    requires var last := runs[|runs| - 1]; Delivers(job, last.found, last.p, last.embedded, rows)
    requires plain.batchSize >= 1 && Deterministic(plain, f) && EmbeddedRows(job.chunks, plain, 0).Some?
    ensures rows == EmbeddedRows(job.chunks, plain, 0).value
  {
    LastRunFaithful(job, plain.dimension, f, Absent, runs);
    PlainRowsBy(job.chunks, plain, f, 0);
    assert rows == RowsBy(job.chunks, f);
  }
}
