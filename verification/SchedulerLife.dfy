/** The life of a task's chunks: made, handed out, completed. */
module SchedulerLife {
  import opened Scheduler
  import opened SchedulerProofs
  import opened SchedulerTables

  // ------------------------------------------------------------------- making

  /** The names of the first `n` chunks of a task, in order. */
  function ChunkIds(task: string, n: nat): (ids: seq<string>)
    ensures |ids| == n
  {
    seq(n, i requires 0 <= i < n => ChunkId(task, i))
  }

  lemma {:induction false} AvailableConcat(a: seq<Chunk>, b: seq<Chunk>)
    ensures AvailableIds(a + b) == AvailableIds(a) + AvailableIds(b)
    decreases |a|
  {
    if a == [] {
      assert a + b == b;
    } else {
      AvailableConcat(a[1..], b);
      assert (a + b)[1..] == a[1..] + b;
    }
  }

  /** A new chunk is nobody's and not completed. */
  predicate Untouched(c: Chunk, task: string, i: nat) {
    c.id == ChunkId(task, i) && c.task == task && c.employee == "" && !c.completed
  }

  lemma PieceUntouched(task: string, fileSize: nat, chunkSize: nat, n: nat, i: nat)
    requires 0 < chunkSize < SIZE_LIMIT && fileSize < SIZE_LIMIT / 2
    requires i < n <= TotalChunks(fileSize, chunkSize)
    ensures Untouched(Pieces(task, fileSize, chunkSize, n)[i], task, i)
  {
    PieceAt(task, fileSize, chunkSize, n, i);
  }

  lemma PiecesGrow(task: string, fileSize: nat, chunkSize: nat, n: nat)
    requires 0 < chunkSize < SIZE_LIMIT && fileSize < SIZE_LIMIT / 2
    requires 0 < n <= TotalChunks(fileSize, chunkSize)
    ensures var made := Pieces(task, fileSize, chunkSize, n);
      made == Pieces(task, fileSize, chunkSize, n - 1) + [made[n - 1]]
  {
  }

  lemma {:induction false} PiecesAvailable(task: string, fileSize: nat, chunkSize: nat, n: nat)
    requires 0 < chunkSize < SIZE_LIMIT && fileSize < SIZE_LIMIT / 2
    requires n == 0 || n <= TotalChunks(fileSize, chunkSize)
    ensures AvailableIds(Pieces(task, fileSize, chunkSize, n)) == ChunkIds(task, n)
    decreases n
  {
    hide TotalChunks;
    hide ChunkId;
    hide Pieces;
    if n > 0 {
      var last := Pieces(task, fileSize, chunkSize, n)[n - 1];
      PiecesGrow(task, fileSize, chunkSize, n);
      PieceUntouched(task, fileSize, chunkSize, n, n - 1);
      PiecesAvailable(task, fileSize, chunkSize, n - 1);
      AvailableConcat(Pieces(task, fileSize, chunkSize, n - 1), [last]);
      assert [last][1..] == [];
      assert AvailableIds([last]) == [ChunkId(task, n - 1)];
      assert ChunkIds(task, n) == ChunkIds(task, n - 1) + [ChunkId(task, n - 1)];
    } else {
      assert Pieces(task, fileSize, chunkSize, 0) == [];
    }
  }

  /** Every new chunk waits to be handed out, behind those that already did. */
  lemma NewChunksAvailable(chunks: seq<Chunk>, task: string, fileSize: nat, chunkSize: nat, n: nat)
    requires 0 < chunkSize < SIZE_LIMIT && fileSize < SIZE_LIMIT / 2
    requires n == 0 || n <= TotalChunks(fileSize, chunkSize)
    ensures AvailableIds(chunks + Pieces(task, fileSize, chunkSize, n)) == AvailableIds(chunks) + ChunkIds(task, n)
  {
    AvailableConcat(chunks, Pieces(task, fileSize, chunkSize, n));
    PiecesAvailable(task, fileSize, chunkSize, n);
  }

  /** Chunking a task for the first time and then handing out, long enough, gives
      away what was available before and then the pieces of the file, once each
      and in order; after that there is nothing left. */
  lemma FileHandedOut(tasks: seq<Task>, chunks: seq<Chunk>, k: nat, fileSize: nat, chunkSize: nat, n: nat,
                      to: nat -> string, rounds: nat)
    requires Consistent(tasks, chunks) && k < |tasks| && !tasks[k].chunked
    requires 0 < chunkSize < SIZE_LIMIT && fileSize < SIZE_LIMIT / 2
    requires n == 0 || n <= TotalChunks(fileSize, chunkSize)
    requires forall j :: to(j) != ""
    requires rounds >= |AvailableIds(chunks)| + n
    ensures var all := chunks + Pieces(tasks[k].id, fileSize, chunkSize, n);
      && HandOut(all, to, rounds).0 == AvailableIds(chunks) + ChunkIds(tasks[k].id, n)
      && FindAvailable(HandOut(all, to, rounds).1) == |all|
  {
    var all := chunks + Pieces(tasks[k].id, fileSize, chunkSize, n);
    CreateConsistentExactly(tasks, chunks, k, fileSize, chunkSize, n);
    NewChunksAvailable(chunks, tasks[k].id, fileSize, chunkSize, n);
    HandsOutEachOnce(all, to, rounds);
    HandOutSize(all, to, rounds);
  }

  lemma {:induction false} HandOutSize(chunks: seq<Chunk>, to: nat -> string, rounds: nat)
    ensures |HandOut(chunks, to, rounds).1| == |chunks|
    decreases rounds
  {
    var i := FindAvailable(chunks);
    if rounds > 0 && i < |chunks| {
      HandOutSize(Assigned(chunks, chunks[i].id, to(rounds), 0), to, rounds - 1);
    }
  }

  // ----------------------------------------------------------------- counting

  lemma {:induction false} CountsConcat(a: seq<Chunk>, b: seq<Chunk>, task: string)
    ensures ChunksOf(a + b, task) == ChunksOf(a, task) + ChunksOf(b, task)
    ensures CompletedOf(a + b, task) == CompletedOf(a, task) + CompletedOf(b, task)
    decreases |b|
  {
    if b == [] {
      assert a + b == a;
    } else {
      CountsConcat(a, b[..|b| - 1], task);
      assert (a + b)[..|a + b| - 1] == a + b[..|b| - 1];
    }
  }

  lemma {:induction false} PiecesCounted(task: string, fileSize: nat, chunkSize: nat, n: nat, other: string)
    requires 0 < chunkSize < SIZE_LIMIT && fileSize < SIZE_LIMIT / 2
    requires n == 0 || n <= TotalChunks(fileSize, chunkSize)
    ensures ChunksOf(Pieces(task, fileSize, chunkSize, n), other) == if other == task then n else 0
    ensures CompletedOf(Pieces(task, fileSize, chunkSize, n), other) == 0
    decreases n
  {
    hide TotalChunks;
    hide Pieces;
    var made := Pieces(task, fileSize, chunkSize, n);
    if n > 0 {
      PiecesCounted(task, fileSize, chunkSize, n - 1, other);
      PiecesGrow(task, fileSize, chunkSize, n);
      PieceUntouched(task, fileSize, chunkSize, n, n - 1);
      assert made[..n - 1] == Pieces(task, fileSize, chunkSize, n - 1);
    } else {
      assert made == [];
    }
  }

  /** New chunks are counted, and not as completed, so their task becomes pending. */
  lemma NewChunksPending(chunks: seq<Chunk>, task: string, fileSize: nat, chunkSize: nat, n: nat, other: string)
    requires 0 < chunkSize < SIZE_LIMIT && fileSize < SIZE_LIMIT / 2
    requires n == 0 || n <= TotalChunks(fileSize, chunkSize)
    ensures var all := chunks + Pieces(task, fileSize, chunkSize, n);
      && ChunksOf(all, other) == ChunksOf(chunks, other) + (if other == task then n else 0)
      && CompletedOf(all, other) == CompletedOf(chunks, other)
      && (n > 0 ==> HasIncomplete(all, task))
  {
    var all := chunks + Pieces(task, fileSize, chunkSize, n);
    CountsConcat(chunks, Pieces(task, fileSize, chunkSize, n), other);
    PiecesCounted(task, fileSize, chunkSize, n, other);
    if n > 0 {
      PieceUntouched(task, fileSize, chunkSize, n, 0);
      assert all[|chunks|] == Pieces(task, fileSize, chunkSize, n)[0];
    }
  }

  // --------------------------------------------------------------- completing

  lemma {:induction false} CountsUpdate(chunks: seq<Chunk>, i: nat, c: Chunk, task: string)
    requires i < |chunks| && c.task == chunks[i].task && (chunks[i].completed ==> c.completed)
    ensures ChunksOf(chunks[i := c], task) == ChunksOf(chunks, task)
    ensures CompletedOf(chunks[i := c], task)
            == CompletedOf(chunks, task) + if c.task == task && c.completed && !chunks[i].completed then 1 else 0
    decreases |chunks|
  {
    var n := |chunks| - 1;
    if i == n {
      assert chunks[i := c][..n] == chunks[..n];
    } else {
      CountsUpdate(chunks[..n], i, c, task);
      assert chunks[i := c][..n] == chunks[..n][i := c];
    }
  }

  /** Marking a chunk raises its task's completed count by one exactly if the
      chunk was incomplete, and touches no other number. */
  lemma MarkCounts(chunks: seq<Chunk>, id: string, task: string)
    ensures ChunksOf(Completed(chunks, id), task) == ChunksOf(chunks, task)
    ensures var i := FindChunk(chunks, id);
      CompletedOf(Completed(chunks, id), task)
      == CompletedOf(chunks, task)
         + if i < |chunks| && chunks[i].task == task && !chunks[i].completed then 1 else 0
  {
    var i := FindChunk(chunks, id);
    if i < |chunks| {
      CountsUpdate(chunks, i, chunks[i].(completed := true), task);
    }
  }

  /** `mark_chunk_completed` for one name after another. */
  function MarkAll(chunks: seq<Chunk>, ids: seq<string>): seq<Chunk>
    decreases |ids|
  {
    if ids == [] then chunks else MarkAll(Completed(chunks, ids[0]), ids[1..])
  }

  lemma {:induction false} MarkAllAt(chunks: seq<Chunk>, ids: seq<string>, k: nat)
    requires DistinctChunks(chunks) && k < |chunks|
    ensures |MarkAll(chunks, ids)| == |chunks|
    ensures MarkAll(chunks, ids)[k] == chunks[k].(completed := chunks[k].completed || chunks[k].id in ids)
    decreases |ids|
  {
    if ids != [] {
      var marked := Completed(chunks, ids[0]);
      assert marked[k] == chunks[k].(completed := chunks[k].completed || chunks[k].id == ids[0]);
      MarkAllAt(marked, ids[1..], k);
      assert chunks[k].id in ids <==> chunks[k].id == ids[0] || chunks[k].id in ids[1..];
    }
  }

  /** An incomplete chunk of the task is not among those named. */
  ghost predicate SomeLeft(chunks: seq<Chunk>, task: string, ids: seq<string>) {
    exists k :: 0 <= k < |chunks| && chunks[k].task == task && !chunks[k].completed && chunks[k].id !in ids
  }

  /** The first `n` chunks of the task are all named. */
  ghost predicate AllNamed(task: string, n: nat, ids: seq<string>) {
    forall i :: 0 <= i < n ==> ChunkId(task, i) in ids
  }

  /** However the names come in, a task is left with something to do exactly when
      one of its incomplete chunks has not been named. */
  lemma IncompleteExactly(chunks: seq<Chunk>, ids: seq<string>, task: string)
    requires DistinctChunks(chunks)
    ensures HasIncomplete(MarkAll(chunks, ids), task) <==> SomeLeft(chunks, task, ids)
  {
    var marked := MarkAll(chunks, ids);
    if chunks == [] {
      MarkNothing(ids);
    }
    forall k | 0 <= k < |chunks|
      ensures |marked| == |chunks|
      ensures marked[k] == chunks[k].(completed := chunks[k].completed || chunks[k].id in ids)
    {
      MarkAllAt(chunks, ids, k);
    }
    assert |marked| == |chunks| by {
      if chunks != [] { MarkAllAt(chunks, ids, 0); }
    }
    if k :| 0 <= k < |chunks| && chunks[k].task == task && !chunks[k].completed && chunks[k].id !in ids {
      assert marked[k].task == task && !marked[k].completed;
    }
  }

  lemma {:induction false} MarkNothing(ids: seq<string>)
    ensures MarkAll([], ids) == []
    decreases |ids|
  {
    if ids != [] { MarkNothing(ids[1..]); }
  }

  lemma {:induction false} PendingExactly(tasks: seq<Task>, chunks: seq<Chunk>, t: Task)
    ensures t in PendingTasks(tasks, chunks) <==> t in tasks && (!t.chunked || HasIncomplete(chunks, t.id))
    decreases |tasks|
  {
    if tasks != [] {
      var n := |tasks| - 1;
      PendingExactly(tasks[..n], chunks, t);
      assert tasks == tasks[..n] + [tasks[n]];
    }
  }

  /** A task chunked for the first time, in whole or in part, is pending until the
      last of its chunks has been marked, in any order; then both numbers of its
      status are the number of chunks made. */
  lemma PendingUntilAllMarked(tasks: seq<Task>, chunks: seq<Chunk>, k: nat, fileSize: nat, chunkSize: nat,
                              n: nat, ids: seq<string>)
    requires Consistent(tasks, chunks) && k < |tasks| && !tasks[k].chunked
    requires 0 < chunkSize < SIZE_LIMIT && fileSize < SIZE_LIMIT / 2
    requires n == 0 || n <= TotalChunks(fileSize, chunkSize)
    ensures var task := tasks[k].(chunked := true);
      var marked := MarkAll(chunks + Pieces(task.id, fileSize, chunkSize, n), ids);
      && ChunksOf(marked, task.id) == n
      && (CompletedOf(marked, task.id) == n <==> AllNamed(task.id, n, ids))
      && (task in PendingTasks(tasks[k := task], marked) <==> CompletedOf(marked, task.id) != n)
  {
    var task := tasks[k].(chunked := true);
    var made := Pieces(task.id, fileSize, chunkSize, n);
    var all := chunks + made;
    var marked := MarkAll(all, ids);
    CreateConsistentExactly(tasks, chunks, k, fileSize, chunkSize, n);
    NoChunksYet(tasks, chunks, k);
    NewChunksPending(chunks, task.id, fileSize, chunkSize, n, task.id);
    MarkAllCounts(all, ids, task.id);
    StatusDecidesPending(marked, task.id);
    IncompleteExactly(all, ids, task.id);
    PiecesNamed(task.id, fileSize, chunkSize, n);
    NewOnesLeft(tasks, chunks, k, fileSize, chunkSize, n, ids);
    PendingExactly(tasks[k := task], marked, task);
    assert tasks[k := task][k] == task;
  }

  lemma {:induction false} MarkAllCounts(chunks: seq<Chunk>, ids: seq<string>, task: string)
    ensures ChunksOf(MarkAll(chunks, ids), task) == ChunksOf(chunks, task)
    decreases |ids|
  {
    if ids != [] {
      MarkCounts(chunks, ids[0], task);
      MarkAllCounts(Completed(chunks, ids[0]), ids[1..], task);
    }
  }

  /** In consistent tables only a task that is marked as chunked has chunks. */
  lemma NoChunksYet(tasks: seq<Task>, chunks: seq<Chunk>, k: nat)
    requires Consistent(tasks, chunks) && k < |tasks| && !tasks[k].chunked
    ensures forall i :: 0 <= i < |chunks| ==> chunks[i].task != tasks[k].id
    ensures ChunksOf(chunks, tasks[k].id) == 0
  {
    forall i | 0 <= i < |chunks| ensures chunks[i].task != tasks[k].id {
      assert Owned(tasks, chunks[i]);
    }
    CountsNothing(chunks, tasks[k].id);
  }

  lemma {:induction false} CountsNothing(chunks: seq<Chunk>, task: string)
    requires forall i :: 0 <= i < |chunks| ==> chunks[i].task != task
    ensures ChunksOf(chunks, task) == 0
    decreases |chunks|
  {
    if chunks != [] { CountsNothing(chunks[..|chunks| - 1], task); }
  }

  /** What is left of the task are those of its new chunks that were not named. */
  lemma NewOnesLeft(tasks: seq<Task>, chunks: seq<Chunk>, k: nat, fileSize: nat, chunkSize: nat,
                    n: nat, ids: seq<string>)
    requires Consistent(tasks, chunks) && k < |tasks| && !tasks[k].chunked
    requires 0 < chunkSize < SIZE_LIMIT && fileSize < SIZE_LIMIT / 2
    requires n == 0 || n <= TotalChunks(fileSize, chunkSize)
    ensures var all := chunks + Pieces(tasks[k].id, fileSize, chunkSize, n);
      SomeLeft(all, tasks[k].id, ids) <==> !AllNamed(tasks[k].id, n, ids)
  {
    hide ChunkId;
    hide TotalChunks;
    hide Pieces;
    hide Consistent;
    hide SomeLeft;
    hide AllNamed;
    var task := tasks[k].id;
    var made := Pieces(task, fileSize, chunkSize, n);
    NoChunksYet(tasks, chunks, k);
    forall i | 0 <= i < n ensures Untouched(made[i], task, i) {
      PieceUntouched(task, fileSize, chunkSize, n, i);
    }
    LeftAmong(chunks, made, task, ids);
  }

  /** Of chunks that are all untouched, those left are the ones not named. */
  lemma LeftAmong(chunks: seq<Chunk>, made: seq<Chunk>, task: string, ids: seq<string>)
    requires forall i :: 0 <= i < |chunks| ==> chunks[i].task != task
    requires forall i :: 0 <= i < |made| ==> Untouched(made[i], task, i)
    ensures SomeLeft(chunks + made, task, ids) <==> !AllNamed(task, |made|, ids)
  {
    var all := chunks + made;
    if j :| 0 <= j < |all| && all[j].task == task && !all[j].completed && all[j].id !in ids {
      assert j >= |chunks|;
      var i := j - |chunks|;
      assert all[j] == made[i];
      assert Untouched(made[i], task, i);
      assert ChunkId(task, i) !in ids;
    } else {
      forall i | 0 <= i < |made| ensures ChunkId(task, i) in ids {
        var j := |chunks| + i;
        assert all[j] == made[i];
        assert Untouched(made[i], task, i);
        assert all[j].task == task && !all[j].completed;
      }
    }
  }
}
