/** What every scheduler operation keeps, and how chunks are handed out. */
module SchedulerProofs {
  import opened Scheduler

  // ------------------------------------------------------- adding and removing

  lemma OwnedStays(tasks: seq<Task>, tasks': seq<Task>, c: Chunk)
    requires Owned(tasks, c)
    requires forall k :: 0 <= k < |tasks| && tasks[k].id == c.task ==> tasks[k] in tasks'
    ensures Owned(tasks', c)
  {
    var k :| 0 <= k < |tasks| && tasks[k].id == c.task && tasks[k].chunked;
    assert tasks[k] in tasks';
  }

  lemma AddKeepsConsistent(tasks: seq<Task>, chunks: seq<Chunk>, t: Task)
    requires Consistent(tasks, chunks) && FindTask(tasks, t.id) == |tasks|
    ensures Consistent(tasks + [t], chunks)
  {
    forall i | 0 <= i < |chunks| ensures Owned(tasks + [t], chunks[i]) {
      OwnedStays(tasks, tasks + [t], chunks[i]);
    }
  }

  lemma {:induction false} OthersFilterIn(chunks: seq<Chunk>, n: nat, task: string)
    requires n <= |chunks|
    ensures forall c :: c in OthersIn(chunks, n, task) <==> c in chunks[..n] && c.task != task
    ensures DistinctChunks(chunks) ==> DistinctChunks(OthersIn(chunks, n, task))
    decreases n
  {
    if n > 0 {
      OthersFilterIn(chunks, n - 1, task);
      assert chunks[..n] == chunks[..n - 1] + [chunks[n - 1]];
      if DistinctChunks(chunks) {
        assert forall c :: c in chunks[..n - 1] ==> c.id != chunks[n - 1].id;
      }
    }
  }

  lemma OthersFilter(chunks: seq<Chunk>, task: string)
    ensures forall c :: c in Others(chunks, task) <==> c in chunks && c.task != task
    ensures DistinctChunks(chunks) ==> DistinctChunks(Others(chunks, task))
  {
    OthersFilterIn(chunks, |chunks|, task);
    assert chunks[..|chunks|] == chunks;
  }

  /** With distinct task ids, taking out the first match is filtering. */
  lemma {:induction false} WithoutTaskIsFilter(tasks: seq<Task>, i: nat)
    requires DistinctTasks(tasks) && i < |tasks|
    ensures WithoutTask(tasks, i) == OtherTasks(tasks, tasks[i].id)
    decreases |tasks|
  {
    var n := |tasks| - 1;
    if i == n {
      NoMatch(tasks[..n], tasks[i].id);
    } else {
      WithoutTaskIsFilter(tasks[..n], i);
      assert WithoutTask(tasks, i) == WithoutTask(tasks[..n], i) + [tasks[n]];
    }
  }

  lemma {:induction false} NoMatch(tasks: seq<Task>, id: string)
    requires forall k :: 0 <= k < |tasks| ==> tasks[k].id != id
    ensures OtherTasks(tasks, id) == tasks
    decreases |tasks|
  {
    if tasks != [] { NoMatch(tasks[..|tasks| - 1], id); }
  }

  lemma OwnedWithout(tasks: seq<Task>, i: nat, c: Chunk)
    requires Owned(tasks, c) && i < |tasks| && c.task != tasks[i].id
    ensures Owned(WithoutTask(tasks, i), c)
  {
    var tasks' := WithoutTask(tasks, i);
    var m :| 0 <= m < |tasks| && tasks[m].id == c.task && tasks[m].chunked;
    assert tasks'[if m < i then m else m - 1] == tasks[m];
  }

  lemma DistinctWithout(tasks: seq<Task>, i: nat)
    requires DistinctTasks(tasks) && i < |tasks|
    ensures DistinctTasks(WithoutTask(tasks, i))
  {
    var tasks' := WithoutTask(tasks, i);
    assert forall k :: 0 <= k < |tasks'| ==> tasks'[k] == tasks[if k < i then k else k + 1];
  }

  /** Removing a task takes out its chunks and nothing else, and leaves no orphans. */
  lemma RemoveKeepsConsistent(tasks: seq<Task>, chunks: seq<Chunk>, i: nat)
    requires Consistent(tasks, chunks) && i < |tasks|
    ensures Consistent(WithoutTask(tasks, i), Others(chunks, tasks[i].id))
    ensures WithoutTask(tasks, i) == OtherTasks(tasks, tasks[i].id)
  {
    var chunks' := Others(chunks, tasks[i].id);
    OthersFilter(chunks, tasks[i].id);
    WithoutTaskIsFilter(tasks, i);
    DistinctWithout(tasks, i);
    forall k | 0 <= k < |chunks'| ensures Owned(WithoutTask(tasks, i), chunks'[k]) {
      assert chunks'[k] in chunks';
      OwnedWithout(tasks, i, chunks'[k]);
    }
  }

  // ------------------------------------------------------ changing one chunk

  lemma UpdateKeepsConsistent(tasks: seq<Task>, chunks: seq<Chunk>, i: nat, c: Chunk)
    requires Consistent(tasks, chunks) && i < |chunks|
    requires c.id == chunks[i].id && c.task == chunks[i].task && c.index == chunks[i].index
    ensures Consistent(tasks, chunks[i := c])
  {
    assert Owned(tasks, chunks[i]);
  }

  lemma AssignKeepsConsistent(tasks: seq<Task>, chunks: seq<Chunk>, id: string, employee: string, now: int)
    requires Consistent(tasks, chunks)
    ensures Consistent(tasks, Assigned(chunks, id, employee, now))
  {
    var i := FindChunk(chunks, id);
    if i < |chunks| { UpdateKeepsConsistent(tasks, chunks, i, Assigned(chunks, id, employee, now)[i]); }
  }

  lemma CompleteKeepsConsistent(tasks: seq<Task>, chunks: seq<Chunk>, id: string)
    requires Consistent(tasks, chunks)
    ensures Consistent(tasks, Completed(chunks, id))
  {
    var i := FindChunk(chunks, id);
    if i < |chunks| { UpdateKeepsConsistent(tasks, chunks, i, Completed(chunks, id)[i]); }
  }

  // -------------------------------------------------------------- new chunks

  predicate NameTaken(chunks: seq<Chunk>, task: string, n: nat) {
    exists k :: 0 <= k < |chunks| && chunks[k].task == task && chunks[k].index < n
  }

  /** Chunking keeps the tables consistent if and only if the task has no chunk
      yet with an index that is made again; a task chunked once has none. */
  lemma CreateConsistentExactly(tasks: seq<Task>, chunks: seq<Chunk>, k: nat,
                                fileSize: nat, chunkSize: nat, n: nat)
    requires Consistent(tasks, chunks) && k < |tasks|
    requires 0 < chunkSize < SIZE_LIMIT && fileSize < SIZE_LIMIT / 2
    requires n == 0 || n <= TotalChunks(fileSize, chunkSize)
    ensures var made := Pieces(tasks[k].id, fileSize, chunkSize, n);
      Consistent(tasks[k := tasks[k].(chunked := true)], chunks + made) <==> !NameTaken(chunks, tasks[k].id, n)
    ensures !tasks[k].chunked ==> !NameTaken(chunks, tasks[k].id, n)
  {
    var task := tasks[k].id;
    var tasks' := tasks[k := tasks[k].(chunked := true)];
    var made := Pieces(task, fileSize, chunkSize, n);
    PiecesNamed(task, fileSize, chunkSize, n);
    AllOwned(tasks, chunks, k, made);
    if NameTaken(chunks, task, n) {
      ClashingName(tasks, chunks, k, made);
    } else {
      hide Pieces;
      hide ChunkId;
      hide NameTaken;
      forall i, j | 0 <= i < j < |chunks + made| ensures (chunks + made)[i].id != (chunks + made)[j].id {
        if j >= |chunks| {
          NamesDiffer(tasks, chunks, task, n, made, i, j);
        }
      }
    }
  }

  predicate NamedFor(task: string, made: seq<Chunk>) {
    forall i :: 0 <= i < |made| ==> made[i].id == ChunkId(task, i) && made[i].task == task && made[i].index == i
  }

  lemma PiecesNamed(task: string, fileSize: nat, chunkSize: nat, n: nat)
    requires 0 < chunkSize < SIZE_LIMIT && fileSize < SIZE_LIMIT / 2
    requires n == 0 || n <= TotalChunks(fileSize, chunkSize)
    ensures NamedFor(task, Pieces(task, fileSize, chunkSize, n))
  {
    forall i | 0 <= i < n
      ensures Pieces(task, fileSize, chunkSize, n)[i].id == ChunkId(task, i)
              && Pieces(task, fileSize, chunkSize, n)[i].task == task
              && Pieces(task, fileSize, chunkSize, n)[i].index == i
    {
      PieceAt(task, fileSize, chunkSize, n, i);
    }
  }

  lemma AllOwned(tasks: seq<Task>, chunks: seq<Chunk>, k: nat, made: seq<Chunk>)
    requires Consistent(tasks, chunks) && k < |tasks| && NamedFor(tasks[k].id, made)
    ensures var tasks' := tasks[k := tasks[k].(chunked := true)];
      DistinctTasks(tasks')
      && forall i :: 0 <= i < |chunks + made| ==> Owned(tasks', (chunks + made)[i])
  {
    var tasks', all := tasks[k := tasks[k].(chunked := true)], chunks + made;
    forall i | 0 <= i < |all| ensures Owned(tasks', all[i]) {
      if i < |chunks| {
        StillOwned(tasks, k, chunks[i]);
      } else {
        assert all[i] == made[i - |chunks|];
        assert tasks'[k].id == tasks[k].id && tasks'[k].chunked;
      }
    }
  }

  /** An index made twice is a name given twice, to a task chunked before. */
  lemma ClashingName(tasks: seq<Task>, chunks: seq<Chunk>, k: nat, made: seq<Chunk>)
    requires Consistent(tasks, chunks) && k < |tasks| && NamedFor(tasks[k].id, made)
    requires NameTaken(chunks, tasks[k].id, |made|)
    ensures !DistinctChunks(chunks + made) && tasks[k].chunked
  {
    var i :| 0 <= i < |chunks| && chunks[i].task == tasks[k].id && chunks[i].index < |made|;
    assert Owned(tasks, chunks[i]);
    assert (chunks + made)[|chunks| + chunks[i].index].id == (chunks + made)[i].id;
    var m :| 0 <= m < |tasks| && tasks[m].id == chunks[i].task && tasks[m].chunked;
    assert m == k;
  }

  lemma StillOwned(tasks: seq<Task>, k: nat, c: Chunk)
    requires Owned(tasks, c) && k < |tasks|
    ensures Owned(tasks[k := tasks[k].(chunked := true)], c)
  {
    var tasks' := tasks[k := tasks[k].(chunked := true)];
    var m :| 0 <= m < |tasks| && tasks[m].id == c.task && tasks[m].chunked;
    assert tasks'[m].id == c.task && tasks'[m].chunked;
  }

  lemma NamesDiffer(tasks: seq<Task>, chunks: seq<Chunk>, task: string, n: nat, made: seq<Chunk>, i: nat, j: nat)
    requires Consistent(tasks, chunks) && !NameTaken(chunks, task, n) && |made| == n
    requires forall k :: 0 <= k < n ==> made[k].id == ChunkId(task, k)
    requires i < j < |chunks| + n && |chunks| <= j
    ensures (chunks + made)[i].id != (chunks + made)[j].id
  {
    var x := j - |chunks|;
    if i < |chunks| {
      assert Owned(tasks, chunks[i]);
      if chunks[i].id == made[x].id {
        ChunkIdInjective(chunks[i].task, chunks[i].index, task, x);
        assert false;
      }
    } else if made[i - |chunks|].id == made[x].id {
      ChunkIdInjective(task, i - |chunks|, task, x);
      assert false;
    }
  }

  // --------------------------------------------------------------- hand-out

  function AvailableIds(chunks: seq<Chunk>): seq<string> {
    if chunks == [] then []
    else (if Available(chunks[0]) then [chunks[0].id] else []) + AvailableIds(chunks[1..])
  }

  /** `get_next_chunk` and `assign_chunk` in turn, at most `rounds` times, giving
      the chunks to the employees named by `to`. */
  function HandOut(chunks: seq<Chunk>, to: nat -> string, rounds: nat): (seq<string>, seq<Chunk>)
    decreases rounds
  {
    var i := FindAvailable(chunks);
    if rounds == 0 || i == |chunks| then ([], chunks)
    else
      var (ids, end) := HandOut(Assigned(chunks, chunks[i].id, to(rounds), 0), to, rounds - 1);
      ([chunks[i].id] + ids, end)
  }

  lemma {:induction false} FirstAvailable(chunks: seq<Chunk>, from: nat)
    requires from <= |chunks|
    ensures FindAvailable(chunks, from) == |chunks| <==> AvailableIds(chunks[from..]) == []
    ensures FindAvailable(chunks, from) < |chunks| ==>
      var i := FindAvailable(chunks, from);
      AvailableIds(chunks[from..]) == [chunks[i].id] + AvailableIds(chunks[i + 1..])
    decreases |chunks| - from
  {
    if from < |chunks| {
      assert chunks[from..][1..] == chunks[from + 1..];
      if !Available(chunks[from]) { FirstAvailable(chunks, from + 1); }
    }
  }

  lemma {:induction false} NothingBefore(chunks: seq<Chunk>, i: nat)
    requires i <= |chunks| && forall k :: 0 <= k < i ==> !Available(chunks[k])
    ensures AvailableIds(chunks) == AvailableIds(chunks[i..])
    decreases i
  {
    if i > 0 {
      NothingBefore(chunks[1..], i - 1);
      assert chunks[1..][i - 1..] == chunks[i..];
    } else {
      assert chunks[0..] == chunks;
    }
  }

  lemma AssigningTakesFirst(chunks: seq<Chunk>, employee: string, now: int)
    requires DistinctChunks(chunks) && employee != ""
    requires FindAvailable(chunks) < |chunks|
    ensures var i := FindAvailable(chunks);
      var chunks' := Assigned(chunks, chunks[i].id, employee, now);
      && DistinctChunks(chunks') && |chunks'| == |chunks|
      && AvailableIds(chunks) == [chunks[i].id] + AvailableIds(chunks')
  {
    var i := FindAvailable(chunks);
    var chunks' := Assigned(chunks, chunks[i].id, employee, now);
    assert FindChunk(chunks, chunks[i].id) == i;
    FirstAvailable(chunks, 0);
    assert chunks[0..] == chunks;
    NothingBefore(chunks', i + 1);
    assert chunks'[i + 1..] == chunks[i + 1..];
  }

  /** Handing out repeatedly gives every available chunk away exactly once, in
      table order, and then stops; with fewer rounds it gives away the first ones. */
  lemma {:induction false} HandsOutEachOnce(chunks: seq<Chunk>, to: nat -> string, rounds: nat)
    requires DistinctChunks(chunks) && forall k :: to(k) != ""
    ensures var ids, out := AvailableIds(chunks), HandOut(chunks, to, rounds);
      && out.0 == ids[..if rounds < |ids| then rounds else |ids|]
      && AvailableIds(out.1) == ids[|out.0|..]
    ensures rounds >= |AvailableIds(chunks)| ==> FindAvailable(HandOut(chunks, to, rounds).1) == |chunks|
    decreases rounds
  {
    var i := FindAvailable(chunks);
    FirstAvailable(chunks, 0);
    assert chunks[0..] == chunks;
    if rounds > 0 && i < |chunks| {
      AssigningTakesFirst(chunks, to(rounds), 0);
      hide AvailableIds;
      hide Assigned;
      var chunks' := Assigned(chunks, chunks[i].id, to(rounds), 0);
      HandsOutEachOnce(chunks', to, rounds - 1);
      OneMore(chunks[i].id, AvailableIds(chunks'), rounds, HandOut(chunks', to, rounds - 1).0);
    }
  }

  lemma OneMore(first: string, rest: seq<string>, rounds: nat, out: seq<string>)
    requires rounds > 0 && out == rest[..if rounds - 1 < |rest| then rounds - 1 else |rest|]
    ensures var ids := [first] + rest;
      && [first] + out == ids[..if rounds < |ids| then rounds else |ids|]
      && ids[|out| + 1..] == rest[|out|..]
  {
  }
}
