/** The scheduler's operations on its two fixed-size arrays. */
module SchedulerTables {
  import opened Options
  import opened Scheduler
  import opened SchedulerProofs

  /** The chunk's task still waits for something. */
  predicate HasIncomplete(chunks: seq<Chunk>, task: string) {
    exists j :: 0 <= j < |chunks| && chunks[j].task == task && !chunks[j].completed
  }

  predicate IsPending(t: Task, chunks: seq<Chunk>) {
    HasIncomplete(chunks, t.id) || !t.chunked
  }

  function PendingTasks(tasks: seq<Task>, chunks: seq<Chunk>): seq<Task> {
    if tasks == [] then []
    else PendingTasks(tasks[..|tasks| - 1], chunks)
         + if IsPending(tasks[|tasks| - 1], chunks) then [tasks[|tasks| - 1]] else []
  }

  lemma {:induction false} PendingGrows(tasks: seq<Task>, chunks: seq<Chunk>, i: nat)
    requires i <= |tasks|
    ensures PendingTasks(tasks[..i], chunks) <= PendingTasks(tasks, chunks)
    decreases |tasks|
  {
    if i < |tasks| {
      PendingGrows(tasks[..|tasks| - 1], chunks, i);
      assert tasks[..|tasks| - 1][..i] == tasks[..i];
    } else {
      assert tasks[..i] == tasks;
    }
  }

  /** The chunks of a task, and those of them that are completed. */
  function ChunksOf(chunks: seq<Chunk>, task: string): nat {
    if chunks == [] then 0
    else ChunksOf(chunks[..|chunks| - 1], task) + if chunks[|chunks| - 1].task == task then 1 else 0
  }

  function CompletedOf(chunks: seq<Chunk>, task: string): nat {
    if chunks == [] then 0
    else CompletedOf(chunks[..|chunks| - 1], task)
         + (var c := chunks[|chunks| - 1]; if c.task == task && c.completed then 1 else 0)
  }

  /** The two numbers of `get_chunk_status` meet exactly when nothing of the task
      is incomplete, so a chunked task is pending until then. */
  lemma {:induction false} StatusDecidesPending(chunks: seq<Chunk>, task: string)
    ensures CompletedOf(chunks, task) <= ChunksOf(chunks, task)
    ensures CompletedOf(chunks, task) == ChunksOf(chunks, task) <==> !HasIncomplete(chunks, task)
    decreases |chunks|
  {
    if chunks != [] {
      var n := |chunks| - 1;
      StatusDecidesPending(chunks[..n], task);
      assert forall j :: 0 <= j < n ==> chunks[..n][j] == chunks[j];
      assert HasIncomplete(chunks, task) <==>
        HasIncomplete(chunks[..n], task) || (chunks[n].task == task && !chunks[n].completed);
    }
  }

  class Tables {
    const tasks: array<Task>
    const chunks: array<Chunk>
    var taskCount: nat
    var chunkCount: nat

    ghost predicate Bounded()
      reads this
    {
      && tasks.Length == MAX_TASKS && chunks.Length == MAX_CHUNKS
      && taskCount <= MAX_TASKS && chunkCount <= MAX_CHUNKS
    }

    ghost function Tasks(): seq<Task>
      requires Bounded()
      reads this, tasks
    {
      tasks[..taskCount]
    }

    ghost function Chunks(): seq<Chunk>
      requires Bounded()
      reads this, chunks
    {
      chunks[..chunkCount]
    }

    ghost predicate Valid()
      reads this, tasks, chunks
    {
      Bounded() && Consistent(Tasks(), Chunks())
    }

    constructor ()
      ensures Valid() && fresh(tasks) && fresh(chunks) && Tasks() == [] && Chunks() == []
    {
      tasks, chunks := new Task[MAX_TASKS], new Chunk[MAX_CHUNKS];
      taskCount, chunkCount := 0, 0;
    }

    method Find(id: string) returns (i: nat)
      requires Bounded()
      ensures i == FindTask(Tasks(), id)
    {
      i := 0;
      while i < taskCount && tasks[i].id != id
        invariant i <= taskCount
        invariant forall k :: 0 <= k < i ==> tasks[k].id != id
      {
        i := i + 1;
      }
    }

    method AddTask(t: Task) returns (ok: bool)
      requires Bounded()
      modifies this`taskCount, tasks
      ensures Bounded() && (old(Valid()) ==> Valid())
      ensures Chunks() == old(Chunks())
      ensures ok <==> |old(Tasks())| < MAX_TASKS && !HasTask(old(Tasks()), t.id)
      ensures Tasks() == if ok then old(Tasks()) + [t] else old(Tasks())
    {
      if taskCount >= MAX_TASKS {
        return false;
      }
      var i := Find(t.id);
      if i < taskCount {
        assert Tasks()[i].id == t.id;
        return false;
      }
      if Valid() { AddKeepsConsistent(Tasks(), Chunks(), t); }
      tasks[taskCount] := t;
      taskCount := taskCount + 1;
      assert Tasks() == old(Tasks()) + [t];
      return true;
    }

    /** Moves the chunks after `j` one place down. */
    method DeleteChunk(j: nat)
      requires Bounded() && j < chunkCount
      modifies this`chunkCount, chunks
      ensures Bounded() && chunkCount == old(chunkCount) - 1
      ensures Chunks() == old(Chunks())[..j] + old(Chunks())[j + 1..]
    {
      forall k | j <= k < chunkCount - 1 { chunks[k] := chunks[k + 1]; }
      chunkCount := chunkCount - 1;
    }

    /** The first `seen` of the chunks `all` are filtered, into the first `j` slots. */
    ghost predicate Filtering(all: seq<Chunk>, seen: nat, j: nat, id: string)
      reads this, chunks
    {
      && Bounded() && seen <= |all| && |OthersIn(all, seen, id)| == j
      && Chunks() == OthersIn(all, seen, id) + all[seen..]
    }

    /** Looks at slot `j`: deletes it, to recheck the slot, or goes on. */
    method CheckSlot(j: nat, id: string, ghost all: seq<Chunk>, ghost seen: nat) returns (j': nat)
      requires Filtering(all, seen, j, id) && j < chunkCount
      modifies this`chunkCount, chunks
      ensures Bounded() && seen < |all| && Filtering(all, seen + 1, j', id)
      ensures j' == if all[seen].task == id then j else j + 1
    {
      ghost var kept, rest := OthersIn(all, seen, id), all[seen..];
      OthersStep(all, seen, id);
      hide OthersIn;
      assert chunks[j] == Chunks()[j] == rest[0];
      if chunks[j].task == id {
        DeleteChunk(j);
        Joint(kept, rest);
        return j;
      }
      assert kept + rest == kept + [rest[0]] + rest[1..];
      return j + 1;
    }

    lemma FilteringStarts(id: string)
      requires Bounded()
      ensures Filtering(Chunks(), 0, 0, id)
    {
    }

    lemma FilteringEnds(all: seq<Chunk>, seen: nat, j: nat, id: string)
      requires Filtering(all, seen, j, id) && j >= chunkCount
      ensures Chunks() == Others(all, id)
    {
      assert seen == |all|;
    }

    /** The inner loop of `remove_task`: deletes in place and rechecks the slot. */
    method RemoveChunks(id: string)
      requires Bounded()
      modifies this`chunkCount, chunks
      ensures Bounded() && Chunks() == Others(old(Chunks()), id)
    {
      hide Filtering;
      hide Others;
      ghost var all := Chunks();
      ghost var seen := 0;
      var j := 0;
      FilteringStarts(id);
      while j < chunkCount
        invariant Bounded() && Filtering(all, seen, j, id)
        decreases |all| - seen
      {
        j := CheckSlot(j, id, all, seen);
        seen := seen + 1;
      }
      FilteringEnds(all, seen, j, id);
    }

    /** Moves the tasks after `i` one place down. */
    method DeleteTask(i: nat)
      requires Bounded() && i < taskCount
      modifies this`taskCount, tasks
      ensures Bounded() && Tasks() == WithoutTask(old(Tasks()), i)
    {
      forall k | i <= k < taskCount - 1 { tasks[k] := tasks[k + 1]; }
      taskCount := taskCount - 1;
    }

    method RemoveTask(id: string) returns (ok: bool)
      requires Bounded()
      modifies this, tasks, chunks
      ensures Bounded() && (old(Valid()) ==> Valid())
      ensures ok <==> HasTask(old(Tasks()), id)
      ensures !ok ==> Tasks() == old(Tasks()) && Chunks() == old(Chunks())
      ensures ok ==>
        var i := FindTask(old(Tasks()), id);
        && i < |old(Tasks())| && Tasks() == WithoutTask(old(Tasks()), i)
        && Chunks() == Others(old(Chunks()), id)
      ensures old(Valid()) ==>
        Tasks() == OtherTasks(old(Tasks()), id) && Chunks() == Others(old(Chunks()), id)
    {
      var i := Find(id);
      if i == taskCount {
        if Valid() {
          NoMatch(Tasks(), id);
          NoOrphans(Tasks(), Chunks(), chunkCount, id);
        }
        return false;
      }
      if Valid() { RemoveKeepsConsistent(Tasks(), Chunks(), i); }
      assert Tasks()[i].id == id;
      RemoveChunks(id);
      DeleteTask(i);
      return true;
    }

    method AppendChunk(c: Chunk)
      requires Bounded() && chunkCount < MAX_CHUNKS
      modifies this`chunkCount, chunks
      ensures Bounded() && Chunks() == old(Chunks()) + [c]
    {
      chunks[chunkCount] := c;
      chunkCount := chunkCount + 1;
    }

    /** The loop of `create_chunks`: stops early when the table is full. */
    method AppendPieces(id: string, size: nat, chunkSize: nat)
      requires Bounded() && 0 < chunkSize < SIZE_LIMIT && size < SIZE_LIMIT / 2
      modifies this`chunkCount, chunks
      ensures Bounded()
      ensures Chunks() == old(Chunks())
        + Pieces(id, size, chunkSize, Made(TotalChunks(size, chunkSize), MAX_CHUNKS - |old(Chunks())|))
    {
      var total := TotalChunks(size, chunkSize);
      var i := 0;
      while i < total && chunkCount < MAX_CHUNKS
        invariant Bounded() && (i == 0 || i <= total) && chunkCount == old(chunkCount) + i
        invariant Chunks() == old(Chunks()) + Pieces(id, size, chunkSize, i)
        decreases total - i
      {
        PieceAt(id, size, chunkSize, i + 1, i);
        AppendChunk(NewChunk(id, size, chunkSize, total, i));
        i := i + 1;
      }
    }

    /** `create_chunks`; `fileSize` is `None` when the input file is not found. */
    method CreateChunks(id: string, fileSize: Option<nat>, chunkSize: nat) returns (r: int)
      requires Bounded() && 0 < chunkSize < SIZE_LIMIT
      requires fileSize.Some? ==> fileSize.value < SIZE_LIMIT / 2
      modifies this`chunkCount, tasks, chunks
      ensures Bounded()
      ensures var found := HasTask(old(Tasks()), id) && fileSize.Some?;
        if found then
          var i := FindTask(old(Tasks()), id);
          && r == TotalChunks(fileSize.value, chunkSize) && i < |old(Tasks())|
          && Tasks() == old(Tasks())[i := old(Tasks())[i].(chunked := true)]
          && Chunks() == old(Chunks())
               + Pieces(id, fileSize.value, chunkSize, Made(r, MAX_CHUNKS - |old(Chunks())|))
        else
          r == -1 && Tasks() == old(Tasks()) && Chunks() == old(Chunks())
      ensures old(Valid()) && (forall t :: t in old(Tasks()) && t.id == id ==> !t.chunked) ==> Valid()
      ensures old(Valid()) && HasTask(old(Tasks()), id) && fileSize.Some? ==>
        (Valid() <==> !NameTaken(old(Chunks()), id, Made(r, MAX_CHUNKS - |old(Chunks())|)))
    {
      hide Pieces;
      hide TotalChunks;
      hide NameTaken;
      hide Consistent;
      var k := Find(id);
      if k == taskCount || fileSize.None? {
        return -1;
      }
      var size := fileSize.value;
      var total := TotalChunks(size, chunkSize);
      ghost var tasks0, chunks0 := Tasks(), Chunks();
      assert tasks0[k].id == id;
      AppendPieces(id, size, chunkSize);
      tasks[k] := tasks[k].(chunked := true);
      assert Tasks() == tasks0[k := tasks0[k].(chunked := true)];
      if old(Valid()) {
        CreateConsistentExactly(tasks0, chunks0, k, size, chunkSize, Made(total, MAX_CHUNKS - |chunks0|));
        assert tasks0[k] in tasks0;
      }
      return total;
    }

    method GetNextChunk() returns (next: Option<Chunk>)
      requires Bounded()
      ensures var i := FindAvailable(Chunks());
        next == if i < |Chunks()| then Some(Chunks()[i]) else None
    {
      var i := 0;
      while i < chunkCount
        invariant i <= chunkCount
        invariant forall k :: 0 <= k < i ==> !Available(chunks[k])
      {
        if !chunks[i].completed && chunks[i].employee == "" {
          assert FindAvailable(Chunks()) == i;
          return Some(chunks[i]);
        }
        i := i + 1;
      }
      return None;
    }

    method Locate(id: string) returns (i: nat)
      requires Bounded()
      ensures i == FindChunk(Chunks(), id)
    {
      i := 0;
      while i < chunkCount && chunks[i].id != id
        invariant i <= chunkCount
        invariant forall k :: 0 <= k < i ==> chunks[k].id != id
      {
        i := i + 1;
      }
    }

    method AssignChunk(id: string, employee: string, now: int) returns (ok: bool)
      requires Bounded()
      modifies chunks
      ensures Bounded() && (old(Valid()) ==> Valid())
      ensures Tasks() == old(Tasks())
      ensures ok <==> exists c :: c in old(Chunks()) && c.id == id
      ensures Chunks() == Assigned(old(Chunks()), id, employee, now)
      ensures ok ==>
        var i := FindChunk(old(Chunks()), id);
        i < |Chunks()| && Chunks()[i].employee == employee && Chunks()[i].assignedTime == now
    {
      var i := Locate(id);
      if i == chunkCount {
        return false;
      }
      if Valid() { AssignKeepsConsistent(Tasks(), Chunks(), id, employee, now); }
      assert Chunks()[i] in Chunks();
      chunks[i] := chunks[i].(employee := employee, assignedTime := now);
      assert Chunks() == Assigned(old(Chunks()), id, employee, now);
      return true;
    }

    method MarkChunkCompleted(id: string) returns (ok: bool)
      requires Bounded()
      modifies chunks
      ensures Bounded() && (old(Valid()) ==> Valid())
      ensures Tasks() == old(Tasks())
      ensures ok <==> exists c :: c in old(Chunks()) && c.id == id
      ensures Chunks() == Completed(old(Chunks()), id)
      ensures ok ==>
        var i := FindChunk(old(Chunks()), id);
        i < |Chunks()| && Chunks()[i].completed
        && forall k :: 0 <= k < |Chunks()| && k != i ==> Chunks()[k] == old(Chunks())[k]
    {
      var i := Locate(id);
      if i == chunkCount {
        return false;
      }
      if Valid() { CompleteKeepsConsistent(Tasks(), Chunks(), id); }
      assert Chunks()[i] in Chunks();
      chunks[i] := chunks[i].(completed := true);
      assert Chunks() == Completed(old(Chunks()), id);
      return true;
    }

    method GetChunkStatus(task: string) returns (completed: nat, total: nat)
      requires Bounded()
      ensures completed == CompletedOf(Chunks(), task) && total == ChunksOf(Chunks(), task)
    {
      completed, total := 0, 0;
      for i := 0 to chunkCount
        invariant completed == CompletedOf(chunks[..i], task) && total == ChunksOf(chunks[..i], task)
      {
        assert chunks[..i + 1][..i] == chunks[..i];
        if chunks[i].task == task {
          total := total + 1;
          if chunks[i].completed {
            completed := completed + 1;
          }
        }
      }
    }

    method GetPendingTasks(most: nat) returns (pending: seq<Task>)
      requires Bounded()
      ensures var all := PendingTasks(Tasks(), Chunks());
        pending == all[..if most < |all| then most else |all|]
    {
      pending := [];
      var i := 0;
      while i < taskCount && |pending| < most
        invariant i <= taskCount && |pending| <= most
        invariant pending == PendingTasks(tasks[..i], Chunks())
      {
        assert tasks[..i + 1][..i] == tasks[..i];
        var incomplete := false;
        var j := 0;
        while j < chunkCount && !incomplete
          invariant j <= chunkCount
          invariant incomplete <==> HasIncomplete(chunks[..j], tasks[i].id)
        {
          if chunks[j].task == tasks[i].id && !chunks[j].completed {
            incomplete := true;
          }
          assert chunks[..j + 1] == chunks[..j] + [chunks[j]];
          j := j + 1;
        }
        SameIncomplete(Chunks(), j, tasks[i].id);
        if incomplete || !tasks[i].chunked {
          pending := pending + [tasks[i]];
        }
        i := i + 1;
      }
      PendingGrows(Tasks(), Chunks(), i);
      assert Tasks()[..i] == tasks[..i];
    }
  }

  lemma SameIncomplete(chunks: seq<Chunk>, j: nat, task: string)
    requires j <= |chunks| && (HasIncomplete(chunks[..j], task) || j == |chunks|)
    ensures HasIncomplete(chunks, task) <==> HasIncomplete(chunks[..j], task)
  {
    if HasIncomplete(chunks[..j], task) {
      var k :| 0 <= k < j && chunks[..j][k].task == task && !chunks[..j][k].completed;
      assert chunks[k].task == task && !chunks[k].completed;
    } else {
      assert chunks[..j] == chunks;
    }
  }

  lemma OthersStep(all: seq<Chunk>, i: nat, task: string)
    requires i < |all|
    ensures OthersIn(all, i + 1, task) == if all[i].task == task then OthersIn(all, i, task)
                                          else OthersIn(all, i, task) + [all[i]]
    ensures all[i..] != [] && all[i..][0] == all[i] && all[i..][1..] == all[i + 1..]
  {
  }

  lemma Joint(a: seq<Chunk>, b: seq<Chunk>)
    requires b != []
    ensures (a + b)[..|a|] + (a + b)[|a| + 1..] == a + b[1..]
  {
  }

  /** A task that is not in the table has no chunks to remove. */
  lemma {:induction false} NoOrphans(tasks: seq<Task>, chunks: seq<Chunk>, n: nat, id: string)
    requires n <= |chunks| && forall i :: 0 <= i < |chunks| ==> Owned(tasks, chunks[i])
    requires forall k :: 0 <= k < |tasks| ==> tasks[k].id != id
    ensures OthersIn(chunks, n, id) == chunks[..n]
    decreases n
  {
    if n > 0 {
      assert Owned(tasks, chunks[n - 1]);
      NoOrphans(tasks, chunks, n - 1, id);
    }
  }
}
