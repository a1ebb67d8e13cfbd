/** The chunk scheduler's two tables. */
module Scheduler {
  import opened Search
  import opened Arithmetic
  import Decimal

  const MAX_TASKS: nat := 100
  const MAX_CHUNKS: nat := 1000
  const SIZE_LIMIT: nat := 0x1_0000_0000_0000_0000
  const INT_LIMIT: nat := 0x8000_0000

  datatype Task = Task(id: string, inputFile: string, chunked: bool)

  datatype Chunk = Chunk(
    id: string, task: string, size: nat, index: nat, total: nat,
    employee: string, assignedTime: int, completed: bool)

  // ---------------------------------------------------------- specification

  function ChunkId(task: string, index: nat): string {
    task + "_chunk_" + Decimal.Print(index)
  }

  /** The chunk's part of a file cut into `total` chunks. */
  function ChunkSize(fileSize: nat, chunkSize: nat, total: int, i: nat): int {
    if i == total - 1 then fileSize - i * chunkSize else chunkSize
  }

  function NewChunk(task: string, fileSize: nat, chunkSize: nat, total: nat, i: nat): Chunk
    requires ChunkSize(fileSize, chunkSize, total, i) >= 0
  {
    Chunk(ChunkId(task, i), task, ChunkSize(fileSize, chunkSize, total, i), i, total, "", 0, false)
  }

  /** `(file_size + chunk_size - 1) / chunk_size` in 64-bit arithmetic. */
  function Quotient64(fileSize: nat, chunkSize: nat): nat
    requires chunkSize > 0
  {
    (fileSize + chunkSize - 1) % SIZE_LIMIT / chunkSize
  }

  /** The low 32 bits of a number, as a signed integer. */
  function ToInt(n: nat): int {
    var low := n % (2 * INT_LIMIT);
    if low < INT_LIMIT then low else low - 2 * INT_LIMIT
  }

  /** `total_chunks`, which is an `int`. */
  function TotalChunks(fileSize: nat, chunkSize: nat): int
    requires chunkSize > 0
  {
    ToInt(Quotient64(fileSize, chunkSize))
  }

  /** Those of the first `n` chunks that belong to other tasks, in order. */
  function OthersIn(chunks: seq<Chunk>, n: nat, task: string): seq<Chunk>
    requires n <= |chunks|
  {
    if n == 0 then []
    else OthersIn(chunks, n - 1, task) + if chunks[n - 1].task == task then [] else [chunks[n - 1]]
  }

  function Others(chunks: seq<Chunk>, task: string): seq<Chunk> {
    OthersIn(chunks, |chunks|, task)
  }

  function WithoutTask(tasks: seq<Task>, i: nat): seq<Task>
    requires i < |tasks|
  {
    tasks[..i] + tasks[i + 1..]
  }

  function OtherTasks(tasks: seq<Task>, task: string): seq<Task> {
    if tasks == [] then []
    else OtherTasks(tasks[..|tasks| - 1], task)
         + if tasks[|tasks| - 1].id == task then [] else [tasks[|tasks| - 1]]
  }

  predicate HasTask(tasks: seq<Task>, id: string) {
    exists i :: 0 <= i < |tasks| && tasks[i].id == id
  }

  function FindTask(tasks: seq<Task>, id: string): (i: nat)
    ensures i <= |tasks|
    ensures i < |tasks| ==> tasks[i].id == id
    ensures forall k :: 0 <= k < i ==> tasks[k].id != id
  {
    First(tasks, (t: Task) => t.id == id)
  }

  lemma HasTaskFinds(tasks: seq<Task>, id: string)
    ensures HasTask(tasks, id) <==> FindTask(tasks, id) < |tasks|
    ensures HasTask(tasks, id) <==> exists t :: t in tasks && t.id == id
  {
    if HasTask(tasks, id) {
      var i :| 0 <= i < |tasks| && tasks[i].id == id;
      assert tasks[i] in tasks;
    }
    if t :| t in tasks && t.id == id {
      var i :| 0 <= i < |tasks| && tasks[i] == t;
    }
    if FindTask(tasks, id) < |tasks| {
      assert tasks[FindTask(tasks, id)] in tasks;
    }
  }

  function FindChunk(chunks: seq<Chunk>, id: string): (i: nat)
    ensures i <= |chunks|
    ensures i < |chunks| ==> chunks[i].id == id
    ensures forall k :: 0 <= k < i ==> chunks[k].id != id
  {
    First(chunks, (c: Chunk) => c.id == id)
  }

  predicate Available(c: Chunk) {
    !c.completed && c.employee == ""
  }

  function FindAvailable(chunks: seq<Chunk>, from: nat := 0): (i: nat)
    requires from <= |chunks|
    ensures from <= i <= |chunks|
    ensures i < |chunks| ==> Available(chunks[i])
    ensures forall k :: from <= k < i ==> !Available(chunks[k])
  {
    First(chunks, Available, from)
  }

  function Assigned(chunks: seq<Chunk>, id: string, employee: string, now: int): seq<Chunk> {
    var i := FindChunk(chunks, id);
    if i < |chunks| then chunks[i := chunks[i].(employee := employee, assignedTime := now)] else chunks
  }

  function Completed(chunks: seq<Chunk>, id: string): seq<Chunk> {
    var i := FindChunk(chunks, id);
    if i < |chunks| then chunks[i := chunks[i].(completed := true)] else chunks
  }

  // --------------------------------------------------------------- invariant

  ghost predicate DistinctTasks(tasks: seq<Task>) {
    forall i, j :: 0 <= i < j < |tasks| ==> tasks[i].id != tasks[j].id
  }

  ghost predicate DistinctChunks(chunks: seq<Chunk>) {
    forall i, j :: 0 <= i < j < |chunks| ==> chunks[i].id != chunks[j].id
  }

  ghost predicate Owned(tasks: seq<Task>, c: Chunk) {
    c.id == ChunkId(c.task, c.index)
    && exists k :: 0 <= k < |tasks| && tasks[k].id == c.task && tasks[k].chunked
  }

  /** Task ids are distinct, chunk ids are distinct, and every chunk belongs to a
      task that is marked as chunked and carries the id made from it. */
  ghost predicate Consistent(tasks: seq<Task>, chunks: seq<Chunk>) {
    DistinctTasks(tasks) && DistinctChunks(chunks)
    && forall i :: 0 <= i < |chunks| ==> Owned(tasks, chunks[i])
  }

  // ------------------------------------------------------------- chunk names

  /** The task and the index can be read back from a chunk's name, whatever
      underscores and digits the task's own name contains. */
  lemma ChunkIdInjective(a: string, i: nat, b: string, j: nat)
    requires ChunkId(a, i) == ChunkId(b, j)
    ensures a == b && i == j
  {
    var s, x, y := ChunkId(a, i), Decimal.Print(i), Decimal.Print(j);
    var p, q := |a| + 7, |b| + 7;
    assert s[p..] == x && s[q..] == y;
    assert s[p - 1] == (a + "_chunk_")[p - 1] == '_';
    assert s[q - 1] == (b + "_chunk_")[q - 1] == '_';
    assert forall k :: p <= k < |s| ==> Decimal.IsDigit(s[k]) by {
      assert forall k :: p <= k < |s| ==> s[k] == x[k - p];
    }
    assert forall k :: q <= k < |s| ==> Decimal.IsDigit(s[k]) by {
      assert forall k :: q <= k < |s| ==> s[k] == y[k - q];
    }
    assert p == q;
    Decimal.PrintInjective(i, j);
    assert s[..|a|] == a && s[..|b|] == b;
  }

  // --------------------------------------------------------------- partition

  function TotalSize(chunks: seq<Chunk>): nat {
    if chunks == [] then 0 else TotalSize(chunks[..|chunks| - 1]) + chunks[|chunks| - 1].size
  }

  /** An `int` keeps the number up to multiples of 2^32. */
  lemma ToIntKeepsLowBits(n: nat)
    ensures -0x8000_0000 <= ToInt(n) < 0x8000_0000
    ensures (n as int - ToInt(n)) % 0x1_0000_0000 == 0
  {
    var m := 2 * INT_LIMIT;
    assert n == n / m * m + n % m;
    if n % m >= INT_LIMIT { assert n as int - ToInt(n) == (n / m + 1) * m; }
  }

  /** The quotient is the number of chunks needed, or 0 when the sum wraps. */
  lemma QuotientBounds(fileSize: nat, chunkSize: nat)
    requires 0 < chunkSize < SIZE_LIMIT && fileSize < SIZE_LIMIT / 2
    ensures var q := Quotient64(fileSize, chunkSize);
      && (q > 0 ==> (q - 1) * chunkSize < fileSize <= q * chunkSize)
      && (q == 0 <==> fileSize == 0 || fileSize + chunkSize - 1 >= SIZE_LIMIT)
  {
    var x := fileSize + chunkSize - 1;
    if x >= SIZE_LIMIT {
      assert x % SIZE_LIMIT == x - SIZE_LIMIT < chunkSize;
      Quotient(x - SIZE_LIMIT, chunkSize);
    } else {
      Quotient(x, chunkSize);
    }
  }

  /** An `int` that loses bits is too small a count. */
  lemma TotalBounds(fileSize: nat, chunkSize: nat)
    requires 0 < chunkSize < SIZE_LIMIT && fileSize < SIZE_LIMIT / 2
    ensures var t, q := TotalChunks(fileSize, chunkSize), Quotient64(fileSize, chunkSize);
      && (t > 0 ==> (t - 1) * chunkSize < fileSize)
      && (t > 0 ==> (fileSize <= t * chunkSize <==> q < INT_LIMIT))
      && (q < INT_LIMIT ==> t == q)
  {
    var t, q := TotalChunks(fileSize, chunkSize), Quotient64(fileSize, chunkSize);
    QuotientBounds(fileSize, chunkSize);
    if t > 0 {
      Multiply(t - 1, q - 1, chunkSize);
      if q >= INT_LIMIT { Multiply(t, q - 1, chunkSize); }
    }
  }

  /** The first `n` chunks that `create_chunks` makes of a file. */
  function Pieces(task: string, fileSize: nat, chunkSize: nat, n: nat): (r: seq<Chunk>)
    requires 0 < chunkSize < SIZE_LIMIT && fileSize < SIZE_LIMIT / 2
    requires n == 0 || n <= TotalChunks(fileSize, chunkSize)
    ensures |r| == n
  {
    var total := TotalChunks(fileSize, chunkSize);
    TotalBounds(fileSize, chunkSize);
    if n == 0 then []
    else Pieces(task, fileSize, chunkSize, n - 1) + [NewChunk(task, fileSize, chunkSize, total, n - 1)]
  }

  lemma {:induction false} PieceAt(task: string, fileSize: nat, chunkSize: nat, n: nat, i: nat)
    requires 0 < chunkSize < SIZE_LIMIT && fileSize < SIZE_LIMIT / 2
    requires i < n <= TotalChunks(fileSize, chunkSize)
    ensures ChunkSize(fileSize, chunkSize, TotalChunks(fileSize, chunkSize), i) > 0
    ensures Pieces(task, fileSize, chunkSize, n)[i]
            == NewChunk(task, fileSize, chunkSize, TotalChunks(fileSize, chunkSize), i)
    decreases n
  {
    TotalBounds(fileSize, chunkSize);
    if i < n - 1 { PieceAt(task, fileSize, chunkSize, n - 1, i); }
  }

  /** Every piece starts where the one before it ends, has at least one byte, and
      at most `chunkSize`, unless it is the last of a count that lost bits. */
  lemma PiecesContiguous(task: string, fileSize: nat, chunkSize: nat, i: nat)
    requires 0 < chunkSize < SIZE_LIMIT && fileSize < SIZE_LIMIT / 2
    requires i < TotalChunks(fileSize, chunkSize)
    ensures var total := TotalChunks(fileSize, chunkSize);
      var piece := Pieces(task, fileSize, chunkSize, total)[i];
      && 1 <= piece.size
      && (piece.size <= chunkSize <==> i < total - 1 || Quotient64(fileSize, chunkSize) < INT_LIMIT)
      && TotalSize(Pieces(task, fileSize, chunkSize, i)) == i * chunkSize
      && i * chunkSize + piece.size == (if i == total - 1 then fileSize else (i + 1) * chunkSize)
  {
    var total := TotalChunks(fileSize, chunkSize);
    TotalBounds(fileSize, chunkSize);
    PieceAt(task, fileSize, chunkSize, total, i);
    PiecesSum(task, fileSize, chunkSize, i);
    Successor(i, chunkSize);
    if i < total - 1 { Multiply(i + 1, total - 1, chunkSize); }
  }

  lemma {:induction false} PiecesSum(task: string, fileSize: nat, chunkSize: nat, n: nat)
    requires 0 < chunkSize < SIZE_LIMIT && fileSize < SIZE_LIMIT / 2
    requires n == 0 || n <= TotalChunks(fileSize, chunkSize)
    ensures TotalSize(Pieces(task, fileSize, chunkSize, n))
            == if n > 0 && n == TotalChunks(fileSize, chunkSize) then fileSize else n * chunkSize
    decreases n
  {
    TotalBounds(fileSize, chunkSize);
    if n > 0 {
      PiecesSum(task, fileSize, chunkSize, n - 1);
      var r, total := Pieces(task, fileSize, chunkSize, n), TotalChunks(fileSize, chunkSize);
      assert r[..n - 1] == Pieces(task, fileSize, chunkSize, n - 1);
      assert r[n - 1] == NewChunk(task, fileSize, chunkSize, total, n - 1);
      Successor(n - 1, chunkSize);
    }
  }

  /** How many chunks the loop makes when the table has room for `room` more. */
  function Made(total: int, room: nat): nat {
    if total <= 0 then 0 else if total < room then total else room
  }

  ghost predicate AtMost(chunks: seq<Chunk>, chunkSize: nat) {
    forall i :: 0 <= i < |chunks| ==> chunks[i].size <= chunkSize
  }

  lemma CoversExactly(task: string, fileSize: nat, chunkSize: nat, room: nat)
    requires 0 < chunkSize < SIZE_LIMIT && fileSize < SIZE_LIMIT / 2
    ensures var total := TotalChunks(fileSize, chunkSize);
      TotalSize(Pieces(task, fileSize, chunkSize, Made(total, room))) == fileSize
      <==> fileSize == 0 || 0 < total <= room
  {
    var total := TotalChunks(fileSize, chunkSize);
    TotalBounds(fileSize, chunkSize);
    PiecesSum(task, fileSize, chunkSize, Made(total, room));
    if room < total {
      Multiply(room, total - 1, chunkSize);
    }
  }

  lemma SizesExact(task: string, fileSize: nat, chunkSize: nat)
    requires 0 < chunkSize < SIZE_LIMIT && fileSize < SIZE_LIMIT / 2
    requires TotalChunks(fileSize, chunkSize) > 0
    ensures AtMost(Pieces(task, fileSize, chunkSize, TotalChunks(fileSize, chunkSize)), chunkSize)
            <==> Quotient64(fileSize, chunkSize) < INT_LIMIT
  {
    var total := TotalChunks(fileSize, chunkSize);
    var made := Pieces(task, fileSize, chunkSize, total);
    forall i | 0 <= i < total
      ensures made[i].size <= chunkSize <==> i < total - 1 || Quotient64(fileSize, chunkSize) < INT_LIMIT
    {
      PiecesContiguous(task, fileSize, chunkSize, i);
    }
    assert made[total - 1].size <= chunkSize <==> Quotient64(fileSize, chunkSize) < INT_LIMIT;
  }

  /** The chunks made cover the file if and only if the count that is left of the
      quotient is positive and there is room for that many; they are then a
      partition into chunks of the size asked for if and only if the conversion to
      `int` lost nothing, and exactly as many as the file needs. */
  lemma PartitionExact(task: string, fileSize: nat, chunkSize: nat, room: nat)
    requires 0 < chunkSize < SIZE_LIMIT && fileSize < SIZE_LIMIT / 2
    ensures var total, q := TotalChunks(fileSize, chunkSize), Quotient64(fileSize, chunkSize);
      var made := Pieces(task, fileSize, chunkSize, Made(total, room));
      && (TotalSize(made) == fileSize <==> fileSize == 0 || 0 < total <= room)
      && (TotalSize(made) == fileSize && AtMost(made, chunkSize) <==>
            fileSize == 0 || (fileSize + chunkSize - 1 < SIZE_LIMIT && q < INT_LIMIT && q <= room))
      && (fileSize + chunkSize - 1 < SIZE_LIMIT && q < INT_LIMIT ==>
            total == fileSize / chunkSize + if fileSize % chunkSize == 0 then 0 else 1)
  {
    hide TotalChunks;
    hide Quotient64;
    hide Pieces;
    hide TotalSize;
    var total := TotalChunks(fileSize, chunkSize);
    CoversExactly(task, fileSize, chunkSize, room);
    QuotientBounds(fileSize, chunkSize);
    TotalBounds(fileSize, chunkSize);
    if 0 < total <= room {
      SizesExact(task, fileSize, chunkSize);
    }
    CountNeeded(fileSize, chunkSize);
  }

  lemma CountNeeded(fileSize: nat, chunkSize: nat)
    requires chunkSize > 0
    ensures fileSize + chunkSize - 1 < SIZE_LIMIT ==>
      Quotient64(fileSize, chunkSize) == fileSize / chunkSize + if fileSize % chunkSize == 0 then 0 else 1
  {
    if fileSize + chunkSize - 1 < SIZE_LIMIT {
      Ceiling(fileSize, chunkSize, Quotient64(fileSize, chunkSize));
    }
  }

  /** One byte over 4 GB in chunks of one byte: a single chunk of the whole file. */
  lemma CountLosesBits(task: string)
    ensures var fileSize := 0x1_0000_0001;
      && TotalChunks(fileSize, 1) == 1
      && Pieces(task, fileSize, 1, 1)[0].size == fileSize
  {
    PieceAt(task, 0x1_0000_0001, 1, 1, 0);
  }

  lemma Ceiling(f: nat, c: nat, t: nat)
    requires c > 0 && t == (f + c - 1) / c
    ensures t == f / c + if f % c == 0 then 0 else 1
  {
    var q, r := f / c, f % c;
    assert f == q * c + r;
    if r == 0 {
      QuotientIs(f + c - 1, c, q);
    } else {
      Successor(q, c);
      QuotientIs(f + c - 1, c, q + 1);
    }
  }
}
