/** The external sort that feeds the bulk build: sorted runs on disk, merged through one block of each
    run in memory. */
module DiskVectors {
  import opened Records
  import opened PageTrees
  import opened BulkImports

  // ----- where runs and blocks begin and end --------------------------------------------------------------

  function RoundUp(a: nat, b: nat): nat
    requires b > 0
  {
    a / b + if a % b != 0 then 1 else 0
  }

  /** The part that is left for the last piece when `a` is cut into pieces of `b`. */
  function LastPart(a: nat, b: nat): nat
    requires b > 0
  {
    if a % b == 0 then b else a % b
  }

  lemma StartOfRun(size: nat, run: nat, more: nat)
    requires run <= more
    ensures run * size <= more * size
  {
  }

  lemma DivIs(a: nat, d: nat, q: nat, r: nat)
    requires d > 0 && a == q * d + r && r < d
    ensures a / d == q && a % d == r
  {
    var e := a / d;
    assert a == e * d + a % d;
    assert (q + 1) * d == q * d + d && (e + 1) * d == e * d + d;
    if q < e {
      StartOfRun(d, q + 1, e);
    } else if e < q {
      StartOfRun(d, e + 1, q);
    }
  }

  lemma RoundUpIs(a: nat, d: nat, q: nat, r: nat)
    requires d > 0 && a == q * d + r && 1 <= r <= d
    ensures RoundUp(a, d) == q + 1 && LastPart(a, d) == r
  {
    if r == d {
      DivIs(a, d, q + 1, 0);
    } else {
      DivIs(a, d, q, r);
    }
  }

  /** Every positive number is full pieces and a last one. */
  lemma Pieces(a: nat, d: nat) returns (q: nat, r: nat)
    requires 0 < a && 0 < d
    ensures a == q * d + r && 1 <= r <= d
  {
    q, r := (a - 1) / d, (a - 1) % d + 1;
  }

  function Min(a: nat, b: nat): nat {
    if a < b then a else b
  }

  /** What a read of `count` tuples from a position returns; there may be fewer at the end of the file. */
  function Read(file: seq<Record>, from: nat, count: nat): seq<Record> {
    if from <= |file| then file[from..Min(from + count, |file|)] else []
  }

  function RunOf(file: seq<Record>, size: nat, run: nat): seq<Record> {
    Read(file, run * size, size)
  }

  /** The first runs of the file. */
  function RunsOf(file: seq<Record>, size: nat, runs: nat): (rs: seq<seq<Record>>)
    ensures |rs| == runs && forall i | 0 <= i < runs :: rs[i] == RunOf(file, size, i)
  {
    if runs == 0 then [] else RunsOf(file, size, runs - 1) + [RunOf(file, size, runs - 1)]
  }

  /** The lengths that are computed from the length of the file are those of the runs and blocks. */
  lemma RunLengths(file: seq<Record>, block: nat, blocks: nat, run: nat)
    requires 0 < block && 0 < blocks && file != []
    requires run < RoundUp(|file|, blocks * block)
    ensures blocks * block > 0
    ensures var last := RoundUp(|file|, blocks * block) - 1;
            |RunOf(file, blocks * block, run)| ==
              if run < last then blocks * block
              else (LastPart(RoundUp(|file|, block), blocks) - 1) * block + LastPart(|file|, block)
    ensures 1 <= LastPart(|file|, block) <= block && 1 <= LastPart(RoundUp(|file|, block), blocks) <= blocks
  {
    var size := blocks * block;
    assert size > 0;
    var q, rem := Pieces(|file|, size);
    RoundUpIs(|file|, size, q, rem);
    var j, t := Pieces(rem, block);
    InLastRun(block, blocks, j, t, rem);
    assert q * size == (q * blocks) * block;
    assert |file| == (q * blocks + j) * block + t;
    RoundUpIs(|file|, block, q * blocks + j, t);
    assert q * blocks + j + 1 == q * blocks + (j + 1);
    RoundUpIs(q * blocks + j + 1, blocks, q, j + 1);
    if run < q {
      StartOfRun(size, run + 1, q);
      assert run * size + size == (run + 1) * size;
    }
  }

  lemma InLastRun(block: nat, blocks: nat, j: nat, t: nat, rem: nat)
    requires 0 < block && rem == j * block + t && 1 <= t <= block && rem <= blocks * block
    ensures j < blocks
  {
    if j >= blocks {
      StartOfRun(block, blocks, j);
    }
  }

  // ----- merging runs -------------------------------------------------------------------------------------

  /** All tuples that are left in the runs. */
  function Bag(rests: seq<seq<Record>>): multiset<Record> {
    if rests == [] then multiset{} else Bag(rests[..|rests| - 1]) + multiset(rests[|rests| - 1])
  }

  lemma {:induction false} BagWithout(rests: seq<seq<Record>>, i: nat)
    requires i < |rests| && rests[i] != []
    ensures Bag(rests) == Bag(rests[i := rests[i][1..]]) + multiset{rests[i][0]}
  {
    var m := |rests| - 1;
    var less := rests[i := rests[i][1..]];
    if i < m {
      BagWithout(rests[..m], i);
      assert less[..m] == rests[..m][i := rests[i][1..]];
    } else {
      assert less[..m] == rests[..m];
      assert rests[m] == [rests[m][0]] + rests[m][1..];
    }
  }

  lemma {:induction false} BagOfNothing(rests: seq<seq<Record>>)
    requires forall i | 0 <= i < |rests| :: rests[i] == []
    ensures Bag(rests) == multiset{}
  {
    if rests != [] {
      BagOfNothing(rests[..|rests| - 1]);
    }
  }

  lemma ReadOn(file: seq<Record>, a: nat, b: nat)
    ensures Read(file, 0, a + b) == Read(file, 0, a) + Read(file, a, b)
  {
  }

  /** The runs cut from a file hold just its tuples. */
  lemma {:induction false} BagOfRuns(file: seq<Record>, size: nat, runs: nat)
    ensures Bag(RunsOf(file, size, runs)) == multiset(Read(file, 0, runs * size))
  {
    var rests := RunsOf(file, size, runs);
    if runs == 0 {
      assert Read(file, 0, 0) == [];
    } else {
      BagOfRuns(file, size, runs - 1);
      assert rests[..runs - 1] == RunsOf(file, size, runs - 1);
      assert (runs - 1) * size + size == runs * size;
      ReadOn(file, (runs - 1) * size, size);
    }
  }

  /** What has been put out is ascending and below everything that is left; what is left is ascending in
      each run, and no tuple is in two places. */
  ghost predicate Merging(n: nat, file: seq<Record>, done: seq<Record>, rests: seq<seq<Record>>) {
    && AreRecords(n, done) && Ascending(done)
    && (forall r | 0 <= r < |rests| :: AreRecords(n, rests[r]) && Ascending(rests[r]))
    && (forall r, s | 0 <= r < s < |rests| :: forall i, j | 0 <= i < |rests[r]| && 0 <= j < |rests[s]| ::
          rests[r][i] != rests[s][j])
    && (forall k, r, i | 0 <= k < |done| && 0 <= r < |rests| && 0 <= i < |rests[r]| :: Rank(done[k]) < Rank(rests[r][i]))
    && multiset(done) + Bag(rests) == multiset(file)
  }

  /** Run `m` has the least first tuple of all runs that have one. */
  ghost predicate LeastHead(rests: seq<seq<Record>>, m: nat) {
    && m < |rests| && rests[m] != []
    && (forall r | 0 <= r < |rests| && rests[r] != [] :: Rank(rests[m][0]) <= Rank(rests[r][0]))
  }

  lemma {:induction false} LeastIsBelow(n: nat, file: seq<Record>, done: seq<Record>, rests: seq<seq<Record>>, m: nat, r: nat, i: nat)
    requires Merging(n, file, done, rests) && LeastHead(rests, m) && r < |rests| && i < |rests[r]| && !(r == m && i == 0)
    ensures Rank(rests[m][0]) < Rank(rests[r][i])
  {
    assert i > 0 ==> Rank(rests[r][0]) < Rank(rests[r][i]);
    if r != m {
      assert rests[m][0] != rests[r][i] by {
        if r < m {
          assert rests[r][i] != rests[m][0];
        }
      }
      RankIsInjective(n, rests[m][0], rests[r][i]);
    }
  }

  /** Putting out the least head keeps all that. */
  lemma {:induction false} PutOut(n: nat, file: seq<Record>, done: seq<Record>, rests: seq<seq<Record>>, m: nat)
    requires Merging(n, file, done, rests) && LeastHead(rests, m)
    ensures Merging(n, file, done + [rests[m][0]], rests[m := rests[m][1..]])
  {
    hide Rank, IsRecord, Bag;
    StillBelow(n, file, done, rests, m);
    RestsAscend(n, file, done, rests, m);
    LessApart(n, file, done, rests, m);
    BagWithout(rests, m);
  }

  lemma {:induction false} RestsAscend(n: nat, file: seq<Record>, done: seq<Record>, rests: seq<seq<Record>>, m: nat)
    requires Merging(n, file, done, rests) && LeastHead(rests, m)
    ensures AreRecords(n, done + [rests[m][0]]) && Ascending(done + [rests[m][0]])
    ensures var less := rests[m := rests[m][1..]];
            forall r | 0 <= r < |less| :: AreRecords(n, less[r]) && Ascending(less[r])
  {
    hide Rank, IsRecord, Bag;
    forall k | 0 <= k < |done| ensures Rank(done[k]) < Rank(rests[m][0]) {
    }
    assert IsRecord(n, rests[m][0]);
    TailAscends(n, rests[m]);
  }

  lemma {:induction false} TailAscends(n: nat, s: seq<Record>)
    requires AreRecords(n, s) && Ascending(s) && s != []
    ensures AreRecords(n, s[1..]) && Ascending(s[1..])
  {
    hide Rank, IsRecord;
  }

  lemma {:induction false} StillBelow(n: nat, file: seq<Record>, done: seq<Record>, rests: seq<seq<Record>>, m: nat)
    requires Merging(n, file, done, rests) && LeastHead(rests, m)
    ensures var more, less := done + [rests[m][0]], rests[m := rests[m][1..]];
            forall k, r, i | 0 <= k < |more| && 0 <= r < |less| && 0 <= i < |less[r]| :: Rank(more[k]) < Rank(less[r][i])
  {
    hide Rank, IsRecord;
    var more, less := done + [rests[m][0]], rests[m := rests[m][1..]];
    forall k, r, i | 0 <= k < |more| && 0 <= r < |less| && 0 <= i < |less[r]|
      ensures Rank(more[k]) < Rank(less[r][i])
    {
      var at := if r == m then i + 1 else i;
      assert less[r][i] == rests[r][at];
      if k < |done| {
        assert Rank(done[k]) < Rank(rests[r][at]);
      } else {
        LeastIsBelow(n, file, done, rests, m, r, at);
      }
    }
  }

  lemma {:induction false} LessApart(n: nat, file: seq<Record>, done: seq<Record>, rests: seq<seq<Record>>, m: nat)
    requires Merging(n, file, done, rests) && m < |rests| && rests[m] != []
    ensures var less := rests[m := rests[m][1..]];
            forall r, s | 0 <= r < s < |less| :: forall i, j | 0 <= i < |less[r]| && 0 <= j < |less[s]| ::
              less[r][i] != less[s][j]
  {
    hide Rank, IsRecord;
    var less := rests[m := rests[m][1..]];
    forall r, s | 0 <= r < s < |less|
      ensures forall i, j | 0 <= i < |less[r]| && 0 <= j < |less[s]| :: less[r][i] != less[s][j]
    {
      forall i, j | 0 <= i < |less[r]| && 0 <= j < |less[s]| ensures less[r][i] != less[s][j] {
        assert rests[r][if r == m then i + 1 else i] != rests[s][if s == m then j + 1 else j];
      }
    }
  }

  // ----- reading a run block by block ------------------------------------------------------------------------

  /** Where the merge stands in a run: the block in memory, the place in it, and where block and run end. */
  datatype Cursor = Cursor(buffer: seq<Record>, pos: nat, endPos: nat, currentBlock: nat, endBlock: nat)

  /** How the file is cut. */
  datatype Layout = Layout(block: nat, blocksPerRun: nat, totalRuns: nat, blocksInLastRun: nat, tuplesInLastBlock: nat) {
    function Size(): nat {
      blocksPerRun * block
    }

    function EndBlock(run: nat): nat {
      if run + 1 == totalRuns then blocksInLastRun else blocksPerRun
    }

    /** Where a block begins in its run. */
    function Offset(b: nat): nat {
      b * block
    }

    /** Where a run begins in the file. */
    function Begin(run: nat): nat {
      run * Size()
    }

    /** How many tuples there are in a block of a run. */
    function Tuples(run: nat, b: nat): nat {
      if run + 1 == totalRuns && b + 1 == blocksInLastRun then tuplesInLastBlock else block
    }
  }

  /** The layout is that of the file. */
  ghost predicate LaidOut(file: seq<Record>, l: Layout) {
    && 0 < l.block && 0 < l.blocksPerRun && 0 < l.Size() && 0 < l.totalRuns
    && l.totalRuns == RoundUp(|file|, l.Size())
    && 1 <= l.tuplesInLastBlock <= l.block && 1 <= l.blocksInLastRun <= l.blocksPerRun
    && (forall run | 0 <= run < l.totalRuns ::
          |RunOf(file, l.Size(), run)| == l.Offset(l.EndBlock(run) - 1) + l.Tuples(run, l.EndBlock(run) - 1))
  }

  /** The cursor stands at the first tuple that is left of its run. */
  ghost predicate Stands(file: seq<Record>, l: Layout, run: nat, c: Cursor, rest: seq<Record>) {
    && run < l.totalRuns && c.currentBlock < c.endBlock == l.EndBlock(run)
    && c.pos < c.endPos == |c.buffer| == l.Tuples(run, c.currentBlock)
    && var r, from := RunOf(file, l.Size(), run), l.Offset(c.currentBlock);
    && from + c.endPos <= |r|
    && c.buffer == r[from..from + c.endPos] && rest == r[from + c.pos..]
  }

  /** A block is a piece of its run. */
  lemma {:induction false} BlockOfRun(file: seq<Record>, l: Layout, run: nat, b: nat)
    requires LaidOut(file, l) && run < l.totalRuns && b < l.EndBlock(run)
    ensures var r, from, end := RunOf(file, l.Size(), run), l.Offset(b), l.Offset(b) + l.Tuples(run, b);
            && l.Offset(b) < end <= |r| && l.Offset(0) == 0 && l.Begin(run) == run * l.Size()
            && (b + 1 == l.EndBlock(run) ==> end == |r|)
            && (b + 1 < l.EndBlock(run) ==> end == l.Offset(b + 1))
            && Read(file, l.Begin(run) + from, l.block) == r[from..end]
  {
    var r, from := RunOf(file, l.Size(), run), l.Offset(b);
    var last := l.EndBlock(run) - 1;
    hide RunOf, Read, RoundUp;
    StartOfRun(l.block, b, last);
    assert (b + 1) * l.block == b * l.block + l.block;
    StartOfRun(l.block, b + 1, l.blocksPerRun);
    if b < last {
      StartOfRun(l.block, b + 1, last);
    }
    RunIs(file, l.Size(), run);
    PieceOfRead(file, l.Begin(run), l.Size(), from, l.block);
  }

  lemma RunIs(file: seq<Record>, size: nat, run: nat)
    ensures RunOf(file, size, run) == Read(file, run * size, size)
  {
  }

  lemma PieceOfRead(file: seq<Record>, start: nat, size: nat, from: nat, count: nat)
    requires from + count <= size && from <= |Read(file, start, size)|
    ensures Read(file, start + from, count) == Read(file, start, size)[from..Min(from + count, |Read(file, start, size)|)]
  {
    if start + from <= |file| {
      var whole, end := Read(file, start, size), Min(from + count, |Read(file, start, size)|);
      assert whole == file[start..Min(start + size, |file|)];
      assert whole[from..end] == file[start + from..start + end];
    }
  }

  /** Opening a run: its first block is read. */
  lemma Opened(file: seq<Record>, l: Layout, run: nat)
    requires LaidOut(file, l) && run < l.totalRuns
    ensures var buffer := Read(file, l.Begin(run), l.block);
            && |buffer| == l.Tuples(run, 0) > 0
            && Stands(file, l, run, Cursor(buffer, 0, l.Tuples(run, 0), 0, l.EndBlock(run)), RunOf(file, l.Size(), run))
  {
    hide Read, RunOf;
    BlockOfRun(file, l, run, 0);
    assert RunOf(file, l.Size(), run)[0..] == RunOf(file, l.Size(), run);
  }

  /** The first tuple that is left is the one under the cursor. */
  lemma HeadOfRun(file: seq<Record>, l: Layout, run: nat, c: Cursor, rest: seq<Record>)
    requires Stands(file, l, run, c, rest)
    ensures rest != [] && rest[0] == c.buffer[c.pos]
  {
    hide RunOf;
  }

  lemma UnderCursor(file: seq<Record>, l: Layout, run: nat, c: Cursor, rest: seq<Record>)
    requires Stands(file, l, run, c, rest)
    ensures c.pos < |c.buffer|
  {
  }

  /** One tuple on: inside the block, in the next block, or past the end of the run. */
  lemma Advanced(file: seq<Record>, l: Layout, run: nat, c: Cursor, rest: seq<Record>)
    requires LaidOut(file, l) && Stands(file, l, run, c, rest)
    ensures rest != [] && c.pos < c.endPos && c.currentBlock < c.endBlock
    ensures c.pos + 1 < c.endPos ==> Stands(file, l, run, c.(pos := c.pos + 1), rest[1..])
    ensures c.pos + 1 == c.endPos && c.currentBlock + 1 == c.endBlock ==> rest[1..] == []
    ensures c.pos + 1 == c.endPos && c.currentBlock + 1 < c.endBlock ==>
              var b := c.currentBlock + 1;
              var next := Cursor(Read(file, l.Begin(run) + l.Offset(b), l.block), 0, l.Tuples(run, b), b, c.endBlock);
              Stands(file, l, run, next, rest[1..])
  {
    hide RunOf, Read, LaidOut, Layout.Offset, Layout.Tuples, Layout.EndBlock, Layout.Size, Layout.Begin;
    var r, from := RunOf(file, l.Size(), run), l.Offset(c.currentBlock);
    BlockOfRun(file, l, run, c.currentBlock);
    assert rest[1..] == r[from + c.pos + 1..];
    if c.currentBlock + 1 < c.endBlock {
      BlockOfRun(file, l, run, c.currentBlock + 1);
    }
  }

  /** The runs that are not used up have their first tuples in the queue. */
  ghost predicate InStep(file: seq<Record>, l: Layout, cursors: seq<Cursor>, queue: map<nat, Record>, rests: seq<seq<Record>>) {
    && |cursors| == |rests| == l.totalRuns && (forall run | run in queue :: run < l.totalRuns)
    && (forall run | 0 <= run < l.totalRuns ::
          if run in queue then
            Stands(file, l, run, cursors[run], rests[run]) && cursors[run].pos < |cursors[run].buffer|
            && queue[run] == cursors[run].buffer[cursors[run].pos]
          else rests[run] == [])
  }

  /** The least record in the queue, as the priority queue has it on top. */
  method Top(queue: map<nat, Record>, n: nat, runs: nat) returns (m: nat)
    requires queue != map[] && (forall r | r in queue :: r < runs && IsRecord(n, queue[r]))
    ensures m in queue && forall r | r in queue :: Rank(queue[m]) <= Rank(queue[r])
  {
    ghost var some :| some in queue;
    m := runs;
    for r := 0 to runs
      invariant m == runs || m in queue
      invariant m == runs ==> forall k | k in queue :: k >= r
      invariant m != runs ==> m in queue && forall k | k in queue && k < r :: Rank(queue[m]) <= Rank(queue[k])
    {
      if r in queue {
        if m == runs {
          m := r;
        } else {
          var order := Compare(n, queue[r], queue[m]);
          if order == Smaller {
            m := r;
          }
        }
      }
    }
  }

  lemma {:induction false} TopIsLeast(n: nat, file: seq<Record>, l: Layout, cursors: seq<Cursor>, queue: map<nat, Record>,
                                      done: seq<Record>, rests: seq<seq<Record>>, m: nat)
    requires LaidOut(file, l) && InStep(file, l, cursors, queue, rests) && m in queue
    requires forall r | r in queue :: Rank(queue[m]) <= Rank(queue[r])
    ensures LeastHead(rests, m) && rests[m][0] == queue[m]
  {
    forall r | 0 <= r < |rests| && rests[r] != [] ensures r in queue && rests[r][0] == queue[r] {
      HeadOfRun(file, l, r, cursors[r], rests[r]);
    }
    HeadOfRun(file, l, m, cursors[m], rests[m]);
  }

  lemma {:induction false} QueueHasRecords(n: nat, file: seq<Record>, l: Layout, cursors: seq<Cursor>, queue: map<nat, Record>,
                                           done: seq<Record>, rests: seq<seq<Record>>)
    requires LaidOut(file, l) && InStep(file, l, cursors, queue, rests) && Merging(n, file, done, rests)
    ensures forall r | r in queue :: r < l.totalRuns && IsRecord(n, queue[r])
  {
    forall r | r in queue ensures IsRecord(n, queue[r]) {
      HeadOfRun(file, l, r, cursors[r], rests[r]);
    }
  }

  lemma {:induction false} QueueIsEmpty(file: seq<Record>, l: Layout, cursors: seq<Cursor>, rests: seq<seq<Record>>)
    requires InStep(file, l, cursors, map[], rests)
    ensures Bag(rests) == multiset{}
  {
    BagOfNothing(rests);
  }

  // ----- the sort -------------------------------------------------------------------------------------------

  /** Every run is sorted, as the reordering of the columns has left it, and no tuple occurs twice. */
  ghost predicate Sortable(n: nat, file: seq<Record>, size: nat) {
    && AreRecords(n, file)
    && (forall i, j | 0 <= i < j < |file| :: file[i] != file[j])
    && (forall run: nat | run * size < |file| :: Ascending(RunOf(file, size, run)))
  }

  lemma {:induction false} MergeStarts(n: nat, file: seq<Record>, size: nat, runs: nat)
    requires 0 < size && Sortable(n, file, size) && file != [] && runs == RoundUp(|file|, size)
    ensures Merging(n, file, [], RunsOf(file, size, runs))
  {
    hide Rank, IsRecord, RoundUp, RunOf, Bag, Sortable;
    var rests := RunsOf(file, size, runs);
    BagOfAll(file, size, runs);
    forall r | 0 <= r < runs ensures AreRecords(n, rests[r]) && Ascending(rests[r]) {
      RunIsSorted(n, file, size, runs, r);
    }
    forall r, s | 0 <= r < s < |rests|
      ensures forall i, j | 0 <= i < |rests[r]| && 0 <= j < |rests[s]| :: rests[r][i] != rests[s][j]
    {
      RunsApart(n, file, size, r, s);
    }
  }

  lemma {:induction false} BagOfAll(file: seq<Record>, size: nat, runs: nat)
    requires 0 < size && file != [] && runs == RoundUp(|file|, size)
    ensures Bag(RunsOf(file, size, runs)) == multiset(file)
  {
    var q, r := Pieces(|file|, size);
    RoundUpIs(|file|, size, q, r);
    assert runs * size == q * size + size >= |file|;
    BagOfRuns(file, size, runs);
    assert Read(file, 0, runs * size) == file;
  }

  lemma {:induction false} RunIsSorted(n: nat, file: seq<Record>, size: nat, runs: nat, run: nat)
    requires 0 < size && Sortable(n, file, size) && file != [] && runs == RoundUp(|file|, size) && run < runs
    ensures AreRecords(n, RunOf(file, size, run)) && Ascending(RunOf(file, size, run))
  {
    hide Rank, IsRecord;
    var q, r := Pieces(|file|, size);
    RoundUpIs(|file|, size, q, r);
    StartOfRun(size, run, q);
    assert run * size < |file|;
  }

  lemma {:induction false} RunsApart(n: nat, file: seq<Record>, size: nat, r: nat, s: nat)
    requires Sortable(n, file, size) && r < s
    ensures forall i, j | 0 <= i < |RunOf(file, size, r)| && 0 <= j < |RunOf(file, size, s)| ::
              RunOf(file, size, r)[i] != RunOf(file, size, s)[j]
  {
    hide Rank, IsRecord, Ascending;
    assert r * size + size == (r + 1) * size;
    StartOfRun(size, r + 1, s);
    forall i, j | 0 <= i < |RunOf(file, size, r)| && 0 <= j < |RunOf(file, size, s)|
      ensures RunOf(file, size, r)[i] != RunOf(file, size, s)[j]
    {
      assert RunOf(file, size, r)[i] == file[r * size + i] && RunOf(file, size, s)[j] == file[s * size + j];
    }
  }

  /** The layout as it is computed from the length of the file. */
  function LayoutOf(file: seq<Record>, block: nat, blocks: nat): Layout
    requires 0 < block && 0 < blocks && 0 < blocks * block
  {
    Layout(block, blocks, RoundUp(|file|, blocks * block), LastPart(RoundUp(|file|, block), blocks), LastPart(|file|, block))
  }

  lemma LayoutIs(file: seq<Record>, block: nat, blocks: nat)
    requires 0 < block && 0 < blocks && file != []
    ensures 0 < blocks * block && LaidOut(file, LayoutOf(file, block, blocks))
  {
    hide RoundUp, LastPart, RunOf;
    var q, r := Pieces(|file|, blocks * block);
    RoundUpIs(|file|, blocks * block, q, r);
    var l := LayoutOf(file, block, blocks);
    RunLengths(file, block, blocks, 0);
    forall run | 0 <= run < l.totalRuns
      ensures |RunOf(file, l.Size(), run)| == l.Offset(l.EndBlock(run) - 1) + l.Tuples(run, l.EndBlock(run) - 1)
    {
      LayoutRun(file, block, blocks, l, run);
    }
  }

  lemma LayoutRun(file: seq<Record>, block: nat, blocks: nat, l: Layout, run: nat)
    requires 0 < block && 0 < blocks && 0 < blocks * block && file != [] && l == LayoutOf(file, block, blocks) && run < l.totalRuns
    requires 0 < l.totalRuns && 1 <= l.EndBlock(run)
    ensures |RunOf(file, l.Size(), run)| == l.Offset(l.EndBlock(run) - 1) + l.Tuples(run, l.EndBlock(run) - 1)
  {
    hide RoundUp, LastPart, RunOf;
    RunLengths(file, block, blocks, run);
    assert (blocks - 1) * block + block == blocks * block;
  }

  /** Every leaf before the last one is full. */
  predicate Packed(file: seq<LeafNode>, max: nat) {
    forall i | 0 <= i < |file| - 1 :: |file[i].records| == max
  }

  lemma {:induction false} FullLeaves(file: seq<LeafNode>, max: nat)
    requires forall i | 0 <= i < |file| :: |file[i].records| == max
    ensures |RecordsOf(file)| == |file| * max
  {
    if file != [] {
      FullLeaves(file[..|file| - 1], max);
      assert (|file| - 1) * max + max == |file| * max;
    }
  }

  /** The leaf that was filled is not the last one when there is another tuple. */
  lemma NotLast(total: nat, max: nat, leaf: nat)
    requires 0 < max && (leaf + 1) * max < total
    ensures leaf + 1 < RoundUp(total, max)
  {
    var q, r := Pieces(total, max);
    RoundUpIs(total, max, q, r);
    assert (q + 1) * max == q * max + max;
    if q < leaf + 1 {
      StartOfRun(max, q + 1, leaf + 1);
    }
  }

  /** The index under construction: what has been put out is in the leaves and the output block. */
  ghost predicate Writing(w: BptWriter, leafBlock: nat, output: seq<Record>, done: seq<Record>)
    reads w
  {
    && w.z.Valid() && leafBlock == |w.leafFile| && (if leafBlock == 0 then w.Untouched() else w.Valid(leafBlock))
    && (forall i | 0 <= i < |w.leafFile| :: |w.leafFile[i].records| == w.z.leafMax)
    && |output| <= w.z.leafMax && done == RecordsOf(w.leafFile) + output
    && (output == [] ==> done == [])
  }

  /** The output block goes to the leaf file when it is full and there is another tuple to come. */
  method Flush(w: BptWriter, leafBlock: nat, output: seq<Record>, leafLastBlock: nat, ghost done: seq<Record>, ghost total: nat)
    requires Writing(w, leafBlock, output, done) && |output| == w.z.leafMax
    requires AreRecords(w.z.n, done) && Ascending(done) && |done| < total && leafLastBlock == RoundUp(total, w.z.leafMax)
    modifies w
    ensures w.z.Valid() && leafBlock + 1 == |w.leafFile| && w.Valid(leafBlock + 1) && RecordsOf(w.leafFile) == done
    ensures forall i | 0 <= i < |w.leafFile| :: |w.leafFile[i].records| == w.z.leafMax
  {
    hide Rank, IsRecord, Ascending, BptWriter.Valid, RecordsOf, RoundUp;
    FullLeaves(w.leafFile, w.z.leafMax);
    assert (leafBlock + 1) * w.z.leafMax == leafBlock * w.z.leafMax + w.z.leafMax;
    NotLast(total, w.z.leafMax, leafBlock);
    TailAreRecords(w.z.n, RecordsOf(w.leafFile), output);
    w.FlushBlock(output, leafBlock, if leafBlock + 1 < leafLastBlock then leafBlock + 1 else 0);
  }

  lemma TailAreRecords(n: nat, a: seq<Record>, b: seq<Record>)
    requires AreRecords(n, a + b)
    ensures AreRecords(n, b)
  {
    forall i | 0 <= i < |b| ensures IsRecord(n, b[i]) {
      assert (a + b)[|a| + i] == b[i];
    }
  }

  /** Merge the runs through one block of each in memory, writing leaves as they fill up. */
  method MergeRuns(w: BptWriter, file: seq<Record>, block: nat, blocks: nat)
    requires w.z.Valid() && w.Untouched() && 0 < block && 0 < blocks && file != [] && Sortable(w.z.n, file, blocks * block)
    modifies w
    ensures w.Valid(0) && Packed(w.leafFile, w.z.leafMax)
    ensures Ascending(RecordsOf(w.leafFile)) && multiset(RecordsOf(w.leafFile)) == multiset(file)
  {
    hide Rank, IsRecord, Ascending, Merging, InStep, LaidOut, Stands, BptWriter.Valid, RecordsOf, RoundUp, LastPart, Bag, Sortable, RunsOf, RunOf, Read;
    var n := w.z.n;
    LayoutIs(file, block, blocks);
    var l := LayoutOf(file, block, blocks);
    ghost var rests := RunsOf(file, l.Size(), l.totalRuns);
    MergeStarts(n, file, l.Size(), l.totalRuns);
    var cursors, queue := OpenRuns(file, l, rests);
    var output, leafBlock, leafLastBlock := [], 0, RoundUp(|file|, w.z.leafMax);
    ghost var done: seq<Record> := [];
    NothingWritten(w);
    while |queue| > 0
      invariant InStep(file, l, cursors, queue, rests) && Merging(n, file, done, rests)
      invariant Writing(w, leafBlock, output, done)
      decreases |Bag(rests)|
    {
      QueueHasRecords(n, file, l, cursors, queue, done, rests);
      var m := Top(queue, n, l.totalRuns);
      var record := queue[m];
      TopIsLeast(n, file, l, cursors, queue, done, rests, m);
      MergingFacts(n, file, done, rests, m);
      ghost var whole := queue;
      queue := queue - {m};
      if |output| == w.z.leafMax {
        Flush(w, leafBlock, output, leafLastBlock, done, |file|);
        leafBlock := leafBlock + 1;
        output := [];
      }
      output := output + [record];
      PutOut(n, file, done, rests, m);
      done := done + [record];
      cursors, queue := AdvanceRun(file, l, cursors, queue, m, whole, rests);
      rests := rests[m := rests[m][1..]];
    }
    AllOut(n, file, l, cursors, queue, done, rests);
    if |output| != 0 {
      TailAreRecords(n, RecordsOf(w.leafFile), output);
      w.FlushBlock(output, leafBlock, 0);
    }
  }

  lemma NothingWritten(w: BptWriter)
    requires w.z.Valid() && w.Untouched()
    ensures Writing(w, 0, [], [])
  {
  }

  lemma {:induction false} MergingFacts(n: nat, file: seq<Record>, done: seq<Record>, rests: seq<seq<Record>>, m: nat)
    requires Merging(n, file, done, rests) && m < |rests| && rests[m] != []
    ensures AreRecords(n, done) && Ascending(done) && |done| < |file|
    ensures |Bag(rests[m := rests[m][1..]])| < |Bag(rests)|
  {
    BagWithout(rests, m);
    assert |multiset(done) + Bag(rests)| == |multiset(file)|;
  }

  lemma {:induction false} AllOut(n: nat, file: seq<Record>, l: Layout, cursors: seq<Cursor>, queue: map<nat, Record>,
                                  done: seq<Record>, rests: seq<seq<Record>>)
    requires InStep(file, l, cursors, queue, rests) && Merging(n, file, done, rests) && |queue| == 0 && file != []
    ensures AreRecords(n, done) && Ascending(done) && multiset(done) == multiset(file) && done != []
  {
    assert queue == map[];
    QueueIsEmpty(file, l, cursors, rests);
    assert |multiset(file)| == |file|;
  }

  /** Fill the buffers, and put the first tuple of every run in the queue. */
  method OpenRuns(file: seq<Record>, l: Layout, ghost rests: seq<seq<Record>>) returns (cursors: seq<Cursor>, queue: map<nat, Record>)
    requires LaidOut(file, l) && rests == RunsOf(file, l.Size(), l.totalRuns)
    ensures InStep(file, l, cursors, queue, rests)
  {
    hide LaidOut, Stands, RunOf, Read;
    cursors, queue := [], map[];
    for run := 0 to l.totalRuns
      invariant |cursors| == run && (forall r :: r in queue <==> 0 <= r < run)
      invariant forall r | 0 <= r < run ::
                  && Stands(file, l, r, cursors[r], rests[r]) && cursors[r].pos < |cursors[r].buffer|
                  && queue[r] == cursors[r].buffer[cursors[r].pos]
    {
      Opened(file, l, run);
      var buffer := Read(file, l.Begin(run), l.block);
      cursors := cursors + [Cursor(buffer, 0, l.Tuples(run, 0), 0, l.EndBlock(run))];
      queue := queue[run := buffer[0]];
    }
  }

  /** Move on in run m, reading its next block when this one is used up, and put its next tuple in the queue. */
  method AdvanceRun(file: seq<Record>, l: Layout, before: seq<Cursor>, less: map<nat, Record>, m: nat, ghost whole: map<nat, Record>,
                    ghost rests: seq<seq<Record>>)
    returns (cursors: seq<Cursor>, queue: map<nat, Record>)
    requires LaidOut(file, l) && InStep(file, l, before, whole, rests) && m in whole && less == whole - {m}
    ensures m < |rests| && rests[m] != [] && InStep(file, l, cursors, queue, rests[m := rests[m][1..]])
  {
    hide LaidOut, Stands, RunOf, Read;
    cursors, queue := before, less;
    Advanced(file, l, m, before[m], rests[m]);
    var c := cursors[m].(pos := cursors[m].pos + 1);
    if c.pos == c.endPos {
      c := c.(pos := 0, currentBlock := c.currentBlock + 1);
      if c.currentBlock == c.endBlock {
        cursors := cursors[m := c];
        return;
      }
      c := c.(buffer := Read(file, l.Begin(m) + l.Offset(c.currentBlock), l.block), endPos := l.Tuples(m, c.currentBlock));
    }
    cursors := cursors[m := c];
    HeadOfRun(file, l, m, c, rests[m][1..]);
    UnderCursor(file, l, m, c, rests[m][1..]);
    queue := queue[m := c.buffer[c.pos]];
  }

  /** When everything fits in one run, the file is read leaf by leaf. */
  method WriteRun(w: BptWriter, file: seq<Record>)
    requires w.z.Valid() && w.Untouched() && file != [] && AreRecords(w.z.n, file) && Ascending(file)
    modifies w
    ensures w.Valid(0) && Packed(w.leafFile, w.z.leafMax) && RecordsOf(w.leafFile) == file
  {
    hide Rank, IsRecord, BptWriter.Valid, RecordsOf;
    var leafBlock, current := 0, 0;
    var max := w.z.leafMax;
    NothingWritten(w);
    assert file[..0] == [];
    while true
      invariant current < |file| && w.z.Valid() && w.z.leafMax == max && leafBlock == |w.leafFile|
      invariant if leafBlock == 0 then w.Untouched() else w.Valid(leafBlock)
      invariant RecordsOf(w.leafFile) == file[..current]
      invariant forall i | 0 <= i < |w.leafFile| :: |w.leafFile[i].records| == max
      decreases |file| - current
    {
      var buffer := Read(file, current, max);
      assert file[..current] + buffer == file[..Min(current + max, |file|)];
      SliceIsSorted(w.z.n, file, current, Min(current + max, |file|));
      if current + max < |file| {
        w.FlushBlock(buffer, leafBlock, leafBlock + 1);
        current := current + max;
        leafBlock := leafBlock + 1;
      } else {
        assert file[..|file|] == file;
        w.FlushBlock(buffer, leafBlock, 0);
        break;
      }
    }
  }

  lemma {:induction false} SliceIsSorted(n: nat, file: seq<Record>, a: nat, b: nat)
    requires AreRecords(n, file) && Ascending(file) && a <= b <= |file|
    ensures AreRecords(n, file[a..b]) && Ascending(file[..b])
  {
  }

  /** For every file of distinct tuples, sorted run by run: an index over the sorted tuples, with every leaf
      full but perhaps the last.  An empty file gives an empty leaf below an empty root. */
  method MergeSort(z: Sizes, file: seq<Record>, block: nat, blocks: nat) returns (w: BptWriter)
    requires z.Valid() && 0 < block && 0 < blocks && Sortable(z.n, file, blocks * block)
    ensures fresh(w) && w.z == z
    ensures file == [] ==> w.leafFile == [LeafNode([], 0)] && w.pages == [DirNode([], [0])]
    ensures file != [] ==>
              && w.Valid(0) && Packed(w.leafFile, z.leafMax)
              && Ascending(RecordsOf(w.leafFile)) && multiset(RecordsOf(w.leafFile)) == multiset(file)
  {
    hide Rank, IsRecord, BptWriter.Valid, RecordsOf, Ascending, RoundUp, LastPart;
    w := new BptWriter(z);
    if |file| == 0 {
      w.MakeEmpty();
      return;
    }
    LayoutIs(file, block, blocks);
    var totalRuns := RoundUp(|file|, blocks * block);
    if totalRuns == 1 {
      OneRun(z.n, file, blocks * block);
      WriteRun(w, file);
    } else {
      MergeRuns(w, file, block, blocks);
    }
  }

  lemma OneRun(n: nat, file: seq<Record>, size: nat)
    requires 0 < size && file != [] && RoundUp(|file|, size) == 1 && Sortable(n, file, size)
    ensures Ascending(file)
  {
    hide Rank, IsRecord;
    var q, r := Pieces(|file|, size);
    RoundUpIs(|file|, size, q, r);
    assert RunOf(file, size, 0) == file;
    assert 0 * size < |file|;
  }
}
