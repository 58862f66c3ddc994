/** The page store behind the buffer manager: files of pages on disk, and a pool of frames that
    caches some of them.  These are values; the class BufferManager and the protocol of many
    threads both change their state by the functions defined here. */
module PagePools {
  import opened Options

  newtype Byte = b: int | 0 <= b < 256
  type Bytes = seq<Byte>

  const PAGE_SIZE: nat := 4096
  function Zeros(): Bytes {
    seq(PAGE_SIZE, _ => 0 as Byte)
  }

  datatype PageId = PageId(file: nat, number: nat)

  // ----- Files

  /** What the disk holds: the pages of each file, in order. */
  type Disk = map<nat, seq<Bytes>>

  function File(disk: Disk, file: nat): seq<Bytes> {
    if file in disk then disk[file] else []
  }

  function PageCount(disk: Disk, file: nat): nat {
    |File(disk, file)|
  }

  /** The contents of a page; a page past the end of its file reads as zeros. */
  function OnDisk(disk: Disk, id: PageId): Bytes {
    if id.number < PageCount(disk, id.file) then File(disk, id.file)[id.number] else Zeros()
  }

  function Blank(n: nat): seq<Bytes> {
    seq(n, _ => Zeros())
  }

  /** `ftruncate` to n pages of a file that is not longer than that. */
  function Lengthened(pages: seq<Bytes>, n: nat): seq<Bytes> {
    if n <= |pages| then pages else pages + Blank(n - |pages|)
  }

  function WrittenOut(disk: Disk, id: PageId, bytes: Bytes): Disk {
    var pages := Lengthened(File(disk, id.file), id.number + 1);
    disk[id.file := pages[id.number := bytes]]
  }

  /** Reading a page past the end of its file lengthens the file up to that page, without it. */
  function ReadFrom(disk: Disk, id: PageId): Disk {
    if PageCount(disk, id.file) <= id.number
    then disk[id.file := Lengthened(File(disk, id.file), id.number)]
    else disk
  }

  lemma WrittenOutReads(disk: Disk, id: PageId, bytes: Bytes, other: PageId)
    ensures OnDisk(WrittenOut(disk, id, bytes), other) == if other == id then bytes else OnDisk(disk, other)
    ensures PageCount(WrittenOut(disk, id, bytes), other.file) ==
            if other.file == id.file && PageCount(disk, id.file) <= id.number then id.number + 1
            else PageCount(disk, other.file)
  {
  }

  lemma ReadFromReads(disk: Disk, id: PageId, other: PageId)
    ensures OnDisk(ReadFrom(disk, id), other) == OnDisk(disk, other)
    ensures PageCount(ReadFrom(disk, id), other.file) ==
            if other.file == id.file && PageCount(disk, id.file) <= id.number then id.number
            else PageCount(disk, other.file)
  {
  }

  // ----- The pool

  datatype Frame = Frame(id: Option<PageId>, bytes: Bytes, pins: nat, usage: nat, dirty: bool)

  datatype Pool = Pool(frames: seq<Frame>, pages: map<PageId, nat>, disk: Disk, clock: nat)

  /** The page map and the frames agree one to one; a frame that is not dirty shows the disk. */
  ghost predicate Sound(pool: Pool) {
    && pool.clock < |pool.frames|
    && (forall id | id in pool.pages :: pool.pages[id] < |pool.frames| && pool.frames[pool.pages[id]].id == Some(id))
    && (forall f | 0 <= f < |pool.frames| && pool.frames[f].id.Some? ::
          pool.frames[f].id.value in pool.pages && pool.pages[pool.frames[f].id.value] == f)
    && (forall f | 0 <= f < |pool.frames| && pool.frames[f].id.None? :: !pool.frames[f].dirty)
    && (forall f | 0 <= f < |pool.frames| && pool.frames[f].id.Some? && !pool.frames[f].dirty ::
          pool.frames[f].bytes == OnDisk(pool.disk, pool.frames[f].id.value))
  }

  /** The plain page store that the pool stands for. */
  ghost function Stored(pool: Pool, id: PageId): Bytes {
    if id in pool.pages && pool.pages[id] < |pool.frames| then pool.frames[pool.pages[id]].bytes
    else OnDisk(pool.disk, id)
  }

  // ----- What one action does to the pool

  function Unused(frames: nat): (pool: Pool) {
    Pool(seq(frames, _ => Frame(None, [], 0, 0, false)), map[], map[], 0)
  }

  function Put(pool: Pool, f: nat, frame: Frame): Pool
    requires f < |pool.frames|
  {
    pool.(frames := pool.frames[f := frame])
  }

  function PinCounted(pool: Pool, f: nat): Pool
    requires f < |pool.frames|
  {
    Put(pool, f, pool.frames[f].(pins := pool.frames[f].pins + 1))
  }

  function UseCounted(pool: Pool, f: nat): Pool
    requires f < |pool.frames|
  {
    Put(pool, f, pool.frames[f].(usage := pool.frames[f].usage + 1))
  }

  function PinDropped(pool: Pool, f: nat): Pool
    requires f < |pool.frames| && 0 < pool.frames[f].pins
  {
    Put(pool, f, pool.frames[f].(pins := pool.frames[f].pins - 1))
  }

  function Overwritten(pool: Pool, f: nat, bytes: Bytes): Pool
    requires f < |pool.frames|
  {
    Put(pool, f, pool.frames[f].(bytes := bytes, dirty := true))
  }

  function After(clock: nat, frames: nat): nat {
    if clock + 1 < frames then clock + 1 else 0
  }

  /** The clock leaves a frame: an unpinned one loses one use. */
  function Passed(pool: Pool): Pool
    requires pool.clock < |pool.frames|
    requires pool.frames[pool.clock].pins == 0 ==> 0 < pool.frames[pool.clock].usage
  {
    var frame := pool.frames[pool.clock];
    var swept := if frame.pins == 0 then frame.(usage := frame.usage - 1) else frame;
    Put(pool, pool.clock, swept).(clock := After(pool.clock, |pool.frames|))
  }

  /** The frame under the clock forgets its page, which is written out first when it is dirty. */
  function Evicted(pool: Pool): Pool
    requires pool.clock < |pool.frames|
  {
    var frame := pool.frames[pool.clock];
    var pages := if frame.id.Some? then pool.pages - {frame.id.value} else pool.pages;
    var disk := if frame.dirty && frame.id.Some? then WrittenOut(pool.disk, frame.id.value, frame.bytes) else pool.disk;
    Put(pool, pool.clock, frame.(id := None, dirty := false)).(pages := pages, disk := disk)
  }

  /** The frame under the clock takes page `id`, pinned once and used once. */
  function Loaded(pool: Pool, id: PageId): Pool
    requires pool.clock < |pool.frames|
  {
    var frame := Frame(Some(id), OnDisk(pool.disk, id), 1, 1, false);
    Put(pool, pool.clock, frame).(pages := pool.pages[id := pool.clock], disk := ReadFrom(pool.disk, id))
  }

  function Claimed(pool: Pool, id: PageId): Pool
    requires pool.clock < |pool.frames|
  {
    Loaded(Evicted(pool), id)
  }

  lemma PassedIs(pool: Pool)
    requires pool.clock < |pool.frames| && !CanStop(pool)
    ensures var frame := pool.frames[pool.clock];
            var uses := if frame.pins == 0 then frame.usage - 1 else frame.usage;
            && 0 <= uses
            && Passed(pool) == Pool(pool.frames[pool.clock := frame.(usage := uses)], pool.pages, pool.disk,
                                    if pool.clock + 1 < |pool.frames| then pool.clock + 1 else 0)
  {
  }

  lemma ClaimedIs(pool: Pool, id: PageId)
    requires Sound(pool) && id !in pool.pages
    ensures var frame := pool.frames[pool.clock];
            (frame.dirty ==> frame.id.Some?) &&
            var disk := if frame.dirty then WrittenOut(pool.disk, frame.id.value, frame.bytes) else pool.disk;
            var pages := if frame.id.Some? then pool.pages - {frame.id.value} else pool.pages;
            Claimed(pool, id) == Pool(pool.frames[pool.clock := Frame(Some(id), OnDisk(disk, id), 1, 1, false)],
                                      pages[id := pool.clock], ReadFrom(disk, id), pool.clock)
  {
  }

  function Flushed(pool: Pool, f: nat): Pool
    requires f < |pool.frames|
  {
    var frame := pool.frames[f];
    if frame.dirty && frame.id.Some?
    then Put(pool, f, frame.(dirty := false)).(disk := WrittenOut(pool.disk, frame.id.value, frame.bytes))
    else pool
  }

  /** What the store holds of a page that is not in memory: what the file has at its place, and past the
      end of the file, or of a file that was never written, 4096 zeros. */
  lemma UnreadPage(pool: Pool, id: PageId)
    requires id !in pool.pages
    ensures var disk := pool.disk;
            && (id.file in disk && id.number < |disk[id.file]| ==> Stored(pool, id) == disk[id.file][id.number])
            && (id.file !in disk || |disk[id.file]| <= id.number ==>
                  |Stored(pool, id)| == 4096 && forall k | 0 <= k < 4096 :: Stored(pool, id)[k] == 0)
  {
  }

  lemma CountIs(disk: Disk, file: nat)
    ensures PageCount(disk, file) == if file in disk then |disk[file]| else 0
  {
  }

  // ----- None of these actions changes the store, except a write, and that changes one page

  /** Pins and uses are not part of what the pool stores. */
  lemma CountersAreSilent(pool: Pool, f: nat, frame: Frame, id: PageId)
    requires Sound(pool) && f < |pool.frames|
    requires frame == pool.frames[f].(pins := frame.pins, usage := frame.usage)
    ensures Sound(Put(pool, f, frame)) && Stored(Put(pool, f, frame), id) == Stored(pool, id)
  {
  }

  lemma CountingKeeps(pool: Pool, f: nat, id: PageId)
    requires Sound(pool) && f < |pool.frames|
    ensures Sound(PinCounted(pool, f)) && Stored(PinCounted(pool, f), id) == Stored(pool, id)
    ensures Sound(UseCounted(pool, f)) && Stored(UseCounted(pool, f), id) == Stored(pool, id)
    ensures 0 < pool.frames[f].pins ==>
              Sound(PinDropped(pool, f)) && Stored(PinDropped(pool, f), id) == Stored(pool, id)
  {
    hide Sound, Stored;
    var frame := pool.frames[f];
    CountersAreSilent(pool, f, frame.(pins := frame.pins + 1), id);
    CountersAreSilent(pool, f, frame.(usage := frame.usage + 1), id);
    if 0 < frame.pins {
      CountersAreSilent(pool, f, frame.(pins := frame.pins - 1), id);
    }
  }

  lemma PassingKeeps(pool: Pool, id: PageId)
    requires Sound(pool)
    requires pool.frames[pool.clock].pins == 0 ==> 0 < pool.frames[pool.clock].usage
    ensures Sound(Passed(pool)) && Stored(Passed(pool), id) == Stored(pool, id)
  {
  }

  lemma OverwritingKeeps(pool: Pool, f: nat, bytes: Bytes, id: PageId)
    requires Sound(pool) && f < |pool.frames| && pool.frames[f].id.Some?
    ensures Sound(Overwritten(pool, f, bytes))
    ensures Stored(Overwritten(pool, f, bytes), id) ==
            if pool.frames[f].id == Some(id) then bytes else Stored(pool, id)
  {
  }

  lemma EvictingKeeps(pool: Pool, id: PageId)
    requires Sound(pool)
    ensures Sound(Evicted(pool)) && Stored(Evicted(pool), id) == Stored(pool, id)
  {
    var frame := pool.frames[pool.clock];
    if frame.dirty {
      forall other: PageId
        ensures OnDisk(WrittenOut(pool.disk, frame.id.value, frame.bytes), other) ==
                if other == frame.id.value then frame.bytes else OnDisk(pool.disk, other)
      {
        WrittenOutReads(pool.disk, frame.id.value, frame.bytes, other);
      }
    }
  }

  lemma ReadFromIsSilent(disk: Disk, id: PageId)
    ensures forall other: PageId :: OnDisk(ReadFrom(disk, id), other) == OnDisk(disk, other)
  {
    forall other: PageId ensures OnDisk(ReadFrom(disk, id), other) == OnDisk(disk, other) {
      ReadFromReads(disk, id, other);
    }
  }

  lemma LoadingKeeps(pool: Pool, wanted: PageId, id: PageId)
    requires Sound(pool) && pool.frames[pool.clock].id.None? && wanted !in pool.pages
    ensures Sound(Loaded(pool, wanted)) && Stored(Loaded(pool, wanted), id) == Stored(pool, id)
  {
    hide OnDisk, ReadFrom;
    ReadFromIsSilent(pool.disk, wanted);
  }

  /** A miss moves pages between disk and frames, and the store stays what it was. */
  lemma ClaimingKeeps(pool: Pool, wanted: PageId, id: PageId)
    requires Sound(pool) && wanted !in pool.pages
    ensures Sound(Claimed(pool, wanted)) && Stored(Claimed(pool, wanted), id) == Stored(pool, id)
    ensures Claimed(pool, wanted).frames[pool.clock].bytes == Stored(pool, wanted)
  {
    EvictingKeeps(pool, id);
    EvictingKeeps(pool, wanted);
    LoadingKeeps(Evicted(pool), wanted, id);
    LoadingKeeps(Evicted(pool), wanted, wanted);
  }

  lemma FlushingKeeps(pool: Pool, f: nat, id: PageId)
    requires Sound(pool) && f < |pool.frames|
    ensures Sound(Flushed(pool, f)) && Stored(Flushed(pool, f), id) == Stored(pool, id)
    ensures Flushed(pool, f).frames == pool.frames[f := pool.frames[f].(dirty := false)]
  {
    var frame := pool.frames[f];
    if frame.dirty {
      forall other: PageId
        ensures OnDisk(WrittenOut(pool.disk, frame.id.value, frame.bytes), other) ==
                if other == frame.id.value then frame.bytes else OnDisk(pool.disk, other)
      {
        WrittenOutReads(pool.disk, frame.id.value, frame.bytes, other);
      }
    } else {
      assert pool.frames[f := frame.(dirty := false)] == pool.frames;
    }
  }

  // ----- The clock

  /** How many frames the clock passes before it reaches frame f. */
  function Distance(pool: Pool, f: nat): (d: nat)
    requires pool.clock < |pool.frames| && f < |pool.frames|
    ensures d < |pool.frames|
  {
    if pool.clock <= f then f - pool.clock else f + |pool.frames| - pool.clock
  }

  /** How many frames the clock passes before frame f can be chosen, while f stays unpinned. */
  function Wait(pool: Pool, f: nat): nat
    requires pool.clock < |pool.frames| && f < |pool.frames|
  {
    pool.frames[f].usage * |pool.frames| + Distance(pool, f)
  }

  /** Every step of the clock brings every unpinned frame one step nearer. */
  lemma PassingNears(pool: Pool, f: nat)
    requires pool.clock < |pool.frames| && f < |pool.frames| && pool.frames[f].pins == 0
    requires pool.frames[pool.clock].pins == 0 ==> 0 < pool.frames[pool.clock].usage
    ensures Passed(pool).clock < |pool.frames| == |Passed(pool).frames|
    ensures Wait(Passed(pool), f) + 1 == Wait(pool, f)
  {
    if f == pool.clock {
      var n, usage := |pool.frames|, pool.frames[f].usage;
      assert (usage - 1) * n == usage * n - n;
    }
  }

  /** A frame that can be chosen at once is the one under the clock, without uses. */
  lemma NoWait(pool: Pool, f: nat)
    requires pool.clock < |pool.frames| && f < |pool.frames|
    ensures Wait(pool, f) == 0 <==> pool.clock == f && pool.frames[f].usage == 0
  {
    if 0 < pool.frames[f].usage {
      assert pool.frames[f].usage * |pool.frames| >= |pool.frames|;
    }
  }

  /** What is left of frame f after a sweep of `passes` steps: only its uses may have dropped. */
  predicate OnlyUsesDropped(before: Frame, after: Frame) {
    before.(usage := after.usage) == after && (0 < before.pins ==> after == before)
  }

  /** The second chance policy: the clock stops at the unpinned frame that has least to wait, and
      by then every unpinned frame has come that much nearer. */
  ghost predicate Swept(before: Pool, after: Pool) {
    && |after.frames| == |before.frames|
    && before.clock < |before.frames| && after.clock < |after.frames|
    && after.pages == before.pages && after.disk == before.disk
    && after.frames[after.clock].pins == 0 && after.frames[after.clock].usage == 0
    && (forall f | 0 <= f < |before.frames| :: OnlyUsesDropped(before.frames[f], after.frames[f]))
    && (forall f | 0 <= f < |before.frames| && before.frames[f].pins == 0 ::
          Wait(before, f) == Wait(before, after.clock) + Wait(after, f))
  }

  /** The sweep has exactly one outcome. */
  lemma SweptIsDetermined(before: Pool, one: Pool, two: Pool)
    requires Swept(before, one) && Swept(before, two)
    ensures one == two
  {
    NoWait(one, one.clock);
    NoWait(two, two.clock);
    var n := |before.frames|;
    assert before.frames[one.clock].pins == 0 by { assert OnlyUsesDropped(before.frames[one.clock], one.frames[one.clock]); }
    assert before.frames[two.clock].pins == 0 by { assert OnlyUsesDropped(before.frames[two.clock], two.frames[two.clock]); }
    assert Wait(before, one.clock) == Wait(before, two.clock);
    assert Wait(one, two.clock) == 0;
    NoWait(one, two.clock);
    forall f | 0 <= f < n ensures one.frames[f] == two.frames[f] {
      assert OnlyUsesDropped(before.frames[f], one.frames[f]);
      assert OnlyUsesDropped(before.frames[f], two.frames[f]);
      if before.frames[f].pins == 0 {
        assert Distance(one, f) == Distance(two, f);
        assert one.frames[f].usage * n == two.frames[f].usage * n;
        MoreUses(one.frames[f].usage, two.frames[f].usage, n);
        MoreUses(two.frames[f].usage, one.frames[f].usage, n);
      }
    }
    assert one.frames == two.frames;
  }

  lemma {:induction false} MoreUses(a: nat, b: nat, n: nat)
    requires 0 < n
    ensures a < b ==> a * n < b * n
  {
    if a < b {
      MoreUses(a, b - 1, n);
      assert b * n == (b - 1) * n + n;
    }
  }

  /** The sweep moves no page, so it changes neither the agreement nor the store. */
  lemma SweepingKeeps(before: Pool, after: Pool, id: PageId)
    requires Sound(before) && Swept(before, after)
    ensures Sound(after) && Stored(after, id) == Stored(before, id)
  {
    forall f | 0 <= f < |before.frames|
      ensures after.frames[f].id == before.frames[f].id && after.frames[f].bytes == before.frames[f].bytes
      ensures after.frames[f].dirty == before.frames[f].dirty
    {
      assert OnlyUsesDropped(before.frames[f], after.frames[f]);
    }
  }

  /** The clock has passed `passed` frames and could not stop at any of them. */
  ghost predicate SweptSoFar(before: Pool, now: Pool, passed: nat) {
    && Sound(now) && |now.frames| == |before.frames| && before.clock < |before.frames|
    && now.pages == before.pages && now.disk == before.disk
    && (forall f | 0 <= f < |before.frames| :: OnlyUsesDropped(before.frames[f], now.frames[f]))
    && (forall f | 0 <= f < |before.frames| && before.frames[f].pins == 0 ::
          Wait(before, f) == Wait(now, f) + passed)
  }

  predicate CanStop(pool: Pool)
    requires pool.clock < |pool.frames|
  {
    pool.frames[pool.clock].pins == 0 && pool.frames[pool.clock].usage == 0
  }

  lemma SweepStarts(before: Pool)
    requires Sound(before)
    ensures SweptSoFar(before, before, 0)
  {
  }

  /** While the sweep goes on it has passed no more frames than any unpinned frame had to wait. */
  lemma SweepIsNear(before: Pool, now: Pool, passed: nat, f: nat)
    requires SweptSoFar(before, now, passed) && f < |before.frames| && before.frames[f].pins == 0
    ensures passed <= Wait(before, f) && now.pages == before.pages
  {
  }

  lemma SweepPasses(before: Pool, was: Pool, passed: nat)
    requires SweptSoFar(before, was, passed) && !CanStop(was)
    ensures SweptSoFar(before, Passed(was), passed + 1)
  {
    PassingKeeps(was, PageId(0, 0));
    forall f | 0 <= f < |before.frames| && before.frames[f].pins == 0
      ensures Wait(before, f) == Wait(Passed(was), f) + passed + 1
    {
      assert OnlyUsesDropped(before.frames[f], was.frames[f]);
      PassingNears(was, f);
    }
    forall f | 0 <= f < |before.frames| ensures OnlyUsesDropped(before.frames[f], Passed(was).frames[f]) {
      assert OnlyUsesDropped(before.frames[f], was.frames[f]);
    }
  }

  lemma SweepStops(before: Pool, now: Pool, passed: nat)
    requires SweptSoFar(before, now, passed) && CanStop(now)
    ensures Swept(before, now)
  {
    NoWait(now, now.clock);
    assert OnlyUsesDropped(before.frames[now.clock], now.frames[now.clock]);
  }

  /** A hit changes nothing but the pins of one frame. */
  lemma HitIsSilent(before: Pool, id: PageId)
    requires Sound(before) && id in before.pages
    ensures var f := before.pages[id];
            var after := PinCounted(before, f);
            && f < |before.frames| && before.frames[f].id == Some(id)
            && Sound(after) && after.(frames := before.frames) == before
            && after.frames == before.frames[f := before.frames[f].(pins := before.frames[f].pins + 1)]
            && before.frames[f].bytes == Stored(before, id)
            && (forall other :: Stored(after, other) == Stored(before, other))
  {
    forall other ensures Stored(PinCounted(before, before.pages[id]), other) == Stored(before, other) {
      CountingKeeps(before, before.pages[id], other);
    }
    CountingKeeps(before, before.pages[id], id);
  }

  /** A miss as a whole: the store stays, and so does every frame that somebody holds. */
  lemma MissIsSilent(before: Pool, swept: Pool, id: PageId)
    requires Sound(before) && Swept(before, swept) && id !in before.pages
    ensures var after := Claimed(swept, id);
            && Sound(after) && |after.frames| == |before.frames|
            && (forall other :: Stored(after, other) == Stored(before, other))
            && after.frames[after.clock].id == Some(id) && after.frames[after.clock].pins == 1
            && after.frames[after.clock].bytes == Stored(before, id)
            && before.frames[after.clock].pins == 0
            && (forall f | 0 <= f < |before.frames| && f != after.clock ::
                  after.frames[f].pins == before.frames[f].pins &&
                  (0 < before.frames[f].pins ==> after.frames[f] == before.frames[f]))
  {
    var after := Claimed(swept, id);
    forall other ensures Sound(after) && Stored(after, other) == Stored(before, other) {
      SweepingKeeps(before, swept, other);
      ClaimingKeeps(swept, id, other);
    }
    SweepingKeeps(before, swept, id);
    ClaimingKeeps(swept, id, id);
    assert OnlyUsesDropped(before.frames[swept.clock], swept.frames[swept.clock]);
    forall f | 0 <= f < |before.frames| && f != after.clock
      ensures after.frames[f].pins == before.frames[f].pins
      ensures 0 < before.frames[f].pins ==> after.frames[f] == before.frames[f]
    {
      assert OnlyUsesDropped(before.frames[f], swept.frames[f]);
    }
  }

  // ----- Flushing everything

  ghost predicate FlushedUpTo(before: Pool, now: Pool, n: nat) {
    && n <= |now.frames| == |before.frames| && Sound(now)
    && now.pages == before.pages && now.clock == before.clock
    && (forall f | 0 <= f < n :: now.frames[f] == before.frames[f].(dirty := false))
    && (forall f | n <= f < |now.frames| :: now.frames[f] == before.frames[f])
    && (forall id :: Stored(now, id) == Stored(before, id))
    && PlacedUpTo(before, now.disk, n)
  }

  /** The files reach as far as the dirty pages that have been written. */
  ghost predicate PlacedUpTo(before: Pool, disk: Disk, n: nat)
    requires n <= |before.frames|
  {
    forall f | 0 <= f < n && before.frames[f].dirty && before.frames[f].id.Some? ::
      before.frames[f].id.value.number < PageCount(disk, before.frames[f].id.value.file)
  }

  lemma PlacedOneMore(before: Pool, was: Pool, n: nat)
    requires n < |before.frames| == |was.frames| && was.frames[n] == before.frames[n] && PlacedUpTo(before, was.disk, n)
    ensures PlacedUpTo(before, Flushed(was, n).disk, n + 1)
  {
    var frame := was.frames[n];
    if frame.dirty && frame.id.Some? {
      forall f | 0 <= f < n + 1 && before.frames[f].dirty && before.frames[f].id.Some?
        ensures before.frames[f].id.value.number < PageCount(Flushed(was, n).disk, before.frames[f].id.value.file)
      {
        WrittenOutReads(was.disk, frame.id.value, frame.bytes, before.frames[f].id.value);
      }
    }
  }

  lemma FlushedOneMore(before: Pool, was: Pool, n: nat)
    requires FlushedUpTo(before, was, n) && n < |was.frames|
    ensures FlushedUpTo(before, Flushed(was, n), n + 1)
  {
    forall id ensures Sound(Flushed(was, n)) && Stored(Flushed(was, n), id) == Stored(before, id) {
      FlushingKeeps(was, n, id);
    }
    FlushingKeeps(was, n, PageId(0, 0));
    PlacedOneMore(before, was, n);
  }

  lemma FlushStarts(before: Pool)
    requires Sound(before)
    ensures FlushedUpTo(before, before, 0)
  {
  }

  lemma FlushedFrames(before: Pool, now: Pool)
    requires FlushedUpTo(before, now, |now.frames|)
    ensures |now.frames| == |before.frames|
    ensures forall f | 0 <= f < |now.frames| :: now.frames[f] == before.frames[f].(dirty := false)
  {
  }

  lemma FlushedAll(before: Pool, now: Pool)
    requires FlushedUpTo(before, now, |now.frames|)
    ensures forall id :: OnDisk(now.disk, id) == Stored(before, id) == Stored(now, id)
    ensures forall f | 0 <= f < |before.frames| && before.frames[f].dirty && before.frames[f].id.Some? ::
              var id := before.frames[f].id.value;
              id.file in now.disk && id.number < |now.disk[id.file]| && now.disk[id.file][id.number] == before.frames[f].bytes
  {
    forall id ensures OnDisk(now.disk, id) == Stored(now, id) {
      if id in now.pages {
        assert now.frames[now.pages[id]].id == Some(id);
      }
    }
    forall f | 0 <= f < |before.frames| && before.frames[f].dirty && before.frames[f].id.Some?
      ensures var id := before.frames[f].id.value;
              id.file in now.disk && id.number < |now.disk[id.file]| && now.disk[id.file][id.number] == before.frames[f].bytes
    {
      assert now.frames[f] == before.frames[f].(dirty := false);
      CountIs(now.disk, before.frames[f].id.value.file);
    }
  }

  // ----- Appending

  /** The frame under the clock holds a dirty page that lies past the end of the file. */
  predicate Overhangs(pool: Pool, file: nat)
    requires pool.clock < |pool.frames|
  {
    var victim := pool.frames[pool.clock];
    victim.dirty && victim.id.Some? && victim.id.value.file == file &&
    PageCount(pool.disk, file) <= victim.id.value.number
  }

  /** So does the page that the sweep is going to choose. */
  ghost predicate VictimOverhangs(pool: Pool, file: nat) {
    exists swept :: Swept(pool, swept) && Overhangs(swept, file)
  }

  /** A miss: the sweep, then the page under the clock replaced. */
  ghost predicate Missed(before: Pool, after: Pool, id: PageId) {
    exists swept :: Swept(before, swept) && after == Claimed(swept, id)
  }

  /** Loading the page past the end of a file does not make the file any longer; only writing out
      the page that had to go can. */
  lemma AppendedPageIsNotCounted(before: Pool, after: Pool, file: nat)
    requires var id := PageId(file, PageCount(before.disk, file));
             Sound(before) && id !in before.pages && Missed(before, after, id)
    ensures PageCount(after.disk, file) == PageCount(before.disk, file) <==> !VictimOverhangs(before, file)
  {
    var id := PageId(file, PageCount(before.disk, file));
    var swept :| Swept(before, swept) && after == Claimed(swept, id);
    forall other | Swept(before, other) ensures other == swept { SweptIsDetermined(before, swept, other); }
    SweepingKeeps(before, swept, id);
    var victim := swept.frames[swept.clock];
    if victim.dirty {
      WrittenOutReads(swept.disk, victim.id.value, victim.bytes, id);
    }
    ReadFromReads(Evicted(swept).disk, id, id);
  }

  // ----- Forgetting a file

  function Forgotten(pool: Pool, f: nat): Pool
    requires f < |pool.frames|
  {
    var frame := pool.frames[f];
    var pages := if frame.id.Some? then pool.pages - {frame.id.value} else pool.pages;
    Put(pool, f, Frame(None, [], 0, 0, false)).(pages := pages)
  }

  predicate OfFile(frame: Frame, file: nat) {
    frame.id.Some? && frame.id.value.file == file
  }

  ghost predicate ForgottenUpTo(before: Pool, now: Pool, file: nat, n: nat) {
    && n <= |now.frames| == |before.frames| && Sound(now) && Sound(before)
    && now.disk == before.disk && now.clock == before.clock
    && (forall f | 0 <= f < n :: !OfFile(now.frames[f], file))
    && (forall f | 0 <= f < |now.frames| && !(f < n && OfFile(before.frames[f], file)) ::
          now.frames[f] == before.frames[f])
    && (forall id :: id in now.pages ==> id in before.pages && now.pages[id] == before.pages[id])
    && (forall id :: id in before.pages && id.file != file ==> id in now.pages)
  }

  lemma NoneForgotten(before: Pool, file: nat)
    requires Sound(before)
    ensures ForgottenUpTo(before, before, file, 0)
  {
    hide Sound;
  }

  lemma ForgettingKeeps(pool: Pool, f: nat)
    requires Sound(pool) && f < |pool.frames| && pool.frames[f].id.Some?
    ensures Sound(Forgotten(pool, f))
    ensures Forgotten(pool, f) == Pool(pool.frames[f := Frame(None, [], 0, 0, false)],
                                       pool.pages - {pool.frames[f].id.value}, pool.disk, pool.clock)
  {
  }

  lemma ForgottenOneMore(before: Pool, was: Pool, file: nat, n: nat)
    requires ForgottenUpTo(before, was, file, n) && n < |was.frames|
    ensures was.frames[n] == before.frames[n]
    ensures ForgottenUpTo(before, if OfFile(was.frames[n], file) then Forgotten(was, n) else was, file, n + 1)
    ensures Sound(if OfFile(was.frames[n], file) then Forgotten(was, n) else was)
    ensures OfFile(was.frames[n], file) ==>
              Forgotten(was, n) == Pool(was.frames[n := Frame(None, [], 0, 0, false)],
                                        was.pages - {was.frames[n].id.value}, was.disk, was.clock)
  {
    hide Sound, Forgotten, Put;
    if OfFile(was.frames[n], file) {
      ForgettingKeeps(was, n);
    }
  }

  lemma ForgottenAll(before: Pool, now: Pool, file: nat)
    requires ForgottenUpTo(before, now, file, |now.frames|)
    ensures forall id | id in now.pages :: id.file != file
    ensures forall id :: Stored(now, id) == if id.file == file then OnDisk(now.disk, id) else Stored(before, id)
    ensures |now.frames| == |before.frames| && now.clock == before.clock && Sound(now)
    ensures forall f | 0 <= f < |now.frames| && !OfFile(before.frames[f], file) :: now.frames[f] == before.frames[f]
  {
    forall id | id in now.pages ensures id.file != file {
      assert now.frames[now.pages[id]].id == Some(id);
      assert !OfFile(now.frames[now.pages[id]], file);
    }
    forall id ensures Stored(now, id) == if id.file == file then OnDisk(now.disk, id) else Stored(before, id) {
      if id in now.pages {
        assert now.frames[now.pages[id]].id == Some(id);
        assert before.frames[before.pages[id]].id == Some(id);
      }
    }
  }
}
