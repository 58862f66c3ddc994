/** The buffer manager: a fixed pool of pages in memory, replaced by a clock with second chances. */
module BufferManagers {
  import opened Options
  import opened PagePools

  class Page {
    var id: Option<PageId>
    var bytes: Bytes
    var pins: nat
    var usage: nat
    var dirty: bool

    constructor ()
      ensures View() == Frame(None, [], 0, 0, false)
    {
      id, bytes, pins, usage, dirty := None, [], 0, 0, false;
    }

    function View(): Frame
      reads this
    {
      Frame(id, bytes, pins, usage, dirty)
    }

    method Pin()
      modifies this
      ensures View() == old(View()).(pins := old(pins) + 1, usage := old(usage) + 1)
    {
      pins := pins + 1;
      usage := usage + 1;
    }

    method Unpin()
      requires 0 < pins
      modifies this
      ensures View() == old(View()).(pins := old(pins) - 1)
    {
      pins := pins - 1;
    }

    method Reset()
      requires pins == 0
      modifies this
      ensures View() == Frame(None, [], 0, 0, false)
    {
      bytes, id, pins, usage, dirty := [], None, 0, 0, false;
    }

    method Reassign(pageId: PageId)
      requires !dirty && pins == 0 && usage == 0
      modifies this
      ensures View() == Frame(Some(pageId), old(bytes), 1, 1, false)
    {
      id, pins, usage := Some(pageId), 1, 1;
    }
  }

  class BufferManager {
    const frames: seq<Page>
    var pages: map<PageId, nat>
    var disk: Disk
    var clock: nat

    /** The value of the pool, on which its meaning is defined. */
    ghost function View(): (pool: Pool)
      reads this, frames
      ensures |pool.frames| == |frames| && pool.pages == pages && pool.disk == disk && pool.clock == clock
      ensures forall f | 0 <= f < |frames| :: pool.frames[f] == frames[f].View()
    {
      Pool(seq(|frames|, f requires 0 <= f < |frames| reads this, frames => frames[f].View()), pages, disk, clock)
    }

    ghost predicate Valid()
      reads this, frames
    {
      && clock < |frames|
      && (forall i, j | 0 <= i < j < |frames| :: frames[i] != frames[j])
      && Sound(View())
    }

    constructor (size: nat, files: Disk)
      requires 0 < size
      ensures Valid() && View() == Unused(size).(disk := files)
      ensures fresh(frames)
    {
      var fs: seq<Page> := [];
      while |fs| < size
        invariant |fs| <= size && fresh(fs)
        invariant forall i, j | 0 <= i < j < |fs| :: fs[i] != fs[j]
        invariant forall i | 0 <= i < |fs| :: fs[i].View() == Frame(None, [], 0, 0, false)
      {
        var page := new Page();
        fs := fs + [page];
      }
      frames, pages, disk, clock := fs, map[], files, 0;
      new;
      assert View().frames == Unused(size).frames;
    }

    // ----- One action each, as the functions on pools say

    method Pass()
      requires Valid()
      requires !(frames[clock].pins == 0 && frames[clock].usage == 0)
      modifies this`clock, frames[clock]
      ensures View() == Passed(old(View())) && Valid()
    {
      hide Sound, Stored, Passed, Wait, BufferManager.View;
      ghost var before := View();
      PassedIs(before);
      if frames[clock].pins == 0 {
        frames[clock].usage := frames[clock].usage - 1;
      }
      clock := clock + 1;
      clock := if clock < |frames| then clock else 0;
      assert View().frames == before.frames[before.clock := frames[before.clock].View()];
      PassingKeeps(before, PageId(0, 0));
    }

    method FlushFrame(f: nat)
      requires Valid() && f < |frames|
      modifies this`disk, frames[f]
      ensures View() == Flushed(old(View()), f) && Valid()
    {
      ghost var before := View();
      WriteBack(frames[f]);
      assert View().frames == Flushed(before, f).frames;
      FlushingKeeps(before, f, PageId(0, 0));
    }

    /** Write a page back when it is dirty. */
    method WriteBack(page: Page)
      requires page.dirty ==> page.id.Some?
      modifies this`disk, page`dirty
      ensures !page.dirty
      ensures disk == if old(page.dirty) then WrittenOut(old(disk), page.id.value, page.bytes) else old(disk)
    {
      if page.dirty {
        disk := WrittenOut(disk, page.id.value, page.bytes);
        page.dirty := false;
      }
    }

    /** Give a page another identity and read it. */
    method Read(page: Page, id: PageId)
      requires !page.dirty && page.pins == 0 && page.usage == 0
      modifies this`disk, page
      ensures page.View() == Frame(Some(id), OnDisk(old(disk), id), 1, 1, false)
      ensures disk == ReadFrom(old(disk), id)
    {
      page.Reassign(id);
      page.bytes := OnDisk(disk, id);
      disk := ReadFrom(disk, id);
    }

    /** The frame under the clock, unpinned and unused, gives up its page and takes page `id`. */
    method Replace(id: PageId) returns (page: Page)
      requires Valid() && id !in pages && frames[clock].pins == 0 && frames[clock].usage == 0
      modifies this`pages, this`disk, frames[clock]
      ensures View() == Claimed(old(View()), id) && Valid() && page == frames[clock]
    {
      hide Claimed, Sound, Stored, OnDisk, WrittenOut, ReadFrom, BufferManager.View;
      ghost var before := View();
      page := frames[clock];
      ClaimedIs(before, id);
      if page.id.Some? {
        pages := pages - {page.id.value};
      }
      WriteBack(page);
      Read(page, id);
      pages := pages[id := clock];
      assert View().frames == before.frames[clock := page.View()];
      ClaimingKeeps(before, id, id);
    }

    // ----- Getting a page

    /** The clock stops at the frame that second chances single out, and takes one use from every
        unpinned frame each time it passes it. */
    method GetBufferAvailable() returns (f: nat)
      requires Valid()
      requires exists p :: p in frames && p.pins == 0
      modifies this`clock, frames
      ensures Valid() && f == clock && Swept(old(View()), View())
      ensures pages == old(pages) && frames[f].pins == 0 && frames[f].usage == 0
    {
      hide Wait, Passed, Swept, SweptSoFar, BufferManager.View;
      ghost var before := View();
      ghost var free: nat :| free < |frames| && frames[free].pins == 0;
      ghost var passed := 0;
      SweepStarts(before);
      while !(frames[clock].pins == 0 && frames[clock].usage == 0)
        invariant Valid() && SweptSoFar(before, View(), passed)
        decreases Wait(before, free) - passed
      {
        ghost var was := View();
        SweepPasses(before, was, passed);
        Pass();
        passed := passed + 1;
        SweepIsNear(before, View(), passed, free);
      }
      SweepStops(before, View(), passed);
      f := clock;
    }

    /** The page is pinned once more, shows what the store holds, and the store and every page that
        somebody holds stay as they were. */
    method GetPage(id: PageId) returns (page: Page)
      requires Valid()
      requires id in pages || exists p :: p in frames && p.pins == 0
      modifies this, frames
      ensures Valid()
      ensures page in frames && page.id == Some(id) && page.bytes == old(Stored(View(), id))
      ensures id in pages && pages[id] < |frames| && frames[pages[id]] == page
      // what a page that was not in memory holds
      ensures id !in old(pages) && id.file in old(disk) && id.number < |old(disk)[id.file]| ==>
                page.bytes == old(disk)[id.file][id.number]
      ensures id !in old(pages) && (id.file !in old(disk) || |old(disk)[id.file]| <= id.number) ==>
                |page.bytes| == 4096 && forall k | 0 <= k < 4096 :: page.bytes[k] == 0
      ensures forall other :: Stored(View(), other) == old(Stored(View(), other))
      ensures page.pins == old(page.pins) + 1
      ensures forall p | p in frames && p != page :: p.pins == old(p.pins) && (0 < p.pins ==> p.View() == old(p.View()))
      ensures id in old(pages) ==> page == frames[old(pages)[id]] && View() == PinCounted(old(View()), old(pages)[id])
      ensures id !in old(pages) ==>
                page == frames[clock] && old(page.pins) == 0 && Missed(old(View()), View(), id)
    {
      hide Claimed, Sound, Swept, Stored, PinCounted, BufferManager.View;
      ghost var before := View();
      if id !in pages {
        UnreadPage(before, id);
        var f := GetBufferAvailable();
        ghost var swept := View();
        page := Replace(id);
        MissIsSilent(before, swept, id);
      } else {
        HitIsSilent(before, id);
        assert before.pages == pages && pages[id] < |frames|;
        page := frames[pages[id]];
        page.pins := page.pins + 1;
        assert View().frames == PinCounted(before, pages[id]).frames;
      }
    }

    /** What a holder of a page does to it: new bytes, marked dirty. */
    method Write(page: Page, bytes: Bytes)
      requires Valid() && page in frames && 0 < page.pins && page.id.Some?
      modifies page
      ensures Valid()
      ensures page.View() == old(page.View()).(bytes := bytes, dirty := true)
      ensures forall other :: Stored(View(), other) ==
                if page.id == Some(other) then bytes else old(Stored(View(), other))
    {
      ghost var before := View();
      ghost var f: nat :| f < |frames| && frames[f] == page;
      page.bytes, page.dirty := bytes, true;
      assert View().frames == Overwritten(before, f, bytes).frames;
      forall other ensures Sound(View()) && Stored(View(), other) == Stored(Overwritten(before, f, bytes), other) {
        OverwritingKeeps(before, f, bytes, other);
      }
      forall other ensures Stored(View(), other) ==
                             if page.id == Some(other) then bytes else Stored(before, other) {
        OverwritingKeeps(before, f, bytes, other);
      }
    }

    /** Afterwards the disk holds the whole store, and nothing else has changed. */
    method Flush()
      requires Valid()
      modifies this`disk, frames
      ensures Valid()
      ensures forall id :: OnDisk(disk, id) == old(Stored(View(), id)) == Stored(View(), id)
      ensures forall p | p in frames :: p.View() == old(p.View()).(dirty := false)
      ensures forall p | p in frames && old(p.dirty) && p.id.Some? ::
                var id := p.id.value;
                id.file in disk && id.number < |disk[id.file]| && disk[id.file][id.number] == p.bytes
    {
      hide Sound, Stored, OnDisk, FlushedUpTo, Flushed, BufferManager.View;
      ghost var before := View();
      ghost var now := before;
      var i := 0;
      FlushStarts(before);
      while i < |frames|
        invariant i <= |frames| && Valid() && now == View() && clock == old(clock)
        invariant FlushedUpTo(before, now, i)
      {
        ghost var was := now;
        FlushFrame(i);
        now := View();
        FlushedOneMore(before, was, i);
        i := i + 1;
      }
      FlushedAll(before, now);
      FlushedFrames(before, now);
      forall p | p in frames ensures p.View() == old(p.View()).(dirty := false) {
        ghost var f :| 0 <= f < |frames| && frames[f] == p;
        assert now.frames[f] == before.frames[f].(dirty := false);
      }
    }

    // ----- Appending

    method AppendPage(file: nat) returns (page: Page)
      requires Valid()
      requires PageId(file, PageCount(disk, file)) in pages || exists p :: p in frames && p.pins == 0
      modifies this, frames
      ensures Valid()
      ensures forall other :: Stored(View(), other) == old(Stored(View(), other))
      ensures page in frames && page.id == Some(PageId(file, old(PageCount(disk, file))))
      ensures page.id.value in pages && pages[page.id.value] < |frames| && frames[pages[page.id.value]] == page
      ensures forall p | p in frames && p != page :: p.pins == old(p.pins) && (0 < p.pins ==> p.View() == old(p.View()))
      ensures page.pins == old(page.pins) + 1
      // the promise of the header holds when the page past the end is not in memory
      ensures page.id.value.number == if file in old(disk) then |old(disk)[file]| else 0
      ensures page.id.value !in old(pages) ==>
                page.pins == 1 && |page.bytes| == 4096 && forall k | 0 <= k < 4096 :: page.bytes[k] == 0
      ensures page.id.value !in old(pages) ==>
                (PageCount(disk, file) == old(PageCount(disk, file)) <==> !old(VictimOverhangs(View(), file)))
      // otherwise the caller is given the page that is already there, with what it holds
      ensures page.id.value in old(pages) ==>
                page == frames[old(pages)[page.id.value]] && page.bytes == old(page.bytes) && page.id == old(page.id)
                && pages == old(pages) && disk == old(disk)
    {
      hide Sound, Stored, Missed, VictimOverhangs, PageCount, PinCounted, BufferManager.View;
      ghost var before := View();
      CountIs(disk, file);
      var id := PageId(file, PageCount(disk, file));
      page := GetPage(id);
      if id !in before.pages {
        AppendedPageIsNotCounted(before, View(), file);
      } else {
        HitIsSilent(before, id);
      }
    }

    /** Two pages appended in a row are one page unless, to load the first, a dirty page that lay
        past the end of the file had to be written out. */
    method AppendTwice(file: nat) returns (first: Page, second: Page)
      requires Valid()
      requires exists p, q :: p in frames && q in frames && p != q && p.pins == 0 && q.pins == 0
      modifies this, frames
      ensures Valid() && first in frames && second in frames
      ensures first == second <==>
                old(PageId(file, PageCount(disk, file)) in pages || !VictimOverhangs(View(), file))
    {
      hide Sound, Stored, VictimOverhangs, PageCount, BufferManager.View;
      ghost var p, q :| p in frames && q in frames && p != q && p.pins == 0 && q.pins == 0;
      first := AppendPage(file);
      assert (if p == first then q else p).pins == 0;
      assert 0 < first.pins;
      ghost var id := first.id;
      second := AppendPage(file);
      assert first == second <==> second.id == id;
    }

    // ----- Temporary files

    /** Forget every page of a temporary file, unwritten; no page of it may be held. */
    method RemoveTmp(file: nat)
      requires Valid()
      requires forall p | p in frames && p.id.Some? && p.id.value.file == file :: p.pins == 0
      modifies this`pages, frames
      ensures Valid() && clock == old(clock)
      ensures forall id | id in pages :: id.file != file
      ensures forall id :: Stored(View(), id) == if id.file == file then OnDisk(disk, id) else old(Stored(View(), id))
      ensures forall p | p in frames && !(old(p.id).Some? && old(p.id).value.file == file) :: p.View() == old(p.View())
    {
      hide Sound, Stored, Forgotten, ForgottenUpTo, BufferManager.View;
      ghost var before := View();
      NoneForgotten(before, file);
      var i := 0;
      while i < |frames|
        invariant i <= |frames| && Valid() && clock == old(clock)
        invariant ForgottenUpTo(before, View(), file, i)
      {
        ghost var was := View();
        ForgottenOneMore(before, was, file, i);
        if frames[i].id.Some? && frames[i].id.value.file == file {
          pages := pages - {frames[i].id.value};
          frames[i].Reset();
        }
        assert View().frames == was.frames[i := frames[i].View()];
        i := i + 1;
      }
      ForgottenAll(before, View(), file);
      forall p | p in frames && !(old(p.id).Some? && old(p.id).value.file == file) ensures p.View() == old(p.View()) {
        ghost var f :| 0 <= f < |frames| && frames[f] == p;
        assert !OfFile(before.frames[f], file);
      }
    }
  }

  /** On a new file the promise of two distinct pages always fails. */
  method AppendTwiceToNewFile(size: nat, file: nat) returns (first: Page, second: Page)
    requires 1 < size
    ensures first == second
  {
    var manager := new BufferManager(size, map[]);
    assert manager.frames[0] != manager.frames[1];
    first, second := manager.AppendTwice(file);
  }
}
