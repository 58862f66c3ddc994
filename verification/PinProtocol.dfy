/** Many threads share the frames of one pool.  Getting a page happens under the pool's mutex;
    pinning and unpinning a page one already holds, and writing to it, do not.  A state machine
    whose steps are the single reads and writes of the shared counters. */
module PinProtocol {
  import opened Options
  import opened PagePools

  /** How far the thread that has the mutex has come. */
  datatype Phase =
    | Unlocked
    | Asking(id: PageId)
    | Sweeping(id: PageId)      // about to read the pins of the frame under the clock
    | SawUnpinned(id: PageId)   // read pins == 0, about to read its usage
    | SawUsed(id: PageId)       // read usage != 0, about to drop one use and move on
    | Chosen(id: PageId)        // read pins == 0 and usage == 0
    | Emptied(id: PageId)       // the old page is out of the map and off the frame

  /** Each holder of a page is a handle; `counted` are those that are between pins++ and usage++. */
  datatype State = State(pool: Pool, holders: map<nat, nat>, counted: set<nat>, next: nat, phase: Phase)

  datatype Step =
    // by the thread that gets a page
    | Ask(id: PageId)
    | Find
    | ReadPins
    | ReadUsage
    | DropUse
    | Evict
    | Load
    // by any holder, at any moment
    | CountPin(holder: nat)
    | CountUse(holder: nat)
    | Unpin(holder: nat)
    | Write(holder: nat, bytes: Bytes)

  function Initial(frames: nat, disk: Disk): State {
    State(Unused(frames).(disk := disk), map[], {}, 0, Unlocked)
  }

  function Holders(s: State, f: nat): set<nat> {
    set h | h in s.holders && s.holders[h] == f
  }

  /** What every reachable state satisfies. */
  ghost predicate Safe(s: State) {
    Sound(s.pool) && HoldersSafe(s) && SweepSafe(s)
  }

  /** Holders are registered, and a frame's pins count its holders. */
  ghost predicate HoldersSafe(s: State) {
    && (forall h | h in s.holders :: h < s.next && s.holders[h] < |s.pool.frames|)
    && s.counted <= s.holders.Keys
    && (forall f | 0 <= f < |s.pool.frames| :: s.pool.frames[f].pins == |Holders(s, f)|)
    && (forall h | h in s.holders :: s.pool.frames[s.holders[h]].id.Some?)
  }

  /** What the thread with the mutex has seen stays true, whatever the holders do. */
  ghost predicate SweepSafe(s: State) {
    && s.pool.clock < |s.pool.frames|
    && (!s.phase.Unlocked? && !s.phase.Asking? ==> s.phase.id !in s.pool.pages)
    && (s.phase.SawUnpinned? || s.phase.SawUsed? || s.phase.Chosen? || s.phase.Emptied? ==>
          s.pool.frames[s.pool.clock].pins == 0)
    && (s.phase.SawUsed? ==> 0 < s.pool.frames[s.pool.clock].usage)
    && (s.phase.Chosen? || s.phase.Emptied? ==> s.pool.frames[s.pool.clock].usage == 0)
    && (s.phase.Emptied? ==> s.pool.frames[s.pool.clock].id.None?)
  }

  predicate Enabled(s: State, step: Step) {
    match step
    case Ask(_) => s.phase.Unlocked?
    case Find => s.phase.Asking?
    case ReadPins => s.phase.Sweeping?
    case ReadUsage => s.phase.SawUnpinned?
    case DropUse => s.phase.SawUsed?
    case Evict => s.phase.Chosen?
    case Load => s.phase.Emptied?
    case CountPin(h) => h in s.holders
    case CountUse(h) => h in s.counted
    case Unpin(h) => h in s.holders && h !in s.counted
    case Write(h, _) => h in s.holders
  }

  /** One more holder of frame f. */
  function Held(s: State, f: nat): State {
    s.(holders := s.holders[s.next := f], next := s.next + 1)
  }

  function Apply(s: State, step: Step): State
    requires Safe(s) && Enabled(s, step)
  {
    match step
    case Ask(id) => s.(phase := Asking(id))
    case Find =>
      if s.phase.id in s.pool.pages then
        var f := s.pool.pages[s.phase.id];
        Held(s, f).(pool := PinCounted(s.pool, f), phase := Unlocked)
      else s.(phase := Sweeping(s.phase.id))
    case ReadPins =>
      if s.pool.frames[s.pool.clock].pins == 0 then s.(phase := SawUnpinned(s.phase.id))
      else s.(pool := Passed(s.pool))
    case ReadUsage =>
      if s.pool.frames[s.pool.clock].usage == 0 then s.(phase := Chosen(s.phase.id))
      else s.(phase := SawUsed(s.phase.id))
    case DropUse => s.(pool := Passed(s.pool), phase := Sweeping(s.phase.id))
    case Evict => s.(pool := Evicted(s.pool), phase := Emptied(s.phase.id))
    case Load => Held(s, s.pool.clock).(pool := Loaded(s.pool, s.phase.id), phase := Unlocked)
    case CountPin(h) =>
      var f := s.holders[h];
      Held(s, f).(pool := PinCounted(s.pool, f), counted := s.counted + {s.next})
    case CountUse(h) => s.(pool := UseCounted(s.pool, s.holders[h]), counted := s.counted - {h})
    case Unpin(h) =>
      HolderIsCounted(s, h);
      s.(pool := PinDropped(s.pool, s.holders[h]), holders := s.holders - {h})
    case Write(h, bytes) => s.(pool := Overwritten(s.pool, s.holders[h], bytes))
  }

  /** The assertion of `unpin` cannot fail: a frame with a holder has a pin. */
  lemma HolderIsCounted(s: State, h: nat)
    requires Safe(s) && h in s.holders
    ensures 0 < s.pool.frames[s.holders[h]].pins
  {
    assert h in Holders(s, s.holders[h]);
  }

  // ----- Every step keeps the invariant and the store

  lemma HoldersGrow(s: State, f: nat, g: nat)
    requires Safe(s)
    ensures |Holders(Held(s, f), g)| == |Holders(s, g)| + if f == g then 1 else 0
  {
    var t := Held(s, f);
    assert Holders(t, g) == if f == g then Holders(s, g) + {s.next} else Holders(s, g);
    assert s.next !in Holders(s, g);
  }

  lemma HoldersShrink(s: State, h: nat, g: nat)
    requires Safe(s) && h in s.holders
    ensures |Holders(s.(holders := s.holders - {h}), g)| == |Holders(s, g)| - if s.holders[h] == g then 1 else 0
  {
    var t := s.(holders := s.holders - {h});
    assert Holders(t, g) == Holders(s, g) - if s.holders[h] == g then {h} else {};
    assert s.holders[h] == g ==> h in Holders(s, g);
  }

  /** The page a step writes, if it writes one. */
  predicate Writes(s: State, step: Step, id: PageId)
    requires Safe(s) && Enabled(s, step)
  {
    step.Write? && s.pool.frames[s.holders[step.holder]].id == Some(id)
  }

  lemma StepKeepsPool(s: State, step: Step, id: PageId)
    requires Safe(s) && Enabled(s, step)
    ensures Sound(Apply(s, step).pool)
    ensures Stored(Apply(s, step).pool, id) == if Writes(s, step, id) then step.bytes else Stored(s.pool, id)
  {
    match step
    case Ask(_) =>
    case Find =>
      if s.phase.id in s.pool.pages { CountingKeeps(s.pool, s.pool.pages[s.phase.id], id); }
    case ReadPins =>
      if s.pool.frames[s.pool.clock].pins != 0 { PassingKeeps(s.pool, id); }
    case ReadUsage =>
    case DropUse => PassingKeeps(s.pool, id);
    case Evict => EvictingKeeps(s.pool, id);
    case Load => LoadingKeeps(s.pool, s.phase.id, id);
    case CountPin(h) => CountingKeeps(s.pool, s.holders[h], id);
    case CountUse(h) => CountingKeeps(s.pool, s.holders[h], id);
    case Unpin(h) =>
      HolderIsCounted(s, h);
      CountingKeeps(s.pool, s.holders[h], id);
    case Write(h, bytes) => OverwritingKeeps(s.pool, s.holders[h], bytes, id);
  }

  lemma StepCountsHolders(s: State, step: Step, f: nat)
    requires Safe(s) && Enabled(s, step) && f < |s.pool.frames|
    ensures |Apply(s, step).pool.frames| == |s.pool.frames|
    ensures Apply(s, step).pool.frames[f].pins == |Holders(Apply(s, step), f)|
  {
    var t := Apply(s, step);
    if step.Find? && s.phase.id in s.pool.pages {
      HoldersGrow(s, s.pool.pages[s.phase.id], f);
      assert Holders(t, f) == Holders(Held(s, s.pool.pages[s.phase.id]), f);
    } else if step.Load? {
      HoldersGrow(s, s.pool.clock, f);
      assert Holders(t, f) == Holders(Held(s, s.pool.clock), f);
    } else if step.CountPin? {
      HoldersGrow(s, s.holders[step.holder], f);
      assert Holders(t, f) == Holders(Held(s, s.holders[step.holder]), f);
    } else if step.Unpin? {
      HoldersShrink(s, step.holder, f);
      assert Holders(t, f) == Holders(s.(holders := s.holders - {step.holder}), f);
    } else {
      assert Holders(t, f) == Holders(s, f);
    }
  }

  /** A frame that somebody holds is never given another page, and only a write changes its bytes. */
  lemma HeldFrameStays(s: State, step: Step, h: nat)
    requires Safe(s) && Enabled(s, step) && h in s.holders
    ensures var f, t := s.holders[h], Apply(s, step);
            && f < |t.pool.frames|
            && t.pool.frames[f].id == s.pool.frames[f].id
            && (t.pool.frames[f].bytes == s.pool.frames[f].bytes || (step.Write? && s.holders[step.holder] == f))
            && (step == Unpin(h) || (h in t.holders && t.holders[h] == f))
  {
    HolderIsCounted(s, h);
  }

  lemma HolderHasPage(s: State, step: Step, h: nat)
    requires Safe(s) && Enabled(s, step) && h in Apply(s, step).holders
    ensures var t := Apply(s, step);
            h < t.next && t.holders[h] < |t.pool.frames| && t.pool.frames[t.holders[h]].id.Some?
  {
    if h in s.holders {
      HeldFrameStays(s, step, h);
    }
  }

  lemma StepIsSafeForHolders(s: State, step: Step)
    requires Safe(s) && Enabled(s, step)
    ensures HoldersSafe(Apply(s, step))
  {
    hide Apply, Safe, Holders;
    var t := Apply(s, step);
    forall f | 0 <= f < |t.pool.frames| ensures t.pool.frames[f].pins == |Holders(t, f)| {
      StepSize(s, step);
      StepCountsHolders(s, step, f);
    }
    forall h | h in t.holders ensures h < t.next && t.holders[h] < |t.pool.frames| && t.pool.frames[t.holders[h]].id.Some? {
      HolderHasPage(s, step, h);
    }
    assert t.counted <= t.holders.Keys by { CountedAreHolders(s, step); }
  }

  lemma StepSize(s: State, step: Step)
    requires Safe(s) && Enabled(s, step)
    ensures |Apply(s, step).pool.frames| == |s.pool.frames|
  {
  }

  lemma CountedAreHolders(s: State, step: Step)
    requires Safe(s) && Enabled(s, step)
    ensures Apply(s, step).counted <= Apply(s, step).holders.Keys
  {
  }

  lemma StepIsSafe(s: State, step: Step)
    requires Safe(s) && Enabled(s, step)
    ensures Safe(Apply(s, step))
  {
    hide Sound, Holders;
    StepKeepsPool(s, step, PageId(0, 0));
    StepIsSafeForHolders(s, step);
    StepIsSafeForSweep(s, step);
  }

  lemma StepIsSafeForSweep(s: State, step: Step)
    requires Safe(s) && Enabled(s, step)
    ensures SweepSafe(Apply(s, step))
  {
    if step.Unpin? || step.Write? || step.CountPin? || step.CountUse? {
      HolderIsCounted(s, step.holder);
    }
  }

  // ----- Runs

  predicate Run(s: State, steps: seq<Step>)
    requires Safe(s)
    decreases |steps|
  {
    steps == [] ||
    (Enabled(s, steps[0]) && (StepIsSafe(s, steps[0]); Run(Apply(s, steps[0]), steps[1..])))
  }

  function Final(s: State, steps: seq<Step>): State
    requires Safe(s) && Run(s, steps)
    decreases |steps|
  {
    if steps == [] then s else
      StepIsSafe(s, steps[0]);
      Final(Apply(s, steps[0]), steps[1..])
  }

  lemma InitialIsSafe(frames: nat, disk: Disk)
    requires 0 < frames
    ensures Safe(Initial(frames, disk))
    ensures forall id :: Stored(Initial(frames, disk).pool, id) == OnDisk(disk, id)
  {
    var s := Initial(frames, disk);
    forall f | 0 <= f < frames ensures Holders(s, f) == {} {
    }
  }

  /** Every reachable state is safe: pins count holders, map and frames agree one to one, a clean
      frame shows the disk, and the asserts of `reassign` and `unpin` cannot fail. */
  lemma {:induction false} RunIsSafe(s: State, steps: seq<Step>)
    requires Safe(s) && Run(s, steps)
    ensures Safe(Final(s, steps))
    decreases |steps|
  {
    if steps != [] {
      StepIsSafe(s, steps[0]);
      RunIsSafe(Apply(s, steps[0]), steps[1..]);
    }
  }

  lemma {:induction false} GoneStaysGone(s: State, steps: seq<Step>, h: nat)
    requires Safe(s) && Run(s, steps) && h !in s.holders && h < s.next
    ensures h !in Final(s, steps).holders
    decreases |steps|
  {
    if steps != [] {
      StepIsSafe(s, steps[0]);
      GoneStaysGone(Apply(s, steps[0]), steps[1..], h);
    }
  }

  /** A page that is held from the start of a run to its end sits in the same frame throughout. */
  lemma {:induction false} HeldPageStays(s: State, steps: seq<Step>, h: nat)
    requires Safe(s) && Run(s, steps) && h in s.holders && h in Final(s, steps).holders
    ensures var t := Final(s, steps);
            && t.holders[h] == s.holders[h] < |s.pool.frames| == |t.pool.frames|
            && t.pool.frames[t.holders[h]].id == s.pool.frames[s.holders[h]].id
    decreases |steps|
  {
    if steps != [] {
      var t := Apply(s, steps[0]);
      StepIsSafe(s, steps[0]);
      HeldFrameStays(s, steps[0], h);
      if h !in t.holders {
        GoneStaysGone(t, steps[1..], h);
      } else {
        HeldPageStays(t, steps[1..], h);
      }
    }
  }

  /** What a plain page store holds under `id` after the writes of a run: the last one, if any. */
  function LastWritten(s: State, steps: seq<Step>, id: PageId, before: Bytes): Bytes
    requires Safe(s) && Run(s, steps)
    decreases |steps|
  {
    if steps == [] then before else
      StepIsSafe(s, steps[0]);
      LastWritten(Apply(s, steps[0]), steps[1..], id, if Writes(s, steps[0], id) then steps[0].bytes else before)
  }

  /** The cache refines the plain store, over every run and every interleaving. */
  lemma {:induction false} StoreIsRefined(s: State, steps: seq<Step>, id: PageId)
    requires Safe(s) && Run(s, steps)
    ensures Stored(Final(s, steps).pool, id) == LastWritten(s, steps, id, Stored(s.pool, id))
    decreases |steps|
  {
    if steps != [] {
      StepIsSafe(s, steps[0]);
      StepKeepsPool(s, steps[0], id);
      StoreIsRefined(Apply(s, steps[0]), steps[1..], id);
    }
  }

  /** Whoever holds a page sees what was last written to it by anyone, or what the disk held at
      the start, however often the page was evicted and read again meanwhile. */
  lemma HolderSeesLastWritten(frames: nat, disk: Disk, steps: seq<Step>, h: nat)
    requires 0 < frames
    requires (InitialIsSafe(frames, disk); Run(Initial(frames, disk), steps))
    requires h in Final(Initial(frames, disk), steps).holders
    ensures var s := Initial(frames, disk);
            var t := Final(s, steps);
            && t.holders[h] < |t.pool.frames|
            && var frame := t.pool.frames[t.holders[h]];
            && frame.id.Some?
            && frame.bytes == LastWritten(s, steps, frame.id.value, OnDisk(disk, frame.id.value))
  {
    var s := Initial(frames, disk);
    InitialIsSafe(frames, disk);
    RunIsSafe(s, steps);
    var t := Final(s, steps);
    StoreIsRefined(s, steps, t.pool.frames[t.holders[h]].id.value);
  }

  // ----- What is asked for is what is handed out

  /** The mutex is taken from the start of the steps to their end. */
  predicate MutexTaken(s: State, steps: seq<Step>)
    requires Safe(s) && Run(s, steps)
    decreases |steps|
  {
    !s.phase.Unlocked? &&
    (steps == [] || (StepIsSafe(s, steps[0]); MutexTaken(Apply(s, steps[0]), steps[1..])))
  }

  lemma {:induction false} StillAsked(s: State, steps: seq<Step>, id: PageId)
    requires Safe(s) && Run(s, steps) && MutexTaken(s, steps) && s.phase.id == id
    ensures var t := Final(s, steps); Safe(t) && !t.phase.Unlocked? && t.phase.id == id
    decreases |steps|
  {
    if steps != [] {
      StepIsSafe(s, steps[0]);
      StillAsked(Apply(s, steps[0]), steps[1..], id);
    }
  }

  /** Handing out a page frees the mutex and registers one more holder, on a frame with that page. */
  lemma {:induction false} HandedOut(t: State, last: Step, id: PageId)
    requires Safe(t) && !t.phase.Unlocked? && t.phase.id == id
    requires Enabled(t, last) && Apply(t, last).phase.Unlocked?
    ensures t.next !in t.holders
    ensures var u := Apply(t, last);
            && u.holders.Keys == t.holders.Keys + {t.next} && (forall h | h in t.holders :: u.holders[h] == t.holders[h])
            && var f := u.holders[t.next];
            && f < |u.pool.frames| == |t.pool.frames|
            && u.pool.frames[f].id == Some(id) && u.pool.frames[f].bytes == Stored(t.pool, id)
            && u.pool.frames[f].pins == t.pool.frames[f].pins + 1
  {
  }

  /** Over every run: after a page has been asked for, the step that frees the mutex again gives its new
      holder that page, as the store has it, whatever the other holders did in between. */
  lemma {:induction false} AskedIsHandedOut(s: State, id: PageId, steps: seq<Step>, last: Step)
    requires Safe(s) && s.phase.Unlocked?
    requires (StepIsSafe(s, Ask(id)); Run(Apply(s, Ask(id)), steps) && MutexTaken(Apply(s, Ask(id)), steps))
    requires (StepIsSafe(s, Ask(id)); RunIsSafe(Apply(s, Ask(id)), steps);
              Enabled(Final(Apply(s, Ask(id)), steps), last) && Apply(Final(Apply(s, Ask(id)), steps), last).phase.Unlocked?)
    ensures (StepIsSafe(s, Ask(id));
             var t := Final(Apply(s, Ask(id)), steps);
             RunIsSafe(Apply(s, Ask(id)), steps);
             var u := Apply(t, last);
             && t.next !in t.holders && u.holders.Keys == t.holders.Keys + {t.next}
             && u.holders[t.next] < |u.pool.frames|
             && u.pool.frames[u.holders[t.next]].id == Some(id)
             && u.pool.frames[u.holders[t.next]].bytes == Stored(t.pool, id))
  {
    StepIsSafe(s, Ask(id));
    StillAsked(Apply(s, Ask(id)), steps, id);
    HandedOut(Final(Apply(s, Ask(id)), steps), last, id);
  }

  /** Pinning takes two steps, and together they do to the frame what `Page.Pin` does; the new holder is on
      the same frame. */
  lemma {:induction false} PinningTwoSteps(s: State, h: nat)
    requires Safe(s) && h in s.holders
    ensures (StepIsSafe(s, CountPin(h));
             var t := Apply(s, CountPin(h));
             && Enabled(t, CountUse(s.next))
             && var u, f := Apply(t, CountUse(s.next)), s.holders[h];
             && s.next !in s.holders && u.holders == s.holders[s.next := f] && u.counted == s.counted
             && u.pool == s.pool.(frames := u.pool.frames) && |u.pool.frames| == |s.pool.frames|
             && (forall g | 0 <= g < |s.pool.frames| && g != f :: u.pool.frames[g] == s.pool.frames[g])
             && u.pool.frames[f] == s.pool.frames[f].(pins := s.pool.frames[f].pins + 1, usage := s.pool.frames[f].usage + 1))
  {
    StepIsSafe(s, CountPin(h));
  }

  // ----- The thread that has the mutex always moves on

  predicate SweepStep(step: Step) {
    step.ReadPins? || step.ReadUsage? || step.DropUse?
  }

  predicate InSweep(s: State) {
    s.phase.Sweeping? || s.phase.SawUnpinned? || s.phase.SawUsed? || s.phase.Chosen?
  }

  /** How many steps of its own the sweep can still take while frame f is unpinned. */
  function Delay(s: State, f: nat): nat
    requires s.pool.clock < |s.pool.frames| && f < |s.pool.frames|
  {
    match s.phase
    case Sweeping(_) => 3 * Wait(s.pool, f) + 3
    case SawUnpinned(_) => 3 * Wait(s.pool, f) + 2
    case SawUsed(_) => 3 * Wait(s.pool, f) + 1
    case _ => 0
  }

  /** A step of the sweep brings it nearer to every unpinned frame. */
  lemma SweepNears(s: State, step: Step, f: nat)
    requires Safe(s) && f < |s.pool.frames| && s.pool.frames[f].pins == 0
    requires Enabled(s, step) && SweepStep(step)
    ensures InSweep(Apply(s, step)) && |Apply(s, step).pool.frames| == |s.pool.frames|
    ensures Apply(s, step).pool.frames[f].pins == 0 && Apply(s, step).pool.clock < |s.pool.frames|
    ensures Delay(Apply(s, step), f) < Delay(s, f)
  {
    hide Sound, HoldersSafe, Wait;
    if step.ReadPins? {
      if s.pool.frames[s.pool.clock].pins != 0 { PassingNears(s.pool, f); }
    } else if step.DropUse? {
      PassingNears(s.pool, f);
    }
  }

  /** Steps of others leave an unpinned frame unpinned and the sweep as near to it as it was. */
  lemma OthersWait(s: State, step: Step, f: nat)
    requires Safe(s) && InSweep(s) && f < |s.pool.frames| && s.pool.frames[f].pins == 0
    requires Enabled(s, step) && !SweepStep(step) && !step.Evict?
    ensures InSweep(Apply(s, step)) && |Apply(s, step).pool.frames| == |s.pool.frames|
    ensures Apply(s, step).pool.frames[f].pins == 0 && Apply(s, step).pool.clock < |s.pool.frames|
    ensures Delay(Apply(s, step), f) == Delay(s, f)
  {
    hide Sound;
    HolderIsCounted(s, step.holder);
    assert s.holders[step.holder] != f;
  }

  function SweepSteps(steps: seq<Step>): nat {
    if steps == [] then 0 else (if SweepStep(steps[0]) then 1 else 0) + SweepSteps(steps[1..])
  }

  /** The sweep terminates whenever some frame is unpinned when it starts, whatever the holders of
      other frames do meanwhile: its steps are bounded in advance. */
  lemma {:induction false} SweepIsBounded(s: State, steps: seq<Step>, f: nat)
    requires Safe(s) && InSweep(s) && f < |s.pool.frames| && s.pool.frames[f].pins == 0
    requires Run(s, steps) && forall k | 0 <= k < |steps| :: !steps[k].Evict?
    ensures SweepSteps(steps) <= Delay(s, f)
    ensures SweepSteps(steps) == Delay(s, f) ==> Final(s, steps).phase.Chosen?
    decreases |steps|
  {
    hide Sound, HoldersSafe;
    if steps != [] {
      StepIsSafe(s, steps[0]);
      if SweepStep(steps[0]) { SweepNears(s, steps[0], f); } else { OthersWait(s, steps[0], f); }
      SweepIsBounded(Apply(s, steps[0]), steps[1..], f);
    }
  }

  /** As long as it has not chosen a frame, the sweep has a step to take. */
  lemma SweepCanMove(s: State)
    requires Safe(s) && InSweep(s)
    ensures s.phase.Chosen? || exists step :: SweepStep(step) && Enabled(s, step)
  {
    assert s.phase.Chosen? || Enabled(s, ReadPins) || Enabled(s, ReadUsage) || Enabled(s, DropUse);
  }

  lemma PinnedStepSweeps(s: State, step: Step)
    requires Safe(s) && s.phase.Sweeping? && Enabled(s, step) && !step.Unpin?
    requires forall f | 0 <= f < |s.pool.frames| :: 0 < s.pool.frames[f].pins
    ensures var t := Apply(s, step);
            t.phase.Sweeping? && forall f | 0 <= f < |t.pool.frames| :: 0 < t.pool.frames[f].pins
  {
  }

  /** When every frame is pinned and nobody unpins, the sweep runs for ever. */
  lemma {:induction false} PinnedPoolIsSweptForEver(s: State, steps: seq<Step>)
    requires Safe(s) && s.phase.Sweeping? && Run(s, steps)
    requires forall f | 0 <= f < |s.pool.frames| :: 0 < s.pool.frames[f].pins
    requires forall k | 0 <= k < |steps| :: !steps[k].Unpin?
    ensures Final(s, steps).phase.Sweeping?
    decreases |steps|
  {
    hide Safe, Apply;
    if steps != [] {
      StepIsSafe(s, steps[0]);
      PinnedStepSweeps(s, steps[0]);
      PinnedPoolIsSweptForEver(Apply(s, steps[0]), steps[1..]);
    }
  }
}
