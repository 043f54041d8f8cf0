/** What a program can count on once it has been loaded: which accesses it may make, and what it reads. */
module Programs {
  import opened Basics
  import opened Sv39
  import opened PageTree
  import opened BuddyAllocator
  import opened Vm
  import opened Machine
  import opened AddressSpace
  import opened Accounting
  import opened Supply
  import opened Tasks
  import opened Borders
  import opened Process
  import Hardware
  import Isolation

  /** A program reads and writes its stack and reads and executes the pages of its file; all else kills it. */
  ghost predicate MayAccess(size: nat, va: nat, access: Access) {
    || (0x3f_ffff_c000 <= va < 0x40_0000_0000 && access != Fetch)
    || (va / 4096 * 4096 < size && access != Store)
  }

  ghost function Loaded(file: seq<byte>, va: nat): byte {
    if va < |file| then file[va] else 0
  }

  /** One access of a process that is in memory as its program was loaded. */
  method FirstAccess(K: Kernel, p: nat, file: seq<byte>, va: nat, access: Access, b: byte)
    returns (outcome: Outcome, read: byte)
    requires K.Valid() && p in K.tasks && Laid(K.tasks[p].vmas, |file|, 2) && |file| < 0x1_0000_0000
    requires p in Isolation.Replay(K.history) && Isolation.Replay(K.history)[p] == Isolation.Image(file, 2)
    requires |K.m.Now().s.free| >= 3 && Slot(K.tasks[p].pgd, va / PAGE_SIZE) !in K.m.Now().s.maps
    modifies K`tasks, K`records, K`history, K.m.Repr
    ensures K.Valid() && p in K.tasks && (outcome == Resumed <==> MayAccess(|file|, va, access))
    ensures outcome == Resumed && access != Store ==> read == Loaded(file, va)
    ensures outcome == Resumed ==> K.tasks == old(K.tasks)
    ensures outcome == Resumed && access == Store ==> K.history == old(K.history) + [Isolation.Stored(p, va, b)]
    ensures outcome != Resumed ==> outcome == Killed && K.tasks[p].state == Zombie
  {
    hide Kernel.Valid, Machine.Now, Find, Isolation.Replay, CanFill, Sole, Confined, Abandoned, Kernel.Reaches;
    Ready(K);
    ThreeFill(K.m.Now().s, K.tasks[p], va, access);
    assert LaidAt(Find(K.tasks[p].vmas, va), |file|, 2, va);
    read := 0;
    if access == Store {
      outcome := K.UserStore(p, va, b);
    } else {
      outcome, read := K.UserLoad(p, va, access);
    }
  }

  lemma Ready(K: Kernel)
    requires K.Valid()
    ensures K.m.Wired() && K !in K.m.Repr && K.sched !in K.m.Repr
  {
    K.Parts();
  }

  /** A page and its tables take at most three frames. */
  lemma ThreeFill(s: Snap, t: Task, va: nat, access: Access)
    requires |s.free| >= 3
    ensures CanFill(s, t, va, access) && s.free != {}
  {
    var v := va / PAGE_SIZE;
    NeededOne(t.pgd, v);
    var a, b := Pmd(t.pgd, Vpn2(v)), Pt(t.pgd, Vpn2(v), Vpn1(v));
    assert |{a, b}| == 2;
    SubsetSize(Missing(s.own, t.pgd, v, 1), {a, b});
    hide Needed, Missing, Find, Permits;
  }

  lemma PresentFills(s: Snap, t: Task, va: nat, access: Access)
    requires Slot(t.pgd, va / PAGE_SIZE) in s.maps
    ensures CanFill(s, t, va, access)
  {
  }

  /** exec, and the first access of the program. */
  method AfterExec(K: Kernel, p: nat, file: seq<byte>, va: nat, access: Access, b: byte)
    returns (outcome: Outcome, read: byte)
    requires K.Valid() && p in K.tasks && |file| < 0x1_0000_0000 && |K.m.Now().s.free| >= 4
    modifies K`tasks, K`records, K`history, K.m.Repr
    ensures K.Valid() && p in K.tasks && (outcome == Resumed <==> MayAccess(|file|, va, access))
    ensures outcome == Resumed && access != Store ==> read == Loaded(file, va)
    ensures outcome != Resumed ==> outcome == Killed && K.tasks[p].state == Zombie
  {
    hide Kernel.Valid, Machine.Now, Isolation.Image, Laid, ProgramAreas, Isolation.Replay;
    Ready(K);
    assert |K.m.Now().s.free| > 0;
    var _ := K.Exec(p, Some(file));
    Ready(K);
    Isolation.ReplayNext(old(K.history), Isolation.Execed(p, file));
    outcome, read := FirstAccess(K, p, file, va, access, b);
  }

  /** execute, and the first access of the new program: the first instruction, say. */
  method AfterExecute(K: Kernel, parent: nat, file: seq<byte>, va: nat, access: Access, b: byte)
    returns (c: nat, outcome: Outcome, read: byte)
    requires K.Valid() && parent in K.tasks && |file| < 0x1_0000_0000
    requires |K.m.Now().s.free| >= Spare(K.m.Now().h, TASK_SIZE) + 6
    modifies K`tasks, K`records, K`nrThreads, K`history, K.sched, K.m.Repr
    ensures K.Valid() && c in K.tasks && c !in old(K.tasks) && (outcome == Resumed <==> MayAccess(|file|, va, access))
    ensures outcome == Resumed && access != Store ==> read == Loaded(file, va)
    ensures outcome != Resumed ==> outcome == Killed && K.tasks[c].state == Zombie
  {
    hide Kernel.Valid, Machine.Now, Isolation.Image, Laid, ProgramAreas, Isolation.Replay, Spare, Confined;
    hide RoomAfterCreate, PagesAfterCreate, Given, Enqueued, KeptSince;
    Ready(K);
    ghost var w := K.m.Now();
    c := K.nrThreads;
    var _ := K.Execute(parent, Some(file));
    Ready(K);
    BothAreas(w);
    Isolation.ReplayNext(old(K.history), Isolation.Started(c, file, 2));
    outcome, read := FirstAccess(K, c, file, va, access, b);
  }

  lemma BothAreas(w: World)
    requires |w.s.free| >= Spare(w.h, TASK_SIZE) + 6
    ensures Given(RoomAfterCreate(w), 2) == 2 && PagesAfterCreate(w, 2) >= 3
  {
  }

  /** A store and a load at the same address. */
  method StoreAndLoad(K: Kernel, p: nat, va: nat, b: byte) returns (stored: Outcome, loaded: Outcome, read: byte)
    requires K.Valid() && p in K.tasks && CanFill(K.m.Now().s, K.tasks[p], va, Store)
    modifies K`tasks, K`records, K`history, K.m.Repr
    ensures K.Valid() && (stored == Resumed ==> loaded == Resumed && read == b && K.tasks == old(K.tasks))
    ensures stored == Resumed <==>
              var area := Find(old(K.tasks)[p].vmas, va);
              && area.Some? && area.value.prot.write
              && (old(K.m.Now()).s.free != {} || Sole(old(K.m.Now()).s, Slot(old(K.tasks)[p].pgd, va / PAGE_SIZE)))
  {
    hide Kernel.Valid, Machine.Now, Find, Isolation.Replay, CanFill, Sole, Confined, Abandoned, Kernel.Reaches;
    Ready(K);
    loaded, read := Killed, 0;
    stored := K.UserStore(p, va, b);
    if stored == Resumed {
      Ready(K);
      Reached(K, p, va, b);
      PresentFills(K.m.Now().s, K.tasks[p], va, Load);
      Isolation.ReplayNext(old(K.history), Isolation.Stored(p, va, b));
      loaded, read := K.UserLoad(p, va, Load);
    }
  }

  /** Where a store has gone through, the page is present, and the bytes of the process have it. */
  lemma Reached(K: Kernel, p: nat, va: nat, b: byte)
    requires K.Valid() && p in K.tasks && K.Reaches(K.tasks[p].pgd, va, Store, b)
    ensures K.m.Wired() && Slot(K.tasks[p].pgd, va / PAGE_SIZE) in K.m.Now().s.maps
  {
    hide Kernel.Structured, Machine.Valid, Machine.Now, Hardware.Translate;
    K.Parts();
    K.Back();
    RootOf(K.Books(), K.m.Now(), K.start, p);
    K.m.HardwareWalk(K.tasks[p].pgd, va / PAGE_SIZE, Store);
  }

  /** A program pushes a byte on its stack and reads it back. */
  method Push(K: Kernel, p: nat, file: seq<byte>, va: nat, b: byte) returns (read: byte)
    requires K.Valid() && p in K.tasks && |file| < 0x1_0000_0000 && |K.m.Now().s.free| >= 4
    requires 0x3f_ffff_c000 <= va < 0x40_0000_0000
    modifies K`tasks, K`records, K`history, K.m.Repr
    ensures K.Valid() && p in K.tasks && read == b
  {
    hide Kernel.Valid, Machine.Now, ProgramAreas, Find, Isolation.Replay, CanFill;
    Ready(K);
    assert |K.m.Now().s.free| > 0;
    var _ := K.Exec(p, Some(file));
    Ready(K);
    ThreeFill(K.m.Now().s, K.tasks[p], va, Store);
    assert LaidAt(Find(K.tasks[p].vmas, va), |file|, 2, va);
    var stored, loaded;
    stored, loaded, read := StoreAndLoad(K, p, va, b);
  }
}
