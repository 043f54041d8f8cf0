/** Processes and their memory: the page-fault handler, fork, exec, mmap and reaping. */
module Process {
  import opened Basics
  import opened BuddySpec
  import opened BuddyAllocator
  import opened KmallocSpec
  import opened KmallocPools
  import opened Sv39
  import opened PageTree
  import Hardware
  import opened Cow
  import opened Vm
  import opened Fork
  import opened Machine
  import opened AddressSpace
  import opened Mmap
  import opened Accounting
  import opened Steps
  import opened Supply
  import opened RunQueue
  import opened Tasks
  import opened Borders
  import Isolation

  class Kernel {
    const m: Machine
    const sched: Scheduler
    var tasks: map<nat, Task>
    /** Where the parts of the tasks are that kmalloc provides. */
    var records: map<nat, Record>
    var nrThreads: nat
    /** All that has been done so far to the memory of processes. */
    ghost var history: seq<Isolation.Event>
    /** How things were before there were tasks; frame_array at that time. */
    ghost var start: Start
    ghost const boot: seq<int>

    ghost function Books(): Kern
      reads this
    {
      Kern(tasks, records)
    }

    ghost predicate Apart()
      reads this`start
    {
      && this !in m.Repr && sched !in m.Repr && m.Wired() && start.base == m.mem.buddy.base
      && Booted(start, boot, m.mem.buddy.total)
    }

    /** Page tables, reference counts, areas, pointers and the run queue are in order, and no frame has been lost. */
    ghost predicate Structured()
      reads this, sched, m.Repr
    {
      && Apart() && m.Valid() && Sound(Books(), m.Now(), start, {})
      && sched.Valid() && Queued(sched.ring, Books(), nrThreads)
    }

    /** Moreover, processes see what they would see if each had private memory from the start. */
    ghost predicate Valid()
      reads this, sched, m.Repr
    {
      Structured() && Seen(Books(), m.Now()) == Isolation.Replay(history)
    }

    constructor (m: Machine, sched: Scheduler)
      requires m.Valid() && m.mem.own == map[] && m.mem.maps == map[]
      requires sched.Valid() && sched.ring == [] && sched !in m.Repr
      ensures Valid() && this.m == m && this.sched == sched && tasks == map[] && records == map[]
      ensures nrThreads == 0 && history == []
      ensures start == Start(m.mem.buddy.base, m.Now().s.free + Frames(m.Now().h), m.Now().h, {})
      ensures boot == m.mem.buddy.frameArray[..]
    {
      hide Machine.Valid, Held, Frames, Sound, Views, WF, FreeFrames;
      m.Blocks();
      this.m, this.sched := m, sched;
      tasks, records, nrThreads, history := map[], map[], 0, [];
      start := Start(m.mem.buddy.base, m.Now().s.free + Frames(m.Now().h), m.Now().h, {});
      boot := m.mem.buddy.frameArray[..];
      new;
      NoTasks(start, m.Now());
    }

    lemma Parts()
      requires Structured()
      ensures Apart() && m.Wired() && this !in m.Repr && sched !in m.Repr
      ensures start.base == m.mem.buddy.base && m.Valid() && Sound(Books(), m.Now(), start, {})
      ensures sched.Valid() && Queued(sched.ring, Books(), nrThreads)
    {
      hide Machine.Valid, Scheduler.Valid, Queued, Sound;
    }

    lemma Bound()
      requires Structured()
      ensures m.Wired() && Kept(Books(), m.Now(), start) && Parted(m.Now()) && records.Keys == tasks.Keys
    {
      hide Machine.Valid, Scheduler.Valid, Sound, Kept, Parted;
      Back();
      SoundKept(Books(), m.Now(), start);
    }

    lemma Wires()
      requires Apart()
      ensures this !in m.Repr && sched !in m.Repr && start.base == m.mem.buddy.base && m.Wired()
    {
    }

    lemma Whole()
      requires Apart() && m.Valid() && Sound(Books(), m.Now(), start, {})
      requires sched.Valid() && Queued(sched.ring, Books(), nrThreads)
      ensures Structured()
    {
    }

    lemma Back()
      requires m.Valid()
      ensures m.Wired() && Backing(m.Now()) && Parted(m.Now()) && |m.Now().h.chunks| == NUM_POOLS
      ensures HeapOk(m.mem.buddy.base, m.Now().s.fa, m.Now().s.refs, m.Now().h) && |m.Now().s.fa| <= MAX_PAGES
      ensures m.Now().s.free == FreeFrames(m.Now().s.fa)
    {
      hide Memory.Valid, Pools.Valid, Parted, PoolPages, LargeOk;
      m.Mapped();
      m.Sides();
    }

    /** kmalloc on behalf of the tasks in `k`. */
    method Take(size: nat, ghost k: Kern, ghost extra: set<nat>) returns (ptr: nat)
      requires Apart() && m.Valid() && Sound(k, m.Now(), start, extra)
      modifies m.Repr
      ensures m.Valid() && (ptr == NULL <==> !CanServe(Heaped(old(m.Now())), size))
      ensures ptr == NULL ==> m.Now() == old(m.Now())
      ensures ptr != NULL ==>
                && Sound(k, m.Now(), start, extra + {ptr}) && Seen(k, m.Now()) == Seen(k, old(m.Now()))
                && Allocated(start.base, old(m.Now()), m.Now(), size, ptr) && KeptSince(old(m.Now()).h, m.Now().h)
                && ptr !in extra && ptr !in Rest(start) && !HasPointer(k.records, ptr)
                && size <= SizeAt(start.base, m.Now().h, ptr)
    {
      hide Machine.Valid, Machine.Now, Sound, Allocated, HasPointer, Held, KeptSince, SizeAt;
      ghost var w := m.Now();
      Back();
      ptr := m.Kmalloc(size);
      if ptr != NULL {
        AllocStep(k, w, m.Now(), start, extra, size, ptr);
        KeptAllocated(start.base, w, m.Now(), size, ptr);
      }
    }

    /** kfree of a pointer that no task has any more. */
    method Give(ptr: nat, ghost k: Kern, ghost extra: set<nat>)
      requires Apart() && m.Valid() && Sound(k, m.Now(), start, extra) && ptr in extra
      modifies m.Repr
      ensures m.Valid() && Sound(k, m.Now(), start, extra - {ptr}) && Seen(k, m.Now()) == Seen(k, old(m.Now()))
      ensures SameSpaces(old(m.Now()).s, m.Now().s) && old(m.Now()).s.free <= m.Now().s.free
      ensures KeptBut(start.base, old(m.Now()).h, m.Now().h, {ptr})
    {
      hide Machine.Valid, Machine.Now, Sound, Freed, HasPointer, Held, KeptBut;
      ghost var w := m.Now();
      Back();
      ExtraHeld(k, w, start, extra, ptr);
      m.Kfree(ptr);
      FreeStep(k, w, m.Now(), start, extra, ptr);
      KeptFreed(start.base, w, m.Now(), ptr);
      FreedSpaces(start.base, w, m.Now(), ptr);
    }

    /** kfree of all pointers of a list. */
    method GiveAll(list: seq<nat>, ghost k: Kern, ghost extra: set<nat>)
      requires Apart() && m.Valid() && Sound(k, m.Now(), start, extra) && NoDup(list) && Elements(list) <= extra
      modifies m.Repr
      ensures m.Valid() && Sound(k, m.Now(), start, extra - Elements(list))
      ensures Seen(k, m.Now()) == Seen(k, old(m.Now()))
      ensures SameSpaces(old(m.Now()).s, m.Now().s) && old(m.Now()).s.free <= m.Now().s.free
      ensures KeptBut(start.base, old(m.Now()).h, m.Now().h, Elements(list))
    {
      hide Machine.Valid, Machine.Now, Sound, HasPointer, Held, KeptBut;
      var i := 0;
      ElementsTo(list, 0);
      assert extra - {} == extra;
      KeptRefl(start.base, m.Now().h);
      while i < |list|
        invariant i <= |list| && m.Valid() && Sound(k, m.Now(), start, extra - Elements(list[..i]))
        invariant Seen(k, m.Now()) == Seen(k, old(m.Now()))
        invariant SameSpaces(old(m.Now()).s, m.Now().s) && old(m.Now()).s.free <= m.Now().s.free
        invariant KeptBut(start.base, old(m.Now()).h, m.Now().h, Elements(list[..i]))
      {
        ghost var w := m.Now();
        ElementsTo(list, i);
        Give(list[i], k, extra - Elements(list[..i]));
        ghost var gone := Elements(list[..i]);
        KeptButTransitive(start.base, old(m.Now()).h, w.h, m.Now().h, gone, {list[i]});
        assert extra - gone - {list[i]} == extra - Elements(list[..i + 1]);
        i := i + 1;
      }
      assert list[..i] == list;
    }

    /** kmalloc for the rest of the kernel: timer events, deferred work, what the shell tries. */
    method Kmalloc(size: nat) returns (ptr: nat)
      requires Valid()
      modifies this`start, m.Repr
      ensures Valid() && (ptr == NULL <==> !CanServe(Heaped(old(m.Now())), size))
      ensures ptr == NULL ==> m.Now() == old(m.Now()) && start == old(start)
      ensures ptr != NULL ==>
                && start == old(start).(others := old(start).others + {ptr}) && ptr !in Rest(old(start))
                && !HasPointer(records, ptr) && Allocated(start.base, old(m.Now()), m.Now(), size, ptr)
                && size <= SizeAt(start.base, m.Now().h, ptr)
      ensures Confined(start.base, old(Books()), old(m.Now()), Books(), m.Now(), {}, {})
    {
      hide Structured, Machine.Valid, Machine.Now, Scheduler.Valid, Queued, Sound, Allocated, HasPointer;
      hide Rest, KeptSince, Seen, Booted, Confined, Kept, Parted, SameSpaces, SizeAt;
      Parts();
      Bound();
      ghost var k, w := Books(), m.Now();
      NoChange(start, k, w);
      ptr := Take(size, Books(), {});
      if ptr != NULL {
        assert {} + {ptr} == {ptr};
        TakenSpaces(start.base, w, m.Now(), size, ptr);
        KeptAll(start.base, w.h, m.Now().h);
        ConfinedToBooks(start.base, k, w, k, m.Now(), {});
        OthersMore(Books(), m.Now(), start, ptr);
        start := start.(others := start.others + {ptr});
        StillBooted(old(start), start, boot, m.mem.buddy.total);
      }
      Whole();
    }

    /** kfree of what the rest of the kernel has from kmalloc. */
    method Kfree(ptr: nat)
      requires Valid() && (ptr == NULL || ptr in start.others)
      modifies this`start, m.Repr
      ensures Valid() && (ptr == NULL ==> m.Now() == old(m.Now()) && start == old(start))
      ensures ptr != NULL ==>
                && start == old(start).(others := old(start).others - {ptr})
                && Freed(start.base, old(m.Now()), m.Now(), ptr)
      ensures Confined(start.base, old(Books()), old(m.Now()), Books(), m.Now(), {}, if ptr == NULL then {} else {ptr})
    {
      hide Structured, Machine.Valid, Machine.Now, Scheduler.Valid, Queued, Sound, Freed, HasPointer;
      hide Rest, KeptSince, KeptBut, Seen, Booted, Confined, Kept, SameSpaces;
      Bound();
      NoChange(start, Books(), m.Now());
      if ptr == NULL {
        return;
      }
      Parts();
      Back();
      ghost var w, k, c := m.Now(), Books(), start.(others := start.others - {ptr});
      OthersLess(k, w, start, ptr);
      ExtraHeld(k, w, c, {ptr}, ptr);
      m.Kfree(ptr);
      FreeStep(k, w, m.Now(), c, {ptr}, ptr);
      KeptFreed(start.base, w, m.Now(), ptr);
      FreedSpaces(start.base, w, m.Now(), ptr);
      ConfinedToBooks(start.base, k, w, k, m.Now(), {ptr});
      assert {ptr} - {ptr} == {};
      start := c;
      StillBooted(old(start), start, boot, m.mem.buddy.total);
      Whole();
    }

    /** thread_create: the task structure, the root of the page tables and the kernel stack of a new task. */
    method Build(pid: nat, ghost k: Kern) returns (t: Task, r: Record)
      requires Apart() && m.Valid() && Sound(k, m.Now(), start, {}) && pid !in k.tasks && pid !in k.records
      requires |m.Now().s.free| >= Spare(m.Now().h, TASK_SIZE) + 2
      modifies m.Repr
      ensures m.Valid() && Sound(Kern(k.tasks[pid := t], k.records[pid := r]), m.Now(), start, {})
      ensures t == Task(t.pgd, [], Running) && r == Record(r.node, r.stack, [], 0)
      ensures Fresh(old(m.Now()).s, m.Now().s, t.pgd)
      ensures |m.Now().s.free| == |old(m.Now()).s.free| - Spare(old(m.Now()).h, TASK_SIZE) - 2
      ensures SameList(old(m.Now()).h, m.Now().h, VMA_POOL) && KeptSince(old(m.Now()).h, m.Now().h)
      ensures Drawn(old(m.Now()).h, m.Now().h, TASK_SIZE) && Roomy(start.base, m.Now().h, r)
      ensures Seen(Kern(k.tasks[pid := t], k.records[pid := r]), m.Now()) ==
              Seen(k, old(m.Now()))[pid := View(t, m.Now().s.maps, m.Now().s.bytes)]
    {
      hide Drawn;
      hide Apart, Machine.Valid, Machine.Now, Scheduler.Valid, Sound, Allocated, Rooted, HasPointer;
      hide Held, CanServe, Spare, Fresh, View, Views, SameList, KeptSince, Backing, Parted, HeapOk, FreeFrames, Seen;
      hide SizeAt;
      Wires();
      Back();
      ghost var w0 := m.Now();
      Servable(w0, TASK_SIZE);
      var node := Take(TASK_SIZE, k, {});
      ghost var w1 := m.Now();
      Back();
      SpareUsed(start.base, w0, w1, TASK_SIZE, node);
      var root := m.FreshRoot();
      ghost var w2 := m.Now();
      RootUsed(w1, w2, root);
      t := Task(root, [], Running);
      assert {} + {node} == {node};
      Back();
      Servable(w2, STACK_SIZE);
      RootStep(k, w1, w2, start, {node}, pid, t);
      var stack := Take(STACK_SIZE, k.(tasks := k.tasks[pid := t]), {node});
      ghost var w3 := m.Now();
      Back();
      SpareUsed(start.base, w2, w3, STACK_SIZE, stack);
      Created(start.base, w0, w1, w2, w3, node, t, stack);
      r := Record(node, stack, [], 0);
      SizeKept(start.base, w1, w3, node);
      RecordTask(k.(tasks := k.tasks[pid := t]), w3, start, pid, r);
    }

    /** thread_create; the code checks none of its three allocations. */
    method ThreadCreate() returns (pid: nat)
      requires Structured() && |m.Now().s.free| >= Spare(m.Now().h, TASK_SIZE) + 2
      modifies this`tasks, this`records, this`nrThreads, sched, m.Repr
      ensures Structured() && pid == old(nrThreads) && nrThreads == pid + 1 && pid !in old(tasks)
      ensures pid in tasks && tasks == old(tasks)[pid := Task(tasks[pid].pgd, [], Running)]
      ensures pid in records && records == old(records)[pid := Record(records[pid].node, records[pid].stack, [], 0)]
      ensures sched.ring == Enqueued(old(sched.ring), pid)
      ensures Fresh(old(m.Now()).s, m.Now().s, tasks[pid].pgd)
      ensures |m.Now().s.free| == |old(m.Now()).s.free| - Spare(old(m.Now()).h, TASK_SIZE) - 2
      ensures SameList(old(m.Now()).h, m.Now().h, VMA_POOL) && KeptSince(old(m.Now()).h, m.Now().h)
      ensures Drawn(old(m.Now()).h, m.Now().h, TASK_SIZE) && Roomy(start.base, m.Now().h, records[pid])
      ensures Seen(Books(), m.Now()) ==
              Seen(old(Books()), old(m.Now()))[pid := View(tasks[pid], m.Now().s.maps, m.Now().s.bytes)]
    {
      hide Drawn, Roomy;
      hide Structured, Apart, Machine.Valid, Machine.Now, Scheduler.Valid, Queued, Sound;
      hide Spare, Fresh, View, Views, SameList, KeptSince, Seen;
      Parts();
      pid := nrThreads;
      QueuedNew(sched.ring, Books(), pid);
      var t, r := Build(pid, Books());
      tasks := tasks[pid := t];
      records := records[pid := r];
      nrThreads := nrThreads + 1;
      sched.Enqueue(pid);
      Whole();
    }

    /** thread_create of a kernel thread: it has no user memory. */
    method KernelThread() returns (pid: nat)
      requires Valid() && |m.Now().s.free| >= Spare(m.Now().h, TASK_SIZE) + 2
      modifies this`tasks, this`records, this`nrThreads, this`history, sched, m.Repr
      ensures Valid() && pid == old(nrThreads) && nrThreads == pid + 1 && pid !in old(tasks)
      ensures pid in tasks && tasks == old(tasks)[pid := Task(tasks[pid].pgd, [], Running)]
      ensures pid in records && records == old(records)[pid := Record(records[pid].node, records[pid].stack, [], 0)]
      ensures sched.ring == Enqueued(old(sched.ring), pid)
      ensures Fresh(old(m.Now()).s, m.Now().s, tasks[pid].pgd)
      ensures |m.Now().s.free| == |old(m.Now()).s.free| - Spare(old(m.Now()).h, TASK_SIZE) - 2
      ensures KeptSince(old(m.Now()).h, m.Now().h) && Drawn(old(m.Now()).h, m.Now().h, TASK_SIZE)
      ensures Confined(start.base, old(Books()), old(m.Now()), Books(), m.Now(), {}, {})
      ensures history == old(history) + [Isolation.Started(pid, [], 0)]
    {
      hide Drawn, Roomy;
      hide Structured, Machine.Valid, Machine.Now, Scheduler.Valid, Queued, Sound, Spare, Fresh, SameList, KeptSince;
      hide View, Seen, Isolation.Replay, Isolation.Image, Confined, Kept, Parted;
      Parts();
      Bound();
      ghost var k, w := Books(), m.Now();
      pid := ThreadCreate();
      ConfinedBirth(start.base, k, w, Books(), m.Now(), start, tasks[pid].pgd);
      NothingToSee(tasks[pid], m.Now().s);
      Log(Isolation.Started(pid, [], 0));
    }

    /** A task without pages gets one more area, in front of the others or behind them, if kmalloc has room for it. */
    method NewArea(p: nat, a: Vma, first: bool) returns (ok: bool)
      requires Structured() && p in tasks && VmasOk(Joined(tasks[p].vmas, a, first))
      requires forall v: nat :: Slot(tasks[p].pgd, v) !in m.Now().s.maps
      modifies this`tasks, this`records, m.Repr
      ensures Structured() && SameSpaces(old(m.Now()).s, m.Now().s) && KeptSince(old(m.Now()).h, m.Now().h)
      ensures ok <==> Room(old(m.Now())) > 0
      ensures !ok ==> m.Now() == old(m.Now()) && tasks == old(tasks) && records == old(records)
      ensures ok ==> tasks == old(tasks)[p := old(tasks)[p].(vmas := Joined(old(tasks)[p].vmas, a, first))]
      ensures ok ==> Served(old(m.Now()), m.Now())
      ensures ok ==>
                && p in records && p in old(records)
                && MoreNodes(start.base, m.Now().h, old(records)[p].areas, records[p].areas, first)
      ensures p in tasks && p in records && p in old(records)
      ensures records == old(records)[p := old(records)[p].(areas := records[p].areas)]
      ensures Seen(Books(), m.Now()) ==
              Seen(old(Books()), old(m.Now()))[p := View(tasks[p], m.Now().s.maps, m.Now().s.bytes)]
    {
      hide Structured, Apart, Machine.Valid, Machine.Now, Scheduler.Valid, Queued, Sound, Allocated, HasPointer, Held;
      hide CanServe, SameSpaces, Served, View, Views, KeptSince, Backing, Parted, HeapOk, FreeFrames, Seen, VmasOk;
      hide Room, Joined, SizeAt;
      Parts();
      Back();
      ghost var w, k := m.Now(), Books();
      AreaServable(w);
      var t := tasks[p].(vmas := Joined(tasks[p].vmas, a, first));
      TaskStep(k, w, start, {}, p, t);
      var x := Take(VMA_SIZE, k.(tasks := tasks[p := t]), {});
      ok := x != NULL;
      QueuedArea(sched.ring, k, nrThreads, p, t, x, first);
      if ok {
        Back();
        AreaServed(start.base, w, m.Now(), x);
        TakenSpaces(start.base, w, m.Now(), VMA_SIZE, x);
        assert {} + {x} == {x};
        JoinArea(k.(tasks := tasks[p := t]), m.Now(), start, p, x, first);
        ViewSpaces(t, w.s, m.Now().s);
        tasks := tasks[p := t];
        records := records[p := records[p].(areas := Joined(records[p].areas, x, first))];
      } else {
        SeenAt(k, w, p);
        Unchanged(w);
      }
      Whole();
    }

    /** The areas of a program for a task that has none: its file, then the stack. */
    method AddProgram(p: nat, file: seq<byte>) returns (ghost n: nat)
      requires Structured() && p in tasks && tasks[p].vmas == [] && |file| < 0x1_0000_0000
      requires forall v: nat :: Slot(tasks[p].pgd, v) !in m.Now().s.maps
      modifies this`tasks, this`records, m.Repr
      ensures Structured() && SameSpaces(old(m.Now()).s, m.Now().s) && KeptSince(old(m.Now()).h, m.Now().h)
      ensures n == Given(Room(old(m.Now())), 2)
      ensures tasks == old(tasks)[p := old(tasks)[p].(vmas := ProgramAreas(file, n))]
      ensures Laid(ProgramAreas(file, n), |file|, n)
      ensures |m.Now().s.free| == FreeAfter(List(old(m.Now()).h), |old(m.Now()).s.free|, n)
      ensures p in records && p in old(records)
      ensures records == old(records)[p := old(records)[p].(areas := records[p].areas)]
      ensures Seen(Books(), m.Now()) == Seen(old(Books()), old(m.Now()))[p := Isolation.Image(file, n)]
    {
      hide Structured, Apart, Machine.Valid, Machine.Now, Scheduler.Valid, Queued, Sound;
      hide Served, View, Views, KeptSince, Seen, VmasOk, Room, SameSpaces, FreeAfter, List, Laid, MoreNodes;
      hide ProgramAreas, StackArea, Joined, Isolation.Image;
      Parts();
      Wires();
      ghost var w := m.Now();
      FreeAfterNone(w);
      var code, stack := Vma(0, PagesFor(|file|) * PAGE_SIZE, CODE_PROT, file), StackArea();
      AreaByArea(file, code, stack);
      n := 0;
      var ok := NewArea(p, code, true);
      ghost var w1 := m.Now();
      SpacesSame(w.s, w1.s);
      if ok {
        OneServed(w, w1);
        FreeAfterNext(w, w, w1, 0);
        n := 1;
      }
      ok := NewArea(p, stack, true);
      if ok {
        assert tasks[p].vmas == ProgramAreas(file, 2);
        OneServed(w1, m.Now());
        FreeAfterNext(w, w1, m.Now(), 1);
        n := 2;
      }
      SpacesSame(w1.s, m.Now().s);
      KeptTransitive(w.h, w1.h, m.Now().h);
      ProgramView(tasks[p], file, n, m.Now().s.maps, m.Now().s.bytes);
    }

    /** user_program_execute: a new task with the areas of a program. */
    method StartProgram(parent: nat, file: seq<byte>) returns (c: nat, ghost n: nat)
      requires Structured() && parent in tasks && |file| < 0x1_0000_0000
      requires |m.Now().s.free| >= Spare(m.Now().h, TASK_SIZE) + 2
      modifies this`tasks, this`records, this`nrThreads, sched, m.Repr
      ensures Structured() && c == old(nrThreads) && nrThreads == c + 1 && n == Given(RoomAfterCreate(old(m.Now())), 2)
      ensures sched.ring == Enqueued(old(sched.ring), c) && c !in old(tasks)
      ensures c in tasks && tasks == old(tasks)[c := Task(tasks[c].pgd, ProgramAreas(file, n), Running)]
      ensures Laid(tasks[c].vmas, |file|, n) && |m.Now().s.free| == PagesAfterCreate(old(m.Now()), n)
      ensures c in records && records == old(records)[c := records[c].(ppid := parent)]
      ensures Fresh(old(m.Now()).s, m.Now().s, tasks[c].pgd) && KeptSince(old(m.Now()).h, m.Now().h)
      ensures Seen(Books(), m.Now()) == Seen(old(Books()), old(m.Now()))[c := Isolation.Image(file, n)]
    {
      hide Drawn, Roomy;
      hide Structured, Apart, Machine.Valid, Machine.Now, Scheduler.Valid, Queued, Sound;
      hide View, Views, KeptSince, Seen, Room, RoomAfterCreate, SameSpaces, Fresh, Spare, SameList, ProgramAreas, Given;
      hide Isolation.Image, Enqueued, PagesAfterCreate, FreeAfter, List, Laid;
      Parts();
      ghost var w := m.Now();
      BelowNr(sched.ring, Books(), nrThreads, parent);
      c := ThreadCreate();
      Parts();
      ghost var w1 := m.Now();
      CreatedRoom(w, w1);
      FreshSlots(w.s, w1.s, tasks[c].pgd);
      SetParent(c, parent);
      n := AddProgram(c, file);
      Parts();
      FreshSame(w.s, w1.s, m.Now().s, tasks[c].pgd);
      KeptTransitive(w.h, w1.h, m.Now().h);
    }

    /** user_program_execute for the current task `parent`, with what cpio_find delivered. */
    method Execute(parent: nat, found: Option<seq<byte>>) returns (ret: int)
      requires Valid() && parent in tasks && (found.Some? ==> |found.value| < 0x1_0000_0000)
      requires found.Some? ==> |m.Now().s.free| >= Spare(m.Now().h, TASK_SIZE) + 2
      modifies this`tasks, this`records, this`nrThreads, this`history, sched, m.Repr
      ensures Valid() && ret == if found == None then -1 else old(nrThreads)
      ensures found == None ==> m.Now() == old(m.Now()) && Books() == old(Books()) && history == old(history)
      ensures found == None ==> nrThreads == old(nrThreads) && sched.ring == old(sched.ring)
      ensures found.Some? ==>
                var c, w := old(nrThreads), old(m.Now());
                var n := Given(RoomAfterCreate(w), 2);
                && nrThreads == c + 1 && sched.ring == Enqueued(old(sched.ring), c) && c !in old(tasks)
                && c in tasks && tasks == old(tasks)[c := Task(tasks[c].pgd, ProgramAreas(found.value, n), Running)]
                && Laid(tasks[c].vmas, |found.value|, n) && |m.Now().s.free| == PagesAfterCreate(w, n)
                && c in records && records == old(records)[c := records[c].(ppid := parent)]
                && Fresh(w.s, m.Now().s, tasks[c].pgd) && KeptSince(w.h, m.Now().h)
                && history == old(history) + [Isolation.Started(c, found.value, n)]
      ensures Confined(start.base, old(Books()), old(m.Now()), Books(), m.Now(), {}, {})
    {
      hide Structured, Machine.Valid, Machine.Now, Scheduler.Valid, Queued, Sound;
      hide View, Views, KeptSince, Seen, RoomAfterCreate, Fresh, Spare, ProgramAreas, Given, Isolation.Replay;
      hide Isolation.Image, Confined, Kept, Parted, SameSpaces, Laid, PagesAfterCreate;
      Parts();
      Bound();
      ghost var k, w := Books(), m.Now();
      if found == None {
        Unchanged(w);
        KeptAll(start.base, w.h, w.h);
        ConfinedToBooks(start.base, k, w, k, w, {});
        return -1;
      }
      var c, n := StartProgram(parent, found.value);
      ConfinedBirth(start.base, k, w, Books(), m.Now(), start, tasks[c].pgd);
      assert Seen(Books(), m.Now()) == Isolation.Replay(old(history))[c := Isolation.Image(found.value, n)];
      Log(Isolation.Started(c, found.value, n));
      ret := c;
    }

    /** The parent of a task is now another. */
    method SetParent(p: nat, parent: nat)
      requires Structured() && p in tasks && parent < nrThreads
      modifies this`records
      ensures Structured() && p in old(records) && records == old(records)[p := old(records)[p].(ppid := parent)]
      ensures Seen(Books(), m.Now()) == old(Seen(Books(), m.Now()))
    {
      hide Structured, Apart, Machine.Valid, Machine.Now, Scheduler.Valid, Queued, Sound, Seen;
      Parts();
      Wires();
      QueuedParent(sched.ring, Books(), nrThreads, p, parent);
      ParentStep(Books(), m.Now(), start, p, parent);
      records := records[p := records[p].(ppid := parent)];
      Whole();
    }

    /** An action has been carried out. */
    ghost method Log(e: Isolation.Event)
      requires Structured() && Seen(Books(), m.Now()) == Isolation.Apply(Isolation.Replay(history), e)
      modifies this`history
      ensures Valid() && history == old(history) + [e]
    {
      hide Structured, Apart, Machine.Valid, Machine.Now, Scheduler.Valid, Queued, Sound, Seen;
      hide Isolation.Apply, Isolation.Replay;
      Parts();
      Isolation.ReplayNext(history, e);
      history := history + [e];
      Whole();
    }

    /** do_exec: a new root, and the old tree torn down. */
    method SwapTree(p: nat, oldRoot: nat, ghost k: Kern) returns (root: nat)
      requires Apart() && m.Valid() && Sound(k, m.Now(), start, {}) && m.Now().s.free != {}
      requires p in k.tasks && k.tasks[p].pgd == oldRoot
      modifies m.Repr
      ensures m.Valid() && m.Now().h == old(m.Now()).h
      ensures Moved(old(m.Now()), m.Now(), oldRoot, root) && |m.Now().s.free| >= |old(m.Now()).s.free|
      ensures forall v: nat :: Slot(root, v) !in m.Now().s.maps
      ensures var t := Task(root, [], k.tasks[p].state);
              var k' := k.(tasks := k.tasks[p := t]);
              && Sound(k', m.Now(), start, {})
              && Seen(k', m.Now()) == Seen(k, old(m.Now()))[p := View(t, m.Now().s.maps, m.Now().s.bytes)]
    {
      hide Apart, Machine.Valid, Machine.Now, Sound, Rooted, Shrunk, Moved;
      hide View, Seen, Backing, Parted, HeapOk, FreeFrames, Cut, InTree;
      Wires();
      Back();
      ghost var w := m.Now();
      RootOf(k, w, start, p);
      root := m.FreshRoot();
      ghost var w1 := m.Now();
      StillRoot(w, w1, root, oldRoot);
      m.DropTree(oldRoot);
      ExecStep(k, w, w1, m.Now(), start, p, Task(root, [], k.tasks[p].state));
      ExecMoved(w, w1, m.Now(), root, oldRoot);
      MovedFree(w, w1, m.Now(), root, oldRoot);
    }

    /** do_exec: a new root, the old tree torn down, and the old areas given back. */
    method Vacate(p: nat)
      requires Structured() && p in tasks && m.Now().s.free != {}
      modifies this`tasks, this`records, m.Repr
      ensures Structured() && p in tasks && tasks == old(tasks)[p := Task(tasks[p].pgd, [], old(tasks)[p].state)]
      ensures p in old(records) && records == old(records)[p := old(records)[p].(areas := [])]
      ensures Moved(old(m.Now()), m.Now(), old(tasks)[p].pgd, tasks[p].pgd)
      ensures |m.Now().s.free| >= |old(m.Now()).s.free|
      ensures forall v: nat :: Slot(tasks[p].pgd, v) !in m.Now().s.maps
      ensures KeptBut(start.base, old(m.Now()).h, m.Now().h, Elements(old(records)[p].areas))
      ensures Seen(Books(), m.Now()) ==
              Seen(old(Books()), old(m.Now()))[p := View(tasks[p], m.Now().s.maps, m.Now().s.bytes)]
    {
      hide Structured, Apart, Machine.Valid, Machine.Now, Scheduler.Valid, Queued, Sound, Moved, SameSpaces;
      hide View, Views, KeptBut, Seen, Elements, NoDup, Pointers;
      Parts();
      ghost var w, k := m.Now(), Books();
      QueuedVacant(sched.ring, k, nrThreads, p);
      var areas := records[p].areas;
      var root := SwapTree(p, tasks[p].pgd, k);
      ghost var w1 := m.Now();
      var t := Task(root, [], tasks[p].state);
      ghost var k1 := k.(tasks := k.tasks[p := t]);
      DropAreas(k1, w1, start, p);
      GiveAll(areas, k1.(records := k.records[p := k.records[p].(areas := [])]), Elements(areas));
      assert Elements(areas) - Elements(areas) == {};
      SubsetSize(w1.s.free, m.Now().s.free);
      SpacesSame(w1.s, m.Now().s);
      MovedSame(w, w1, m.Now(), k.tasks[p].pgd, root);
      ViewSpaces(t, w1.s, m.Now().s);
      tasks := tasks[p := t];
      records := records[p := records[p].(areas := [])];
      Whole();
    }

    /** do_exec, once the program is found: a fresh tree and the areas of the program. */
    method Reload(p: nat, file: seq<byte>)
      requires Structured() && p in tasks && |file| < 0x1_0000_0000 && m.Now().s.free != {}
      modifies this`tasks, this`records, m.Repr
      ensures Structured() && p in tasks && p in records && p in old(records)
      ensures tasks == old(tasks)[p := Task(tasks[p].pgd, ProgramAreas(file, 2), old(tasks)[p].state)]
      ensures Laid(tasks[p].vmas, |file|, 2) && |m.Now().s.free| >= |old(m.Now()).s.free| - 1
      ensures forall v: nat :: Slot(tasks[p].pgd, v) !in m.Now().s.maps
      ensures records == old(records)[p := old(records)[p].(areas := records[p].areas)]
      ensures Moved(old(m.Now()), m.Now(), old(tasks)[p].pgd, tasks[p].pgd)
      ensures KeptBut(start.base, old(m.Now()).h, m.Now().h, Elements(old(records)[p].areas))
      ensures Seen(Books(), m.Now()) == Seen(old(Books()), old(m.Now()))[p := Isolation.Image(file, 2)]
    {
      hide Structured, Machine.Valid, Machine.Now, Scheduler.Valid, Queued, Sound, KeptSince, KeptBut, SameSpaces;
      hide Moved, View, Views, Seen, Elements, ProgramAreas, Given, Isolation.Image, Laid;
      Parts();
      ghost var w := m.Now();
      Vacate(p);
      Parts();
      ghost var w1 := m.Now();
      EnoughRoom(w1);
      ghost var n := AddProgram(p, file);
      SpacesSame(w1.s, m.Now().s);
      MovedSame(w, w1, m.Now(), old(tasks)[p].pgd, tasks[p].pgd);
      KeptSinceBut(start.base, w.h, w1.h, m.Now().h, Elements(old(records)[p].areas));
    }

    /** do_exec for the current task p, with what cpio_find delivered. */
    method Exec(p: nat, found: Option<seq<byte>>) returns (ret: int)
      requires Valid() && p in tasks && (found.Some? ==> |found.value| < 0x1_0000_0000 && m.Now().s.free != {})
      modifies this`tasks, this`records, this`history, m.Repr
      ensures Valid() && ret == if found == None then -1 else 0
      ensures found == None ==> m.Now() == old(m.Now()) && Books() == old(Books()) && history == old(history)
      ensures Confined(start.base, old(Books()), old(m.Now()), Books(), m.Now(), {p}, {})
      ensures found.Some? ==>
                && p in tasks && p in records && p in old(records)
                && tasks == old(tasks)[p := Task(tasks[p].pgd, ProgramAreas(found.value, 2), old(tasks)[p].state)]
                && records == old(records)[p := old(records)[p].(areas := records[p].areas)]
                && Moved(old(m.Now()), m.Now(), old(tasks)[p].pgd, tasks[p].pgd)
                && Laid(tasks[p].vmas, |found.value|, 2) && |m.Now().s.free| >= |old(m.Now()).s.free| - 1
                && (forall v: nat :: Slot(tasks[p].pgd, v) !in m.Now().s.maps)
                && KeptBut(start.base, old(m.Now()).h, m.Now().h, Elements(old(records)[p].areas))
                && history == old(history) + [Isolation.Execed(p, found.value)]
    {
      hide Structured, Machine.Valid, Machine.Now, Scheduler.Valid, Queued, Sound, KeptSince, KeptBut, Isolation.Image;
      hide Moved, View, Views, Seen, Elements, ProgramAreas, Isolation.Replay, Confined, Kept, OnlyIn, Parted, Laid;
      Parts();
      Bound();
      ghost var k, w := Books(), m.Now();
      if found == None {
        OnlyInRefl(w.s, w.s, tasks[p].pgd);
        ConfinedAccess(start, k, w, k, w, p);
        return -1;
      }
      Reload(p, found.value);
      ConfinedMove(start.base, k, w, Books(), m.Now(), start, p, tasks[p].pgd);
      Log(Isolation.Execed(p, found.value));
      ret := 0;
    }

    /** Reaping in kill_zombies and do_waitpid: a task leaves the queue, and all that it has is given back. */
    method Reap(p: nat)
      requires Valid() && p in tasks && tasks[p].state == Zombie
      modifies this`tasks, this`records, this`history, sched, m.Repr
      ensures Valid() && tasks == old(tasks) - {p} && records == old(records) - {p}
      ensures forall i: nat :: i < |old(sched.ring)| && old(sched.ring)[i] == p ==>
                sched.ring == Without(old(sched.ring), i)
      ensures TornDown(old(m.Now()).s, m.Now().s, old(tasks)[p].pgd)
      ensures p in old(records) && KeptBut(start.base, old(m.Now()).h, m.Now().h, Elements(Pointers(old(records)[p])))
      ensures history == old(history) + [Isolation.Reaped(p)]
      ensures Confined(start.base, old(Books()), old(m.Now()), Books(), m.Now(), {p}, {})
    {
      hide Structured, Machine.Valid, Machine.Now, Scheduler.Valid, Queued, Sound, KeptBut, TornDown, Elements;
      hide Pointers, Confined, Kept;
      hide Views, Seen, Isolation.Replay;
      Parts();
      Bound();
      ghost var k, w := Books(), m.Now();
      Release(p);
      ConfinedDeath(start.base, k, w, Books(), m.Now(), start, p);
      assert Seen(Books(), m.Now()) == Isolation.Replay(old(history)) - {p};
      Parts();
      Log(Isolation.Reaped(p));
    }

    method Release(p: nat)
      requires Structured() && p in tasks
      modifies this`tasks, this`records, sched, m.Repr
      ensures Structured() && tasks == old(tasks) - {p} && records == old(records) - {p}
      ensures forall i: nat :: i < |old(sched.ring)| && old(sched.ring)[i] == p ==>
                sched.ring == Without(old(sched.ring), i)
      ensures TornDown(old(m.Now()).s, m.Now().s, old(tasks)[p].pgd)
      ensures p in old(records) && KeptBut(start.base, old(m.Now()).h, m.Now().h, Elements(Pointers(old(records)[p])))
      ensures Seen(Books(), m.Now()) == Seen(old(Books()), old(m.Now())) - {p}
    {
      hide Structured, Apart, Machine.Valid, Machine.Now, Scheduler.Valid, Queued, Sound, TornDown;
      hide Views, KeptBut, Seen, Elements, Pointers;
      Parts();
      InQueue(sched.ring, Books(), nrThreads, p);
      ghost var at := sched.PlaceOf(p);
      QueuedGone(sched.ring, Books(), nrThreads, p, at);
      sched.Dequeue(p);
      Dispose(p, tasks[p].pgd, records[p], Books());
      tasks := tasks - {p};
      records := records - {p};
      Whole();
    }

    /** The page tables of a task and all that it has from kmalloc are given back. */
    method Dispose(p: nat, root: nat, r: Record, ghost k: Kern)
      requires Apart() && m.Valid() && Sound(k, m.Now(), start, {})
      requires p in k.tasks && p in k.records && k.tasks[p].pgd == root && k.records[p] == r
      modifies m.Repr
      ensures m.Valid() && Sound(Kern(k.tasks - {p}, k.records - {p}), m.Now(), start, {})
      ensures TornDown(old(m.Now()).s, m.Now().s, root)
      ensures KeptBut(start.base, old(m.Now()).h, m.Now().h, Elements(Pointers(r)))
      ensures Seen(Kern(k.tasks - {p}, k.records - {p}), m.Now()) == Seen(k, old(m.Now())) - {p}
    {
      hide Apart, Machine.Valid, Machine.Now, Sound, Shrunk, TornDown, SameSpaces;
      hide KeptBut, Seen, Cut, InTree, Elements, NoDup, Pointers;
      Wires();
      ghost var w := m.Now();
      RootOf(k, w, start, p);
      m.DropTree(root);
      ghost var w1 := m.Now();
      ReapAll(k, w, w1, start, p);
      ReapTornDown(w.s, w1.s, root);
      GiveBack(r, Kern(k.tasks - {p}, k.records - {p}));
      SameTornDown(w.s, w1.s, m.Now().s, root);
    }

    /** kfree of the areas, the stack and the structure of a task. */
    method GiveBack(r: Record, ghost k: Kern)
      requires Apart() && m.Valid() && Sound(k, m.Now(), start, Elements(Pointers(r))) && NoDup(Pointers(r))
      modifies m.Repr
      ensures m.Valid() && Sound(k, m.Now(), start, {}) && SameSpaces(old(m.Now()).s, m.Now().s)
      ensures Seen(k, m.Now()) == Seen(k, old(m.Now()))
      ensures KeptBut(start.base, old(m.Now()).h, m.Now().h, Elements(Pointers(r)))
    {
      hide Apart, Machine.Valid, Machine.Now, Sound, SameSpaces, KeptBut, Seen, Elements, NoDup, Pointers;
      Wires();
      ghost var w, e := m.Now(), Elements(Pointers(r));
      ElementsSplit(r);
      GiveAll(r.areas, k, e);
      ghost var w1 := m.Now();
      Give(r.stack, k, e - Elements(r.areas));
      ghost var w2 := m.Now();
      Give(r.node, k, e - Elements(r.areas) - {r.stack});
      SpacesSame(w.s, w1.s);
      SpacesSame(w.s, w2.s);
      KeptButTransitive(start.base, w.h, w1.h, w2.h, Elements(r.areas), {r.stack});
      KeptButTransitive(start.base, w.h, w2.h, m.Now().h, Elements(r.areas) + {r.stack}, {r.node});
    }

    /** do_fork: duplicate the parent's list of areas, in order, as far as kmalloc has room. */
    method CopyVmas(p: nat, child: nat) returns (ghost n: nat)
      requires Structured() && p in tasks && child in tasks && p != child && tasks[child].vmas == []
      requires forall v: nat :: Slot(tasks[child].pgd, v) !in m.Now().s.maps
      modifies this`tasks, this`records, m.Repr
      ensures Structured() && SameSpaces(old(m.Now()).s, m.Now().s) && KeptSince(old(m.Now()).h, m.Now().h)
      ensures n == Given(Room(old(m.Now())), |old(tasks)[p].vmas|)
      ensures tasks == old(tasks)[child := old(tasks)[child].(vmas := old(tasks)[p].vmas[..n])]
      ensures child in records && child in old(records)
      ensures records == old(records)[child := old(records)[child].(areas := records[child].areas)]
      ensures |m.Now().s.free| == FreeAfter(List(old(m.Now()).h), |old(m.Now()).s.free|, n)
      ensures Seen(Books(), m.Now()) ==
              Seen(old(Books()), old(m.Now()))[child := View(tasks[child], m.Now().s.maps, m.Now().s.bytes)]
    {
      hide Structured, Apart, Machine.Valid, Machine.Now, Scheduler.Valid, Queued, Sound, SameSpaces, Served;
      hide View, KeptSince, Seen, VmasOk, Room, FreeAfter, List, MoreNodes;
      Parts();
      ghost var w := m.Now();
      var list := tasks[p].vmas;
      AreasOf(Books(), w, start, p);
      FirstOf(Books(), w, sched.ring, nrThreads, child);
      n := 0;
      var i := 0;
      while i < |list|
        invariant i <= |list| && Structured() && n == Given(Room(w), i) && m.Wired()
        invariant SameSpaces(w.s, m.Now().s) && KeptSince(w.h, m.Now().h) && Room(m.Now()) == Room(w) - n
        invariant tasks == old(tasks)[child := old(tasks)[child].(vmas := list[..n])]
        invariant child in records && child in old(records)
        invariant records == old(records)[child := old(records)[child].(areas := records[child].areas)]
        invariant |m.Now().s.free| == FreeAfter(List(w.h), |w.s.free|, n)
        invariant Seen(Books(), m.Now()) ==
                  Seen(old(Books()), w)[child := View(tasks[child], m.Now().s.maps, m.Now().s.bytes)]
      {
        ghost var w1 := m.Now();
        SpacesSame(w.s, w1.s);
        AreasPrefix(list, n, i);
        var ok := NewArea(child, list[i], false);
        KeptTransitive(w.h, w1.h, m.Now().h);
        if ok {
          FreeAfterNext(w, w1, m.Now(), n);
          n := n + 1;
        }
        i := i + 1;
      }
      assert list[..n] == old(tasks)[p].vmas[..n];
    }

    /** do_fork: a new task with copies of the parent's areas and nothing mapped yet. */
    method AddChild(p: nat) returns (child: nat, ghost n: nat)
      requires Structured() && p in tasks && |m.Now().s.free| >= Spare(m.Now().h, TASK_SIZE) + 2
      modifies this`tasks, this`records, this`nrThreads, sched, m.Repr
      ensures Structured() && child == old(nrThreads) && nrThreads == child + 1 && child !in old(tasks)
      ensures n == Given(RoomAfterCreate(old(m.Now())), |old(tasks)[p].vmas|)
      ensures child in tasks && tasks == old(tasks)[child := Task(tasks[child].pgd, old(tasks)[p].vmas[..n], Running)]
      ensures child in records && records == old(records)[child := records[child]] && records[child].ppid == 0
      ensures sched.ring == Enqueued(old(sched.ring), child)
      ensures Fresh(old(m.Now()).s, m.Now().s, tasks[child].pgd) && KeptSince(old(m.Now()).h, m.Now().h)
      ensures |m.Now().s.free| == PagesAfterCreate(old(m.Now()), n)
      ensures Seen(Books(), m.Now()) ==
              Seen(old(Books()), old(m.Now()))[child := View(tasks[child], m.Now().s.maps, m.Now().s.bytes)]
    {
      hide Drawn, Roomy;
      hide Structured, Apart, Machine.Valid, Machine.Now, Scheduler.Valid, Queued, Sound;
      hide View, Views, KeptSince, Seen, Room, RoomAfterCreate, PagesAfterCreate, SameSpaces, Fresh, Spare, SameList;
      hide Given;
      hide Enqueued, List, FreeAfter;
      Parts();
      ghost var w := m.Now();
      child := ThreadCreate();
      Parts();
      ghost var w1 := m.Now();
      CreatedRoom(w, w1);
      FreshSlots(w.s, w1.s, tasks[child].pgd);
      n := CopyVmas(p, child);
      Parts();
      FreshSame(w.s, w1.s, m.Now().s, tasks[child].pgd);
      KeptTransitive(w.h, w1.h, m.Now().h);
    }

    /** do_fork, the page tables: false exactly when there are fewer free frames than tables to copy. */
    method ShareTree(p: nat, child: nat) returns (ok: bool, ghost n: nat)
      requires Structured() && p in tasks && child in tasks && p != child
      requires tasks[child].vmas == tasks[p].vmas || m.Now().s.free == {}
      requires tasks[child].vmas <= tasks[p].vmas
      requires forall v: nat :: Slot(tasks[child].pgd, v) !in m.Now().s.maps
      requires forall f :: f in m.Now().s.own && f != tasks[child].pgd ==>
                 !InTree(m.Now().s.own[f], f, tasks[child].pgd)
      modifies m.Repr
      ensures Structured() && m.Now().h == old(m.Now()).h
      ensures ok <==> |old(m.Now()).s.free| >= |AllBelow(Tables(old(m.Now()).s.own), tasks[p].pgd)|
      ensures ForkGrown(old(m.Now()).s, m.Now().s, tasks[child].pgd)
      ensures Forked(old(m.Now()).s.maps, m.Now().s.maps, tasks[p].pgd, tasks[child].pgd, n)
      ensures n <= USER_PAGES && (ok ==> n == USER_PAGES)
      ensures !ok ==> StopsAt(Tables(old(m.Now()).s.own), tasks[p].pgd, |old(m.Now()).s.free|, n)
      ensures child in Seen(Books(), m.Now()) && p in Seen(Books(), old(m.Now()))
      ensures Seen(Books(), m.Now()) == Seen(Books(), old(m.Now()))[child := Seen(Books(), m.Now())[child]]
      ensures Seen(Books(), m.Now())[child] == PartCopy(Seen(Books(), old(m.Now()))[p], tasks[child].vmas, n)
      ensures ok && tasks[child].vmas == tasks[p].vmas ==>
                Seen(Books(), m.Now())[child] == Seen(Books(), old(m.Now()))[p]
    {
      hide Structured, Apart, Machine.Valid, Machine.Now, Scheduler.Valid, Queued, Sound, Backing, Parted, HeapOk;
      hide Seen, ForkGrown, Forked, AllBelow, Tables, InTree, FreeFrames, PartCopy, StopsAt;
      Parts();
      Back();
      ghost var w := m.Now();
      RootOf(Books(), w, start, p);
      RootOf(Books(), w, start, child);
      RootsApart(Books(), w, start, p, child);
      ok, n := m.CopyTree(tasks[p].pgd, tasks[child].pgd);
      ForkStep(Books(), w, m.Now(), start, p, child, n);
      PartialSeen(Books(), w, m.Now(), p, child, n);
      Whole();
    }

    /** do_fork up to the child's trap frame: the child with its areas, its tables and its parent. */
    method Duplicate(p: nat) returns (child: nat, ok: bool, whole: bool, ghost i: nat)
      requires Structured() && p in tasks && |m.Now().s.free| >= Spare(m.Now().h, TASK_SIZE) + 2
      modifies this`tasks, this`records, this`nrThreads, sched, m.Repr
      ensures Structured() && child == old(nrThreads) && nrThreads == child + 1 && child !in old(tasks)
      ensures ok <==> PagesAfterCreate(old(m.Now()), |old(tasks)[p].vmas|)
                      >= |AllBelow(Tables(old(m.Now()).s.own), old(tasks)[p].pgd)|
      ensures var n := Given(RoomAfterCreate(old(m.Now())), |old(tasks)[p].vmas|);
              && child in tasks && tasks
                 == old(tasks)[child := Task(tasks[child].pgd, old(tasks)[p].vmas[..n], Running)]
              && (whole <==> ok && n == |old(tasks)[p].vmas|)
      ensures child in records && records == old(records)[child := records[child].(ppid := if ok then p else 0)]
      ensures sched.ring == Enqueued(old(sched.ring), child) && p in tasks
      ensures Sprouted(old(m.Now()).s, m.Now().s, tasks[child].pgd) && KeptSince(old(m.Now()).h, m.Now().h)
      ensures i <= USER_PAGES && (ok ==> i == USER_PAGES)
      ensures !ok ==> StopsAt(Tables(old(m.Now()).s.own), old(tasks)[p].pgd,
                              PagesAfterCreate(old(m.Now()), |old(tasks)[p].vmas|), i)
      ensures Forked(old(m.Now()).s.maps, m.Now().s.maps, tasks[p].pgd, tasks[child].pgd, i)
      ensures child in Seen(Books(), m.Now()) && p in Seen(old(Books()), old(m.Now()))
      ensures Seen(Books(), m.Now()) == Seen(old(Books()), old(m.Now()))[child := Seen(Books(), m.Now())[child]]
      ensures Seen(Books(), m.Now())[child] ==
              PartCopy(Seen(old(Books()), old(m.Now()))[p], tasks[child].vmas, i)
      ensures whole ==> Seen(Books(), m.Now())[child] == Seen(old(Books()), old(m.Now()))[p]
    {
      hide Structured, Apart, Machine.Valid, Machine.Now, Scheduler.Valid, Queued, Sound, Sprouted, KeptSince, Fresh;
      hide View, Views, Seen, ForkGrown, Forked, AllBelow, Tables, InTree, FreeFrames, RoomAfterCreate;
      hide PagesAfterCreate, PartCopy, StopsAt;
      hide Enqueued, Given, Spare;
      Parts();
      ghost var w, count := m.Now(), |tasks[p].vmas|;
      ghost var seen := Seen(Books(), w);
      TreesRooted();
      AreasGiven(w, count);
      BelowNr(sched.ring, Books(), nrThreads, p);
      ghost var n;
      child, n := AddChild(p);
      Parts();
      ghost var w1, seen1 := m.Now(), Seen(Books(), m.Now());
      FreshSlots(w.s, w1.s, tasks[child].pgd);
      FreshTree(w.s, w1.s, tasks[child].pgd, tasks[p].pgd);
      SeenOf(Books(), w1, p);
      OtherSeen(seen, seen1, p, child);
      ok, i := ShareTree(p, child);
      Parts();
      ForkSprouted(w.s, w1.s, m.Now().s, tasks[child].pgd);
      SeenPut(seen, seen1, Seen(Books(), m.Now()), child);
      whole := ok && |tasks[child].vmas| == |tasks[p].vmas|;
      if ok {
        SetParent(child, p);
      }
    }

    /**
     do_fork for the current task p; -1 exactly when the pages left after the child's creation are too few for its
     tables.
     */
    method Fork(p: nat) returns (ret: int)
      requires Valid() && p in tasks && |m.Now().s.free| >= Spare(m.Now().h, TASK_SIZE) + 2
      modifies this`tasks, this`records, this`nrThreads, this`history, sched, m.Repr
      ensures Valid() && nrThreads == old(nrThreads) + 1 && (ret == -1 || ret == old(nrThreads))
      ensures ret == -1 <==> PagesAfterCreate(old(m.Now()), |old(tasks)[p].vmas|)
                             < |AllBelow(Tables(old(m.Now()).s.own), old(tasks)[p].pgd)|
      ensures var c, w, vmas := old(nrThreads), old(m.Now()), old(tasks)[p].vmas;
              var n := Given(RoomAfterCreate(w), |vmas|);
              && sched.ring == Enqueued(old(sched.ring), c) && c !in old(tasks) && p in tasks
              && c in tasks && tasks == old(tasks)[c := Task(tasks[c].pgd, vmas[..n], Running)]
              && c in records && records == old(records)[c := records[c].(ppid := if ret == -1 then 0 else p)]
              && Sprouted(w.s, m.Now().s, tasks[c].pgd) && KeptSince(w.h, m.Now().h)
              && (exists i: nat :: i <= USER_PAGES && (ret != -1 ==> i == USER_PAGES)
                    && (ret == -1 ==> StopsAt(Tables(w.s.own), tasks[p].pgd, PagesAfterCreate(w, |vmas|), i))
                    && Forked(w.s.maps, m.Now().s.maps, tasks[p].pgd, tasks[c].pgd, i)
                    && c in Seen(Books(), m.Now()) && p in Seen(old(Books()), w)
                    && Seen(Books(), m.Now())[c] == PartCopy(Seen(old(Books()), w)[p], vmas[..n], i))
              && c in Seen(Books(), m.Now())
              && history == old(history) + [if ret != -1 && n == |vmas| then Isolation.Forked(p, c)
                                            else Isolation.HalfForked(c, Seen(Books(), m.Now())[c])]
      ensures Confined(start.base, old(Books()), old(m.Now()), Books(), m.Now(), {}, {})
    {
      hide Structured, Machine.Valid, Machine.Now, Scheduler.Valid, Queued, Sound, Sprouted, KeptSince;
      hide View, Views, Seen, Forked, AllBelow, Tables, RoomAfterCreate, PagesAfterCreate, Enqueued, Given, Spare;
      hide Isolation.Replay, PartCopy, Confined, Kept, StopsAt;
      Parts();
      Bound();
      ghost var k, w := Books(), m.Now();
      var child, ok, whole, i := Duplicate(p);
      ConfinedFork(start.base, k, w, Books(), m.Now(), start, p, tasks[child].pgd, i);
      Parts();
      ret := if ok then child else -1;
      ghost var v := Seen(Books(), m.Now())[child];
      Log(if whole then Isolation.Forked(p, child) else Isolation.HalfForked(child, v));
    }

    lemma TreesRooted()
      requires m.Valid()
      ensures m.Wired() && forall f: nat, r: nat :: f in m.Now().s.own && InTree(m.Now().s.own[f], f, r) ==>
                r in m.Now().s.own
    {
      m.Sides();
      m.mem.TreesHaveRoots();
    }

    /** thread_exit: the children of a task become orphans. */
    method Reparent(p: nat)
      requires Structured()
      modifies this`records
      ensures Structured() && records == Abandoned(old(records), p) && Orphaned(old(records), records, p)
      ensures Seen(Books(), m.Now()) == old(Seen(Books(), m.Now()))
    {
      hide Structured, Apart, Machine.Valid, Machine.Now, Scheduler.Valid, Sound, Seen, Abandoned;
      Parts();
      Wires();
      AbandonStep(Books(), m.Now(), start, p);
      QueuedAbandoned(sched.ring, Books(), nrThreads, p);
      records := WithoutChildren(sched, records, p);
      Whole();
    }

    /** schedule for the current task p: the next running task behind it, and the root that satp gets for it. */
    method Schedule(p: nat) returns (next: nat, satp: Option<nat>)
      requires Structured() && p in tasks
      ensures next in tasks && satp == if next == p then None else Some(tasks[next].pgd)
      ensures IsNext(sched.ring, Runnable(tasks), p, next)
      ensures if next == p then forall q :: q in tasks && q != p ==> tasks[q].state != Running
              else tasks[next].state == Running
    {
      hide Structured, Apart, Machine.Valid, Machine.Now, Sound, Reach, IsNext, Cycle;
      Parts();
      InQueue(sched.ring, Books(), nrThreads, p);
      next := sched.Schedule(p, Runnable(tasks));
      NextRuns(sched.next, sched.ring, Runnable(tasks), p, next);
      satp := if next == p then None else Some(tasks[next].pgd);
    }

    /**
     thread_exit for the current task p: it waits to be reaped, its children are orphans, and another task is chosen.
     */
    method ThreadExit(p: nat) returns (next: nat, satp: Option<nat>)
      requires Valid() && p in tasks
      modifies this`tasks, this`records
      ensures Valid() && tasks == old(tasks)[p := old(tasks)[p].(state := Zombie)]
      ensures records == Abandoned(old(records), p) && Orphaned(old(records), records, p)
      ensures Seen(Books(), m.Now()) == old(Seen(Books(), m.Now()))
      ensures next in tasks && satp == (if next == p then None else Some(tasks[next].pgd))
      ensures IsNext(sched.ring, Runnable(tasks), p, next)
      ensures Confined(start.base, old(Books()), m.Now(), Books(), m.Now(), {}, {})
    {
      hide Structured, Machine.Valid, Machine.Now, Sound, Seen, Abandoned, IsNext, Isolation.Replay, Confined, Kept;
      hide Parted;
      Bound();
      ghost var k := Books();
      SetState(p, Zombie);
      Reparent(p);
      OnlyStates(start, k, m.Now(), Books(), p);
      next, satp := Schedule(p);
    }

    method SetState(p: nat, state: TaskState)
      requires Structured() && p in tasks
      modifies this`tasks
      ensures Structured() && tasks == old(tasks)[p := old(tasks)[p].(state := state)]
      ensures Seen(Books(), m.Now()) == old(Seen(Books(), m.Now()))
    {
      hide Structured, Apart, Machine.Valid, Machine.Now, Scheduler.Valid, Queued, Sound, Seen;
      Parts();
      Wires();
      TaskStep(Books(), m.Now(), start, {}, p, tasks[p].(state := state));
      QueuedState(sched.ring, Books(), nrThreads, p, state);
      tasks := tasks[p := tasks[p].(state := state)];
      Whole();
    }

    /** do_stop for the current task `self`: the task becomes a zombie, and its children stay with it. */
    method Stop(self: nat, pid: nat) returns (ret: int, next: Option<nat>)
      requires Valid() && self in tasks
      modifies this`tasks
      ensures Valid() && Seen(Books(), m.Now()) == old(Seen(Books(), m.Now()))
      ensures ret == if pid in old(tasks) then 0 else -1
      ensures tasks == if pid in old(tasks) then old(tasks)[pid := old(tasks)[pid].(state := Zombie)] else old(tasks)
      ensures next.Some? <==> pid in old(tasks) && pid == self
      ensures next.Some? ==> IsNext(sched.ring, Runnable(tasks), self, next.value)
      ensures Confined(start.base, old(Books()), m.Now(), Books(), m.Now(), {}, {})
    {
      hide Structured, Machine.Valid, Machine.Now, Sound, Seen, IsNext, Isolation.Replay, Confined, Kept, Parted;
      Bound();
      ghost var k := Books();
      NoChange(start, k, m.Now());
      var found := FindTask(pid);
      if !found {
        return -1, None;
      }
      SetState(pid, Zombie);
      OnlyStates(start, k, m.Now(), Books(), pid);
      ret, next := 0, None;
      if pid == self {
        var chosen, _ := Schedule(self);
        next := Some(chosen);
      }
    }

    /** The search of do_stop and do_waitpid for a task, once around the run queue. */
    method FindTask(pid: nat) returns (found: bool)
      requires Structured()
      ensures found <==> pid in tasks
    {
      hide Structured, Apart, Machine.Valid, Machine.Now, Scheduler.Valid, Sound;
      Parts();
      found := sched.Contains(pid);
    }

    /** kill_zombies: the first orphan behind the head of the run queue that is a zombie is reaped. */
    method KillZombies() returns (reaped: Option<nat>)
      requires Valid()
      modifies this`tasks, this`records, this`history, sched, m.Repr
      ensures Valid()
      ensures reaped == None ==>
                && (forall q :: q in tasks && q in records && tasks[q].state == Zombie ==> records[q].ppid != 0)
                && Orphans(Books()) == {} && Books() == old(Books())
                && sched.ring == old(sched.ring) && m.Now() == old(m.Now()) && history == old(history)
      ensures reaped.Some? ==>
                var p := reaped.value;
                && FirstBehind(old(sched.ring), Orphans(old(Books())), p)
                && p in old(tasks) && old(tasks)[p].state == Zombie
                && p in old(records) && old(records)[p].ppid == 0
                && tasks == old(tasks) - {p} && records == old(records) - {p}
                && history == old(history) + [Isolation.Reaped(p)]
      ensures Confined(start.base, old(Books()), old(m.Now()), Books(), m.Now(),
                       if reaped == None then {} else {reaped.value}, {})
    {
      hide Structured, Machine.Valid, Machine.Now, Scheduler.Valid, Sound, Seen, FirstBehind, Isolation.Replay;
      hide Confined, Kept, Parted, KeptBut, TornDown, SameSpaces;
      Bound();
      NoChange(start, Books(), m.Now());
      reaped := FindOrphan();
      if reaped.Some? {
        Reap(reaped.value);
      }
    }

    /** The search of kill_zombies. */
    method FindOrphan() returns (p: Option<nat>)
      requires Structured()
      ensures p == None ==> Orphans(Books()) == {}
      ensures p == None ==>
                forall q :: q in tasks && q in records && tasks[q].state == Zombie ==> records[q].ppid != 0
      ensures p.Some? ==> p.value in tasks && tasks[p.value].state == Zombie
      ensures p.Some? ==> p.value in records && records[p.value].ppid == 0
      ensures p.Some? ==> FirstBehind(sched.ring, Orphans(Books()), p.value)
    {
      hide Structured, Apart, Machine.Valid, Machine.Now, Scheduler.Valid, Sound, FirstBehind;
      Parts();
      p := sched.SearchBehind(Orphans(Kern(tasks, records)));
    }

    /** One round of do_waitpid; the caller goes on waiting, with another task chosen, until the task is gone. */
    method WaitPid(pid: nat) returns (r: WaitResult)
      requires Valid()
      modifies this`tasks, this`records, this`history, sched, m.Repr
      ensures Valid() && (r == NoSuchTask <==> pid !in old(tasks))
      ensures r != Gone ==> Books() == old(Books()) && m.Now() == old(m.Now()) && history == old(history)
      ensures r == NotYet ==> pid in tasks && tasks[pid].state != Zombie
      ensures r == Gone ==> pid in old(tasks) && old(tasks)[pid].state == Zombie
      ensures r == Gone ==> tasks == old(tasks) - {pid} && records == old(records) - {pid}
      ensures r == Gone ==> history == old(history) + [Isolation.Reaped(pid)]
      ensures Confined(start.base, old(Books()), old(m.Now()), Books(), m.Now(), if r == Gone then {pid} else {}, {})
    {
      hide Structured, Machine.Valid, Machine.Now, Scheduler.Valid, Sound, Seen, Isolation.Replay;
      hide Confined, Kept, Parted, KeptBut, TornDown, SameSpaces;
      Bound();
      NoChange(start, Books(), m.Now());
      var found := FindTask(pid);
      if !found {
        return NoSuchTask;
      }
      if tasks[pid].state == Zombie {
        Reap(pid);
        return Gone;
      }
      r := NotYet;
    }

    /** The search through vma_list for the area that holds an address. */
    method FindVma(p: nat, va: nat) returns (area: Option<Vma>)
      requires p in tasks
      ensures area == Find(tasks[p].vmas, va)
    {
      var list := tasks[p].vmas;
      var i := 0;
      while i < |list|
        invariant i <= |list|
        invariant Find(list, va) == Find(list[i..], va)
      {
        if list[i].start <= va && va < list[i].end {
          return Some(list[i]);
        }
        i := i + 1;
      }
      area := None;
    }

    /** The copy-on-write block of the fault handler: false when a copy is needed and memory has run out. */
    method BreakSharing(p: nat, v: nat, t: nat, c: nat) returns (ok: bool)
      requires Structured() && p in tasks && v < USER_PAGES && c == Vpn0(v)
      requires Is(m.Now().s.own, t, Pt(tasks[p].pgd, Vpn2(v), Vpn1(v))) && t < |m.mem.table|
      requires var s := Slot(tasks[p].pgd, v); s in m.Now().s.maps && m.Now().s.maps[s] == m.mem.table[t][c]
      requires Find(tasks[p].vmas, v * PAGE_SIZE).Some? && Find(tasks[p].vmas, v * PAGE_SIZE).value.prot.write
      modifies m.Repr
      ensures Structured() && Seen(Books(), m.Now()) == old(Seen(Books(), m.Now())) && m.Now().h == old(m.Now()).h
      ensures ok <==> old(m.Now()).s.free != {} || Sole(old(m.Now()).s, Slot(tasks[p].pgd, v))
      ensures !ok ==> m.Now() == old(m.Now())
      ensures ok ==> Private(old(m.Now()).s, m.Now().s, Slot(tasks[p].pgd, v))
      ensures OnlyIn(old(m.Now()).s, m.Now().s, tasks[p].pgd)
    {
      hide Structured, Apart, Machine.Valid, Machine.Now, Scheduler.Valid, Queued, Sound, Seen, Backing, Parted, HeapOk;
      hide Private, OnlyIn, Find, FreeFrames;
      Parts();
      Back();
      ghost var w := m.Now();
      OnlyInRefl(w.s, w.s, tasks[p].pgd);
      ok := m.MakePrivate(t, c, Slot(tasks[p].pgd, v));
      if ok {
        PrivateOnlyIn(w.s, m.Now().s, Slot(tasks[p].pgd, v));
        PrivateStep(Books(), w, m.Now(), start, p, v);
      }
      Whole();
    }

    /** The demand-paging block of the fault handler: false when no frame is free. */
    method DemandFill(p: nat, v: nat, area: Vma) returns (ok: bool)
      requires Structured() && p in tasks && v < USER_PAGES && Slot(tasks[p].pgd, v) !in m.Now().s.maps
      requires Find(tasks[p].vmas, v * PAGE_SIZE) == Some(area) && HasFrames(m.Now().s, tasks[p].pgd, v)
      modifies m.Repr
      ensures Structured() && Seen(Books(), m.Now()) == old(Seen(Books(), m.Now())) && m.Now().h == old(m.Now()).h
      ensures ok <==> old(m.Now()).s.free != {}
      ensures !ok ==> m.Now() == old(m.Now())
      ensures ok ==> OnePageMore(old(m.Now()).s, m.Now().s, Slot(tasks[p].pgd, v), area.prot)
      ensures OnlyIn(old(m.Now()).s, m.Now().s, tasks[p].pgd)
    {
      hide Structured, Apart, Machine.Valid, Machine.Now, Scheduler.Valid, Queued, Sound, Seen, Backing, Parted, HeapOk;
      hide Find, FreeFrames, Grew, Populated, SameRoots, Tables, Needed, Missing, IsFilePage, FillFor, OnlyIn;
      Parts();
      Back();
      ghost var w := m.Now();
      OnlyInRefl(w.s, w.s, tasks[p].pgd);
      RootOf(Books(), w, start, p);
      AreasOf(Books(), w, start, p);
      FillIsFilePage(tasks[p].vmas, v);
      var frame := m.InstallPage(tasks[p].pgd, v, FillFor(area, v), PageProt(area.prot));
      ok := frame.Some?;
      if ok {
        PopulatedGrew(w.s, m.Now().s, frame.value);
        FillStep(Books(), w, m.Now(), start, p, v, area, frame.value);
      }
      Whole();
    }

    /** The fault handler, once the area is found: None if the area does not permit the access, false without memory. */
    method Resolve(p: nat, va: nat, cause: Access, area: Vma) returns (done: Option<bool>)
      requires Structured() && p in tasks && Find(tasks[p].vmas, va) == Some(area)
      requires CanFill(m.Now().s, tasks[p], va, cause)
      requires var s := Slot(tasks[p].pgd, va / PAGE_SIZE); s in m.Now().s.maps ==> !Allows(m.Now().s.maps[s], cause)
      modifies m.Repr
      ensures Structured() && Seen(Books(), m.Now()) == old(Seen(Books(), m.Now())) && m.Now().h == old(m.Now()).h
      ensures done == Some(true) ==> Opened(old(m.Now()).s, m.Now().s, Slot(tasks[p].pgd, va / PAGE_SIZE), cause)
      ensures done != Some(true) ==> m.Now() == old(m.Now())
      ensures OnlyIn(old(m.Now()).s, m.Now().s, tasks[p].pgd)
      ensures done == if !Permits(area.prot, cause) then None else
                      Some(old(m.Now()).s.free != {} || Sole(old(m.Now()).s, Slot(tasks[p].pgd, va / PAGE_SIZE)))
    {
      hide Structured, Machine.Valid, Machine.Now, Scheduler.Valid, Sound, Seen, Private, Find, FreeFrames;
      hide OnePageMore, OnlyIn;
      Parts();
      ghost var w, s := m.Now(), Slot(tasks[p].pgd, va / PAGE_SIZE);
      OnlyInRefl(w.s, w.s, tasks[p].pgd);
      FaultFacts(Books(), w, start, p, va);
      var v := va / PAGE_SIZE;
      var at := m.Walk(tasks[p].pgd, v);
      if at.Some? {
        var (t, c) := at.value;
        var entry := m.mem.table[t][c];
        if entry.valid && cause == Store && entry.user && !entry.write {
          if area.prot.write {
            var ok := BreakSharing(p, v, t, c);
            if ok {
              PrivateAllows(w.s, m.Now().s, s, area.prot);
            }
            return Some(ok);
          }
        }
      }
      if !Permits(area.prot, cause) {
        return None;
      }
      var ok := DemandFill(p, v, area);
      if ok {
        FilledAllows(w.s, m.Now().s, s, area.prot, cause);
      }
      done := Some(ok);
    }

    /** The page-fault branch of trap_handler, for the current task p. */
    method PageFault(p: nat, va: nat, cause: Access, fromUser: bool) returns (outcome: Outcome)
      requires Valid() && p in tasks && CanFill(m.Now().s, tasks[p], va, cause)
      requires var s := Slot(tasks[p].pgd, va / PAGE_SIZE); s in m.Now().s.maps ==> !Allows(m.Now().s.maps[s], cause)
      modifies this`tasks, this`records, m.Repr
      ensures Valid() && Seen(Books(), m.Now()) == old(Seen(Books(), m.Now())) && m.Now().h == old(m.Now()).h
      ensures outcome == Resumed ==>
                && Books() == old(Books())
                && Opened(old(m.Now()).s, m.Now().s, Slot(old(tasks)[p].pgd, va / PAGE_SIZE), cause)
      ensures outcome != Resumed ==> m.Now() == old(m.Now())
      ensures OnlyIn(old(m.Now()).s, m.Now().s, old(tasks)[p].pgd)
      ensures outcome == Killed ==>
                tasks == old(tasks)[p := old(tasks)[p].(state := Zombie)] && records == Abandoned(old(records), p)
      ensures outcome == Halted ==> Books() == old(Books())
      ensures var area, s := Find(old(tasks)[p].vmas, va), Slot(old(tasks)[p].pgd, va / PAGE_SIZE);
              if !(area.Some? && match cause case Fetch => area.value.prot.exec
                                             case Load => area.value.prot.read
                                             case Store => area.value.prot.write)
              then outcome == if fromUser then Killed else Halted
              else if old(m.Now()).s.free != {} || Sole(old(m.Now()).s, s) then outcome == Resumed
              else outcome == Killed
    {
      hide Structured, Machine.Valid, Machine.Now, Scheduler.Valid, Sound, Seen, Find, Abandoned, Allows, CanFill;
      hide Isolation.Replay, IsNext, OnlyIn, Confined, Opened, Orphaned, Sole;
      Parts();
      OnlyInRefl(m.Now().s, m.Now().s, tasks[p].pgd);
      var area := FindVma(p, va);
      if area.Some? {
        var done := Resolve(p, va, cause, area.value);
        if done == Some(true) {
          return Resumed;
        }
        if done == Some(false) {
          var _, _ := ThreadExit(p);
          return Killed;
        }
      }
      if fromUser {
        var _, _ := ThreadExit(p);
        return Killed;
      }
      outcome := Halted;
    }

    /** The hardware walk for a user access of task p: the frame, if the access is allowed. */
    method Translate(p: nat, va: nat, access: Access) returns (frame: Option<nat>)
      requires Structured() && p in tasks
      ensures var s := Slot(tasks[p].pgd, va / PAGE_SIZE);
              frame == if s in m.Now().s.maps && Allows(m.Now().s.maps[s], access) then Some(m.Now().s.maps[s].ppn)
                else None
      ensures Translated(tasks[p].pgd, va, access, frame)
    {
      hide Structured, Apart, Machine.Valid, Machine.Now, Scheduler.Valid, Queued, Sound, Backing, Hardware.Translate;
      Parts();
      Back();
      RootOf(Books(), m.Now(), start, p);
      NoPagesBeyond(m.Now());
      frame := None;
      if va < USER_END {
        m.HardwareWalk(tasks[p].pgd, va / PAGE_SIZE, access);
        match Hardware.Translate(m.mem.table, tasks[p].pgd, va / PAGE_SIZE, access) {
          case Frame(f) => frame := Some(f);
          case _ =>
        }
      }
    }

    /** The hardware finds this frame at the address, or faults. */
    ghost predicate Translated(root: nat, va: nat, access: Access, frame: Option<nat>)
      reads m.mem`table
    {
      if va < 0x40_0000_0000
      then Hardware.Translate(m.mem.table, root, va / 4096, access)
           == if frame.Some? then Hardware.Frame(frame.value) else Hardware.Fault
      else frame == None
    }

    /** The byte that the hardware reads or writes at the address is b. */
    ghost predicate Reaches(root: nat, va: nat, access: Access, b: byte)
      reads m.mem`table, m.mem`bytes
    {
      exists f: nat :: Translated(root, va, access, Some(f)) && HasByte(m.mem.bytes, f, va, b)
    }

    /** The store itself, through an entry that allows it. */
    method Write(p: nat, va: nat, frame: nat, b: byte)
      requires Valid() && p in tasks
      requires var s := Slot(tasks[p].pgd, va / PAGE_SIZE);
               s in m.Now().s.maps && m.Now().s.maps[s].write && m.Now().s.maps[s].ppn == frame
      modifies this`history, m.mem`bytes
      ensures Valid() && history == old(history) + [Isolation.Stored(p, va, b)]
      ensures m.Now() == old(m.Now()).(s := old(m.Now()).s.(bytes := m.Now().s.bytes))
      ensures HasByte(m.mem.bytes, frame, va, b)
    {
      hide Structured, Machine.Valid, Machine.Now, Scheduler.Valid, Queued, Sound, Backing, Seen, Isolation.Replay;
      hide Isolation.WriteByte;
      Parts();
      StoreThrough(p, va / PAGE_SIZE, frame, va % PAGE_SIZE, b);
      assert va / PAGE_SIZE * PAGE_SIZE + va % PAGE_SIZE == va;
      Parts();
      Log(Isolation.Stored(p, va, b));
    }

    method StoreThrough(p: nat, v: nat, frame: nat, o: nat, b: byte)
      requires Structured() && p in tasks && o < PAGE_SIZE
      requires var s := Slot(tasks[p].pgd, v);
               s in m.Now().s.maps && m.Now().s.maps[s].write && m.Now().s.maps[s].ppn == frame
      modifies m.mem`bytes
      ensures Structured() && p in Seen(Books(), old(m.Now()))
      ensures m.Now() == old(m.Now()).(s := old(m.Now()).s.(bytes := m.Now().s.bytes))
      ensures frame < |m.mem.bytes| && m.mem.bytes[frame][o] == b
      ensures Seen(Books(), m.Now()) == Seen(Books(), old(m.Now()))
              [p := Isolation.WriteByte(Seen(Books(), old(m.Now()))[p], v * PAGE_SIZE + o, b)]
    {
      hide Structured, Apart, Machine.Valid, Machine.Now, Scheduler.Valid, Queued, Sound, Backing, Seen;
      Parts();
      Back();
      ghost var w := m.Now();
      InMem(w, Slot(tasks[p].pgd, v));
      WritersAlone(Slot(tasks[p].pgd, v));
      m.StoreByte(frame, o, b);
      StoreStep(Books(), w, m.Now(), start, p, v, o, b);
      Whole();
    }

    /** A writable entry has its frame to itself, with one reference. */
    lemma WritersAlone(s: Slot)
      requires m.Valid()
      ensures m.Wired()
      ensures s in m.Now().s.maps && m.Now().s.maps[s].write ==>
                Sole(m.Now().s, s) && forall x :: x in m.Now().s.maps && x != s ==>
                    m.Now().s.maps[x].ppn != m.Now().s.maps[s].ppn
    {
      m.mem.Unpack();
      if s in m.mem.maps && m.mem.maps[s].write {
        forall x | x in m.mem.maps && x != s
          ensures m.mem.maps[x].ppn != m.mem.maps[s].ppn
        {
          WriterIsSole(m.mem.maps, m.mem.own, m.mem.Refs(), s, x);
        }
      }
    }

    /** A user access: the hardware walk, and on a fault the handler and the walk once more. */
    method TryAccess(p: nat, va: nat, access: Access) returns (outcome: Outcome, frame: nat)
      requires Valid() && p in tasks && CanFill(m.Now().s, tasks[p], va, access)
      modifies this`tasks, this`records, m.Repr
      ensures Valid() && outcome != Halted && Seen(Books(), m.Now()) == old(Seen(Books(), m.Now()))
      ensures outcome == Resumed ==>
                var s := Slot(old(tasks)[p].pgd, va / PAGE_SIZE);
                Books() == old(Books()) && s in m.Now().s.maps && Allows(m.Now().s.maps[s], access)
                && frame == m.Now().s.maps[s].ppn && Translated(tasks[p].pgd, va, access, Some(frame))
      ensures outcome == Killed ==> m.Now() == old(m.Now())
      ensures OnlyIn(old(m.Now()).s, m.Now().s, old(tasks)[p].pgd) && m.Now().h == old(m.Now()).h
      ensures outcome == Killed ==>
                tasks == old(tasks)[p := old(tasks)[p].(state := Zombie)] && records == Abandoned(old(records), p)
      ensures outcome == Resumed <==> Reachable(old(m.Now()).s, old(tasks)[p], va, access)
    {
      hide Structured, Machine.Valid, Machine.Now, Scheduler.Valid, Sound, Queued, Seen, Find, Abandoned;
      hide Isolation.Replay, Sole, Allows, OnlyIn, Translated;
      Parts();
      OnlyInRefl(m.Now().s, m.Now().s, tasks[p].pgd);
      FaultFacts(Books(), m.Now(), start, p, va);
      var walked := Translate(p, va, access);
      frame := 0;
      if walked == None {
        outcome := PageFault(p, va, access, true);
        if outcome != Resumed {
          return;
        }
        walked := Translate(p, va, access);
      }
      outcome, frame := Resumed, walked.value;
    }

    /** The access for a store, and the store if it is allowed. */
    method TryStore(p: nat, va: nat, b: byte) returns (outcome: Outcome)
      requires Valid() && p in tasks && CanFill(m.Now().s, tasks[p], va, Store)
      modifies this`tasks, this`records, this`history, m.Repr
      ensures Valid() && outcome != Halted
      ensures outcome == Resumed ==> Books() == old(Books()) && history == old(history) + [Isolation.Stored(p, va, b)]
      ensures outcome == Resumed ==> Reaches(tasks[p].pgd, va, Store, b)
      ensures outcome == Killed ==> m.Now() == old(m.Now()) && history == old(history)
      ensures outcome == Killed ==>
                tasks == old(tasks)[p := old(tasks)[p].(state := Zombie)] && records == Abandoned(old(records), p)
      ensures OnlyIn(old(m.Now()).s, m.Now().s, old(tasks)[p].pgd) && m.Now().h == old(m.Now()).h
      ensures outcome == Resumed <==> Reachable(old(m.Now()).s, old(tasks)[p], va, Store)
    {
      hide Structured, Machine.Valid, Machine.Now, Scheduler.Valid, Sound, Queued, Seen, Find, Abandoned;
      hide Isolation.Replay, Sole, Reachable, OnlyIn, Translated;
      Parts();
      ghost var root, w := tasks[p].pgd, m.Now();
      var frame;
      outcome, frame := TryAccess(p, va, Store);
      if outcome == Resumed {
        ghost var w1 := m.Now();
        Write(p, va, frame, b);
        OnlyInRefl(w1.s, m.Now().s, root);
        OnlyInTransitive(w.s, w1.s, m.Now().s, root);
      }
    }

    /** A user store. */
    method UserStore(p: nat, va: nat, b: byte) returns (outcome: Outcome)
      requires Valid() && p in tasks && CanFill(m.Now().s, tasks[p], va, Store)
      modifies this`tasks, this`records, this`history, m.Repr
      ensures Valid() && outcome != Halted
      ensures outcome == Resumed ==> Books() == old(Books()) && history == old(history) + [Isolation.Stored(p, va, b)]
      ensures outcome == Resumed ==> Reaches(tasks[p].pgd, va, Store, b)
      ensures outcome == Killed ==> m.Now() == old(m.Now()) && history == old(history)
      ensures outcome == Killed ==>
                tasks == old(tasks)[p := old(tasks)[p].(state := Zombie)] && records == Abandoned(old(records), p)
      ensures Confined(start.base, old(Books()), old(m.Now()), Books(), m.Now(), {p}, {})
      ensures old(tasks)[p].vmas == [] ==>
                Confined(start.base, old(Books()), old(m.Now()), Books(), m.Now(), {}, {})
      ensures var area, s := Find(old(tasks)[p].vmas, va), Slot(old(tasks)[p].pgd, va / PAGE_SIZE);
              outcome == Resumed <==>
                area.Some? && area.value.prot.write && (old(m.Now()).s.free != {} || Sole(old(m.Now()).s, s))
    {
      hide Valid, Machine.Now, Sound, Find, Abandoned, Sole, Reachable, OnlyIn, Kept, Confined, CanFill;
      Orderly();
      ghost var k, w := Books(), m.Now();
      if k.tasks[p].vmas == [] {
        NoAreas(k, w, start, p, va);
      }
      StoreReaches(k, w, start, p, va);
      WritersAlone(Slot(tasks[p].pgd, va / PAGE_SIZE));
      outcome := TryStore(p, va, b);
      ConfinedAccess(start, k, w, Books(), m.Now(), p);
    }

    /** A user load or instruction fetch: what it reads is what the process's private memory would hold. */
    method UserLoad(p: nat, va: nat, access: Access) returns (outcome: Outcome, b: byte)
      requires Valid() && p in tasks && access != Store && CanFill(m.Now().s, tasks[p], va, access)
      modifies this`tasks, this`records, m.Repr
      ensures Valid() && outcome != Halted && Seen(Books(), m.Now()) == old(Seen(Books(), m.Now()))
      ensures outcome == Resumed ==>
                && Books() == old(Books()) && p in Isolation.Replay(history) && va in Isolation.Replay(history)[p]
                && b == Isolation.Replay(history)[p][va] && Reaches(tasks[p].pgd, va, access, b)
      ensures outcome == Killed ==> m.Now() == old(m.Now())
      ensures outcome == Killed ==>
                tasks == old(tasks)[p := old(tasks)[p].(state := Zombie)] && records == Abandoned(old(records), p)
      ensures Confined(start.base, old(Books()), old(m.Now()), Books(), m.Now(), {p}, {})
      ensures old(tasks)[p].vmas == [] ==>
                Confined(start.base, old(Books()), old(m.Now()), Books(), m.Now(), {}, {})
      ensures var area, s, w := Find(old(tasks)[p].vmas, va), Slot(old(tasks)[p].pgd, va / PAGE_SIZE), old(m.Now()).s;
              outcome == Resumed <==>
                area.Some? && var prot := area.value.prot;
                if access == Fetch then prot.exec && (s in w.maps || w.free != {})
                else if s in w.maps then prot.read || prot.write else prot.read && w.free != {}
    {
      hide Structured, Machine.Valid, Machine.Now, Scheduler.Valid, Sound, Queued, Seen, Find, Abandoned;
      hide Isolation.Replay, Sole, Reachable, Allows, Permits, OnlyIn, Kept, Confined, Translated;
      Parts();
      Bound();
      ghost var k, w := Books(), m.Now();
      if k.tasks[p].vmas == [] {
        NoAreas(k, w, start, p, va);
      }
      LoadReaches(Books(), m.Now(), start, p, va, access);
      var frame;
      outcome, frame := TryAccess(p, va, access);
      ConfinedAccess(start, k, w, Books(), m.Now(), p);
      b := 0;
      if outcome == Resumed {
        b := ReadByte(p, va, frame);
      }
    }

    /** The load itself. */
    method ReadByte(p: nat, va: nat, frame: nat) returns (b: byte)
      requires Structured() && p in tasks
      requires var s := Slot(tasks[p].pgd, va / PAGE_SIZE); s in m.Now().s.maps && m.Now().s.maps[s].ppn == frame
      ensures p in Seen(Books(), m.Now()) && va in Seen(Books(), m.Now())[p] && b == Seen(Books(), m.Now())[p][va]
      ensures HasByte(m.mem.bytes, frame, va, b)
    {
      hide Structured, Apart, Machine.Valid, Machine.Now, Scheduler.Valid, Queued, Sound, Backing, Find;
      Parts();
      Back();
      FaultFacts(Books(), m.Now(), start, p, va);
      InMem(m.Now(), Slot(tasks[p].pgd, va / PAGE_SIZE));
      b := m.ReadByte(frame, va % PAGE_SIZE);
    }

    /** All but that every present page lies in an area that matches it. */
    ghost predicate Intact()
      reads this, sched, m.Repr
    {
      && Apart() && m.Valid() && Kept(Books(), m.Now(), start)
      && sched.Valid() && Queued(sched.ring, Books(), nrThreads)
    }

    lemma IsIntact()
      requires Structured()
      ensures Intact()
    {
      hide Apart, Machine.Valid, Scheduler.Valid, Queued, Sound, Kept;
      Wires();
      SoundKept(Books(), m.Now(), start);
    }

    /** do_mmap, MAP_POPULATE: how many of n pages have been made; `k` already has the area. */
    method Populate(p: nat, root: nat, v: nat, n: nat, area: Vma, ghost k: Kern) returns (done: nat)
      requires Apart() && m.Valid() && Sound(k, m.Now(), start, {}) && p in k.tasks && k.tasks[p].pgd == root
      requires v + n <= USER_PAGES && area.file == [] && CanPopulate(m.Now().s, root, v, n)
      requires forall w: nat :: v <= w < v + n ==>
                 Find(k.tasks[p].vmas, w * PAGE_SIZE) == Some(area) && Slot(root, w) !in m.Now().s.maps
      modifies m.Repr
      ensures m.Valid() && Sound(k, m.Now(), start, {}) && Seen(k, m.Now()) == Seen(k, old(m.Now()))
      ensures m.Now().h == old(m.Now()).h && done <= n
      ensures done == n <==> |old(m.Now()).s.free| >= PagesCost(old(m.Now()).s, root, v, n)
      ensures done < n ==> m.Now().s.free == {}
      ensures |m.Now().s.free| == |old(m.Now()).s.free| - PagesCost(old(m.Now()).s, root, v, done)
      ensures PagesFilled(old(m.Now()).s.maps, m.Now().s.maps, root, v, done, area.prot)
      ensures done == 0 ==> m.Now() == old(m.Now())
      ensures OnlyIn(old(m.Now()).s, m.Now().s, root)
    {
      hide Apart, Machine.Valid, Machine.Now, Sound, Seen, Find, PagesFilled, PagesCost, CanPopulate, Tables, Needed;
      hide OnlyIn;
      Wires();
      ghost var w := m.Now();
      done := 0;
      OnlyInRefl(w.s, w.s, root);
      PopulateStart(w.s, root, v, area.prot);
      while done < n
        invariant done <= n && m.Valid() && m.Wired() && Sound(k, m.Now(), start, {})
        invariant Seen(k, m.Now()) == Seen(k, w) && m.Now().h == w.h && (done == 0 ==> m.Now() == w)
        invariant |m.Now().s.free| == |w.s.free| - PagesCost(w.s, root, v, done)
        invariant Tables(m.Now().s.own) == Tables(w.s.own) + Needed(root, v, done)
        invariant PagesFilled(w.s.maps, m.Now().s.maps, root, v, done, area.prot)
        invariant OnlyIn(w.s, m.Now().s, root)
      {
        var page := v + done;
        ghost var w1 := m.Now();
        PopulateRoom(w.s, w1.s, root, v, done, n, page);
        FilledFresh(w.s.maps, w1.s.maps, root, v, done, page, area.prot);
        var ok := PopulateOne(p, root, page, area, k);
        OnlyInTransitive(w.s, w1.s, m.Now().s, root);
        if !ok {
          TooFew(w.s, root, v, done, n);
          return;
        }
        PopulateNext(w.s, w1.s, m.Now().s, root, v, done, n, page, area.prot);
        done := done + 1;
      }
      CostGrows(w.s, root, v, n, n);
    }

    /** do_mmap, MAP_POPULATE: one zeroed page. */
    method PopulateOne(p: nat, root: nat, v: nat, area: Vma, ghost k: Kern) returns (ok: bool)
      requires Apart() && m.Valid() && Sound(k, m.Now(), start, {}) && p in k.tasks && k.tasks[p].pgd == root
      requires v < USER_PAGES && area.file == [] && HasFrames(m.Now().s, root, v)
      requires Find(k.tasks[p].vmas, v * PAGE_SIZE) == Some(area) && Slot(root, v) !in m.Now().s.maps
      modifies m.Repr
      ensures m.Valid() && Sound(k, m.Now(), start, {}) && Seen(k, m.Now()) == Seen(k, old(m.Now()))
      ensures m.Now().h == old(m.Now()).h && (ok <==> old(m.Now()).s.free != {}) && (!ok ==> m.Now() == old(m.Now()))
      ensures ok ==> OnePageMore(old(m.Now()).s, m.Now().s, Slot(root, v), area.prot)
      ensures OnlyIn(old(m.Now()).s, m.Now().s, root)
      ensures ok ==> |m.Now().s.free| == |old(m.Now()).s.free| - 1 - |Missing(old(m.Now()).s.own, root, v, 1)|
      ensures ok ==> Tables(m.Now().s.own) == Tables(old(m.Now()).s.own) + Needed(root, v, 1)
    {
      hide Apart, Machine.Valid, Machine.Now, Sound, Seen, Backing, Parted, HeapOk;
      hide Find, FreeFrames, Grew, Populated, SameRoots, Tables, Needed, Missing, IsFilePage, FillFor, OnlyIn;
      Wires();
      Back();
      ghost var w := m.Now();
      OnlyInRefl(w.s, w.s, root);
      RootOf(k, w, start, p);
      AreasOf(k, w, start, p);
      ZeroFill(k.tasks[p].vmas, v, area);
      var frame := m.InstallPage(root, v, ZeroPage, PageProt(area.prot));
      ok := frame.Some?;
      if ok {
        PopulatedGrew(w.s, m.Now().s, frame.value);
        FillStep(k, w, m.Now(), start, p, v, area, frame.value);
      }
    }

    /** do_mmap, once the place is known: populate `pages` pages of the area, then put it at the head of the list. */
    method MapArea(p: nat, area: Vma, pages: nat) returns (done: nat, ok: bool)
      requires Structured() && p in tasks && IsNewArea(tasks[p].vmas, area)
               && pages <= (area.end - area.start) / PAGE_SIZE
      requires CanPopulate(m.Now().s, tasks[p].pgd, area.start / PAGE_SIZE, pages)
      modifies this`tasks, this`records, m.Repr
      ensures MmapDone(old(m.Now()), old(tasks)[p].pgd, area.start / PAGE_SIZE, pages, done, ok)
      ensures PagesFilled(old(m.Now()).s.maps, m.Now().s.maps, old(tasks)[p].pgd, area.start / PAGE_SIZE, done,
              area.prot)
      ensures OnlyIn(old(m.Now()).s, m.Now().s, old(tasks)[p].pgd) && KeptSince(old(m.Now()).h, m.Now().h)
      ensures !ok ==> Intact() && Books() == old(Books()) && m.Now().h == old(m.Now()).h
      ensures !ok ==> Seen(Books(), m.Now()) == old(Seen(Books(), m.Now()))
      ensures !ok && done == 0 ==> m.Now() == old(m.Now()) && Structured()
      ensures !ok && done > 0 ==> !Structured()
      ensures ok ==> Structured() && p in tasks && p in records && p in old(records)
      ensures ok ==> tasks == old(tasks)[p := old(tasks)[p].(vmas := [area] + old(tasks)[p].vmas)]
      ensures ok ==> records == old(records)[p := old(records)[p].(areas := records[p].areas)]
      ensures ok ==>
                && p in Seen(old(Books()), old(m.Now()))
                && Seen(Books(), m.Now()) == Seen(old(Books()), old(m.Now()))
                   [p := Isolation.AddZeros(Seen(old(Books()), old(m.Now()))[p], area.start, area.end - area.start)]
    {
      hide Structured, Apart, Machine.Valid, Machine.Now, Scheduler.Valid, Queued, Sound, Seen, Room, List, Kept;
      hide Find, PagesFilled, PagesCost, CanPopulate, IsNewArea, Isolation.AddZeros, SameSpaces;
      hide OnlyIn, KeptSince;
      Parts();
      ghost var w, k := m.Now(), Books();
      ghost var k' := k.(tasks := tasks[p := tasks[p].(vmas := [area] + tasks[p].vmas)]);
      var root, v := tasks[p].pgd, area.start / PAGE_SIZE;
      NewAreaFacts(k, w, start, p, area, pages);
      done := Populate(p, root, v, pages, area, k');
      ghost var w1 := m.Now();
      Spoiled(k, w, w1, start, p, area, done);
      KeptRefl(start.base, w.h);
      if done < pages {
        ok := false;
        StillIntact(k);
        return;
      }
      RoomLeft(w, w1, PagesCost(w.s, root, v, pages));
      ok := Attach(p, area);
      SpacesSame(w1.s, m.Now().s);
      OnlyInRefl(w1.s, m.Now().s, root);
      OnlyInTransitive(w.s, w1.s, m.Now().s, root);
      if !ok {
        StillIntact(k);
      }
    }

    /** do_mmap: the node of the new area, at the head of the list. */
    method Attach(p: nat, area: Vma) returns (ok: bool)
      requires Apart() && m.Valid() && sched.Valid() && Queued(sched.ring, Books(), nrThreads) && p in tasks
      requires Sound(Books().(tasks := tasks[p := tasks[p].(vmas := [area] + tasks[p].vmas)]), m.Now(), start, {})
      modifies this`tasks, this`records, m.Repr
      ensures m.Valid() && SameSpaces(old(m.Now()).s, m.Now().s) && (ok <==> Room(old(m.Now())) > 0)
      ensures KeptSince(old(m.Now()).h, m.Now().h)
      ensures !ok ==> m.Now() == old(m.Now()) && Books() == old(Books())
      ensures ok ==> Structured() && p in tasks && p in records && p in old(records)
      ensures ok ==> tasks == old(tasks)[p := old(tasks)[p].(vmas := [area] + old(tasks)[p].vmas)]
      ensures ok ==> records == old(records)[p := old(records)[p].(areas := records[p].areas)]
      ensures ok ==> records[p].areas != [] && 48 <= SizeAt(start.base, m.Now().h, records[p].areas[0])
      ensures ok ==> Seen(Books(), m.Now()) == Seen(old(Books()).(tasks := tasks), old(m.Now()))
    {
      hide Structured, Apart, Machine.Valid, Machine.Now, Scheduler.Valid, Queued, Sound, Seen, Allocated, HasPointer;
      hide Held;
      hide CanServe, Backing, Parted, HeapOk, FreeFrames, Room, SameSpaces, KeptSince, SizeAt;
      Wires();
      Back();
      ghost var w, k := m.Now(), Books();
      var t := tasks[p].(vmas := [area] + tasks[p].vmas);
      AreaServable(w);
      Unchanged(w);
      var x := Take(VMA_SIZE, k.(tasks := tasks[p := t]), {});
      ok := x != NULL;
      if ok {
        QueuedArea(sched.ring, k, nrThreads, p, t, x, true);
        TakenSpaces(start.base, w, m.Now(), VMA_SIZE, x);
        assert {} + {x} == {x};
        JoinArea(k.(tasks := tasks[p := t]), m.Now(), start, p, x, true);
        tasks := tasks[p := t];
        records := records[p := records[p].(areas := [x] + records[p].areas)];
        Whole();
      }
    }

    lemma StillIntact(k: Kern)
      requires Apart() && m.Valid() && k == Books() && Kept(k, m.Now(), start)
      requires sched.Valid() && Queued(sched.ring, k, nrThreads)
      ensures Intact() && (Sound(k, m.Now(), start, {}) <==> Structured())
    {
    }

    /** do_mmap, once the place x is known. */
    method MapAt(p: nat, x: nat, size: nat, prot: VmProt, pages: nat) returns (ret: int, ghost done: nat)
      requires Valid() && p in tasks && IsNewArea(tasks[p].vmas, Vma(x, x + size, prot, []))
      requires pages <= size / PAGE_SIZE && CanPopulate(m.Now().s, tasks[p].pgd, x / PAGE_SIZE, pages)
      modifies this`tasks, this`records, this`history, m.Repr
      ensures Intact() && (Valid() <==> NoPagesAstray(old(m.Now()), old(tasks)[p].pgd, x / PAGE_SIZE, pages))
      ensures Valid() <==> ret != -1 || m.Now().s.maps == old(m.Now()).s.maps
      ensures MappedAt(old(m.Now()), m.Now().s, old(tasks)[p].pgd, prot, pages, x, done, ret)
      ensures ret == -1 ==> Books() == old(Books()) && history == old(history) && m.Now().h == old(m.Now()).h
      ensures ret == -1 ==> Seen(Books(), m.Now()) == old(Seen(Books(), m.Now()))
      ensures ret != -1 ==>
                && p in tasks && p in records && p in old(records)
                && tasks == old(tasks)[p :=
                   old(tasks)[p].(vmas := [Vma(x, x + size, prot, [])] + old(tasks)[p].vmas)]
                && records == old(records)[p := old(records)[p].(areas := records[p].areas)]
                && history == old(history) + [Isolation.Mapped(p, x, size)]
      ensures Confined(start.base, old(Books()), old(m.Now()), Books(), m.Now(), {p}, {})
    {
      hide Structured, Machine.Valid, Machine.Now, Scheduler.Valid, Sound, Queued, Seen, Kept, CanPopulate;
      hide Isolation.Replay, Isolation.AddZeros, Intact, PagesFilled, MmapDone, VmasOk, Apart, IsNewArea;
      hide NoPagesAstray, Confined, Parted, OnlyIn, KeptSince;
      Parts();
      Bound();
      ghost var k, w := Books(), m.Now();
      var made, ok := MapArea(p, Vma(x, x + size, prot, []), pages);
      done := made;
      AstrayBefore(w, k.tasks[p].pgd, x / PAGE_SIZE, pages, done, ok);
      ConfinedArea(start, k, w, Books(), m.Now(), p);
      SameMaps(w.s.maps, m.Now().s.maps, k.tasks[p].pgd, x / PAGE_SIZE, done, prot);
      if !ok {
        return -1, made;
      }
      Parts();
      Log(Isolation.Mapped(p, x, size));
      IsIntact();
      ret := x;
    }

    /**
     do_mmap for the current task p. On failure pages that are already populated stay present although no area
     holds them: then, and only then, the invariant is lost.
     */
    method Mmap(p: nat, addr: nat, length: nat, prot: VmProt, anonymous: bool, populate: bool) returns (ret: int)
      requires Valid() && p in tasks
      requires exists x: nat :: HasPlace(tasks[p].vmas, Hint(addr), RoundUp(length), x)
      requires anonymous && populate ==>
                 forall x: nat :: FirstFit(tasks[p].vmas, Hint(addr), RoundUp(length), x) ==>
                   CanPopulate(m.Now().s, tasks[p].pgd, x / PAGE_SIZE, RoundUp(length) / PAGE_SIZE)
      modifies this`tasks, this`records, this`history, m.Repr
      ensures Intact() && (Valid() <==> ret != -1 || m.Now().s.maps == old(m.Now()).s.maps)
      ensures length == 0 ==> ret == -1 && m.Now() == old(m.Now())
      ensures length != 0 ==> exists x: nat, done: nat ::
                && FirstFit(old(tasks)[p].vmas, Hint(addr), RoundUp(length), x)
                && MappedAt(old(m.Now()), m.Now().s, old(tasks)[p].pgd, prot,
                            PagesToMake(RoundUp(length), anonymous, populate), x, done, ret)
                && (Valid() <==> NoPagesAstray(old(m.Now()), old(tasks)[p].pgd, x / PAGE_SIZE,
                                               PagesToMake(RoundUp(length), anonymous, populate)))
      ensures ret == -1 ==> Books() == old(Books()) && history == old(history)
      ensures ret == -1 ==> Seen(Books(), m.Now()) == old(Seen(Books(), m.Now())) && m.Now().h == old(m.Now()).h
      ensures ret != -1 && anonymous && populate ==>
                ret >= 0 && Prefilled(old(m.Now()).s.maps, m.Now().s.maps, old(tasks)[p].pgd, ret, length, prot)
      ensures !(anonymous && populate) ==> m.Now().s.maps == old(m.Now()).s.maps
      ensures ret != -1 ==>
                && ret >= 0 && p in tasks && p in records && p in old(records)
                && tasks == old(tasks)[p :=
                   old(tasks)[p].(vmas := [Vma(ret, ret + RoundUp(length), prot, [])] + old(tasks)[p].vmas)]
                && records == old(records)[p := old(records)[p].(areas := records[p].areas)]
                && history == old(history) + [Isolation.Mapped(p, ret, RoundUp(length))]
      ensures Confined(start.base, old(Books()), old(m.Now()), Books(), m.Now(), {p}, {})
    {
      hide Valid, Structured, Machine.Valid, Machine.Now, Sound, Queued, Seen, Kept, CanPopulate, PagesFilled;
      hide MmapDone, Intact;
      hide FirstFit, HasPlace, VmasOk, RoundUp, Hint, Apart, IsNewArea, NoPagesAstray, Confined, Prefilled;
      Orderly();
      ghost var w := m.Now();
      if length == 0 {
        NoChange(start, Books(), w);
        ConfinedToMore(start.base, Books(), w, p);
        return -1;
      }
      var size := RoundUp(length);
      var x := FindGap(tasks[p].vmas, Hint(addr), size);
      AreasOf(Books(), w, start, p);
      FoundArea(tasks[p].vmas, Hint(addr), length, x, prot);
      var pages := PagesToMake(size, anonymous, populate);
      NothingToPopulate(w.s, tasks[p].pgd, x / PAGE_SIZE);
      ghost var done;
      ret, done := MapAt(p, x, size, prot, pages);
      assert ret != -1 ==> ret == x;
      AllOrNone(w, m.Now().s, old(tasks)[p].pgd, prot, length, anonymous, populate, x, done, ret);
    }

    lemma Orderly()
      requires Valid()
      ensures Intact() && m.Valid() && m.Wired() && Sound(Books(), m.Now(), start, {})
      ensures Kept(Books(), m.Now(), start) && records.Keys == tasks.Keys
    {
      hide Structured, Machine.Valid, Scheduler.Valid, Sound, Kept;
      Parts();
      Bound();
      IsIntact();
    }
  }
}
