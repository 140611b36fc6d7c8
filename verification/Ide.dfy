/**
 The interrupt-driven disk driver (kernel/ide.c) against the in-memory disk
 (kernel/memide.c): requests queue up, the head is with the drive, and one interrupt
 comes for each command the drive was given.  sleep and wakeup are one step each, as
 SleepWakeup shows they may be taken.
 */
module Ide {
  import opened Prelude
  import opened Blocks

  datatype Buf = Buf(blockno: nat, valid: bool, dirty: bool, data: Block)

  // ---- kernel/memide.c ----

  // iderw of the in-memory disk: write a dirty buffer out, else read it in.
  function MemBuf(b: Buf, disk: Disk): Buf
    requires b.blockno in disk
  {
    b.(valid := true, dirty := false, data := if b.dirty then b.data else disk[b.blockno])
  }

  function MemDisk(b: Buf, disk: Disk): Disk {
    if b.dirty then disk[b.blockno := b.data] else disk
  }

  // The disk after these requests, one at a time.
  function MemRun(disk: Disk, reqs: seq<Buf>): Disk {
    if reqs == [] then disk else MemDisk(reqs[|reqs| - 1], MemRun(disk, reqs[..|reqs| - 1]))
  }

  // ---- kernel/ide.c ----

  // What idestart tells the drive.
  datatype Command = In(blockno: nat) | Out(blockno: nat, data: Block)

  // In iderw's waiting loop, for buffer b and request number k.
  datatype Pc = Idle | Waiting(b: nat, k: nat)

  // `log` are the requests in the order they were made, as they were then; `done` counts
  // the interrupts handled.
  datatype Sys = Sys(bufs: map<nat, Buf>, queue: seq<nat>, drive: Option<Command>, disk: Disk,
                     pc: map<nat, Pc>, asleep: set<nat>, log: seq<Buf>, done: nat)

  datatype Step =
    | Submit(p: nat, b: nat)
    | Interrupt
    | Test(p: nat)              // the loop's test, when running
    | Kill(p: nat)
    | Change(b: nat, buf: Buf)  // a buffer's owner changes it, outside iderw

  predicate Busy(s: Sys, b: nat) {
    exists p :: p in s.pc && s.pc[p].Waiting? && s.pc[p].b == b
  }

  // iderw's panics, and the buffer's sleep lock: one process at a time.
  predicate Enabled(s: Sys, st: Step) {
    match st
    case Submit(p, b) =>
      && p in s.pc && s.pc[p].Idle? && b in s.bufs && !Busy(s, b)
      && !(s.bufs[b].valid && !s.bufs[b].dirty) && s.bufs[b].blockno in s.disk
    case Interrupt => s.drive.Some?
    case Test(p) => p in s.pc && s.pc[p].Waiting? && p !in s.asleep && s.pc[p].b in s.bufs
    case Kill(p) => p in s.pc
    case Change(b, buf) => b in s.bufs && !Busy(s, b)
  }

  function Start(b: Buf): Command {
    if b.dirty then Out(b.blockno, b.data) else In(b.blockno)
  }

  // The drive carries out its command.
  function Driven(c: Command, disk: Disk): Disk {
    if c.Out? then disk[c.blockno := c.data] else disk
  }

  // ideintr's update of the head buffer.
  function Completed(b: Buf, c: Command, disk: Disk): Buf {
    b.(valid := true, dirty := false, data := if !b.dirty && c.blockno in disk then disk[c.blockno] else b.data)
  }

  function Next(s: Sys, st: Step): Sys
    requires Enabled(s, st)
  {
    match st
    case Submit(p, b) =>
      s.(queue := s.queue + [b], drive := if s.queue == [] then Some(Start(s.bufs[b])) else s.drive,
         pc := s.pc[p := Waiting(b, |s.log|)], asleep := s.asleep + {p}, log := s.log + [s.bufs[b]])
    case Interrupt =>
      if s.queue == [] || s.queue[0] !in s.bufs then s
      else
        var b, rest := s.queue[0], s.queue[1..];
        var disk := Driven(s.drive.value, s.disk);
        var bufs := s.bufs[b := Completed(s.bufs[b], s.drive.value, disk)];
        s.(queue := rest, disk := disk, bufs := bufs, done := s.done + 1,
           drive := if rest != [] && rest[0] in bufs then Some(Start(bufs[rest[0]])) else None,
           asleep := set p | p in s.asleep && !(p in s.pc && s.pc[p].Waiting? && s.pc[p].b == b))
    case Test(p) =>
      if s.bufs[s.pc[p].b].valid && !s.bufs[s.pc[p].b].dirty then s.(pc := s.pc[p := Idle])
      else s.(asleep := s.asleep + {p})
    case Kill(p) => s.(asleep := s.asleep - {p})
    case Change(b, buf) => s.(bufs := s.bufs[b := buf])
  }

  // ---- what every reachable state satisfies ----

  // Place k of the queue holds the k-th unfinished request, its buffer as submitted.
  predicate Queued(s: Sys, k: nat)
    requires k < |s.queue|
  {
    && s.done + k < |s.log| && s.queue[k] in s.bufs && s.bufs[s.queue[k]] == s.log[s.done + k]
    && s.log[s.done + k].blockno in s.disk && !(s.log[s.done + k].valid && !s.log[s.done + k].dirty)
  }

  predicate QueueOk(s: Sys) {
    && s.done + |s.queue| == |s.log|
    && (forall k :: 0 <= k < |s.queue| ==> Queued(s, k))
    && (forall j, k :: 0 <= j < k < |s.queue| ==> s.queue[j] != s.queue[k])
  }

  // The head, and nothing else, is with the drive.
  predicate DriveOk(s: Sys) {
    if s.queue == [] then s.drive == None
    else s.queue[0] in s.bufs && s.drive == Some(Start(s.bufs[s.queue[0]]))
  }

  // A waiting process's request is in the queue, or is done and has its result.
  predicate WaitOk(s: Sys, disk0: Disk, p: nat)
    requires p in s.pc
  {
    s.pc[p].Waiting? ==>
      var b, k := s.pc[p].b, s.pc[p].k;
      && k < |s.log| && b in s.bufs && (p in s.asleep ==> k >= s.done)
      && (k >= s.done ==> k - s.done < |s.queue| && s.queue[k - s.done] == b)
      && (k < s.done ==> HasResult(s, disk0, b, k))
  }

  // Buffer b is what the in-memory disk would have made of request k.
  predicate HasResult(s: Sys, disk0: Disk, b: nat, k: nat) {
    && k < |s.log| && b in s.bufs && s.log[k].blockno in MemRun(disk0, s.log[..k])
    && s.bufs[b] == MemBuf(s.log[k], MemRun(disk0, s.log[..k]))
  }

  predicate OwnersOk(s: Sys) {
    && (forall p, q :: p in s.pc && q in s.pc && p != q && s.pc[p].Waiting? && s.pc[q].Waiting? ==>
          s.pc[p].b != s.pc[q].b)
    && (forall b :: b in s.queue ==> Busy(s, b))
  }

  predicate Inv(s: Sys, disk0: Disk) {
    && QueueOk(s) && DriveOk(s) && OwnersOk(s)
    && s.done <= |s.log| && s.disk == MemRun(disk0, s.log[..s.done])
    && forall p :: p in s.pc ==> WaitOk(s, disk0, p)
  }

  // ---- each step ----

  lemma MemRunSnoc(disk: Disk, log: seq<Buf>, k: nat)
    requires k < |log|
    ensures MemRun(disk, log[..k + 1]) == MemDisk(log[k], MemRun(disk, log[..k]))
  {
    assert log[..k + 1][..k] == log[..k];
  }

  lemma ResultStays(s: Sys, n: Sys, disk0: Disk, b: nat, k: nat)
    requires HasResult(s, disk0, b, k) && s.log <= n.log && b in n.bufs && n.bufs[b] == s.bufs[b]
    ensures HasResult(n, disk0, b, k)
  {
    assert n.log[..k] == s.log[..k];
  }

  lemma SubmitKeeps(s: Sys, disk0: Disk, p: nat, b: nat)
    requires Inv(s, disk0) && Enabled(s, Submit(p, b))
    ensures Inv(Next(s, Submit(p, b)), disk0)
  {
    hide MemRun, HasResult;
    var n := Next(s, Submit(p, b));
    assert n.log[..n.done] == s.log[..s.done];
    assert b !in s.queue;
    SubmitOwners(s, p, b);
    forall k | 0 <= k < |n.queue| ensures Queued(n, k) { if k < |s.queue| { assert Queued(s, k); } }
    assert DriveOk(n) by { if s.queue != [] { assert Queued(s, 0); } }
    forall q | q in n.pc ensures WaitOk(n, disk0, q) {
      if q != p {
        assert WaitOk(s, disk0, q);
        if s.pc[q].Waiting? && s.pc[q].k < s.done { ResultStays(s, n, disk0, s.pc[q].b, s.pc[q].k); }
      }
    }
  }

  lemma SubmitOwners(s: Sys, p: nat, b: nat)
    requires OwnersOk(s) && Enabled(s, Submit(p, b))
    ensures OwnersOk(Next(s, Submit(p, b)))
  {
    var n := Next(s, Submit(p, b));
    forall c | c in n.queue ensures Busy(n, c) {
      if c == b {
        assert n.pc[p].b == b;
      } else {
        assert Busy(s, c);
        var q :| q in s.pc && s.pc[q].Waiting? && s.pc[q].b == c;
        assert n.pc[q] == s.pc[q];
      }
    }
  }

  // The drive's command does what the in-memory disk does with the head request.
  lemma InterruptIsMem(s: Sys, disk0: Disk)
    requires Inv(s, disk0) && Enabled(s, Interrupt)
    ensures s.queue != [] && s.queue[0] in s.bufs && s.done < |s.log| && s.log[s.done].blockno in s.disk
    ensures Driven(s.drive.value, s.disk) == MemDisk(s.log[s.done], s.disk)
    ensures s.disk.Keys <= Driven(s.drive.value, s.disk).Keys
    ensures Completed(s.bufs[s.queue[0]], s.drive.value, Driven(s.drive.value, s.disk)) == MemBuf(s.log[s.done], s.disk)
  {
    assert Queued(s, 0);
  }

  lemma InterruptKeeps(s: Sys, disk0: Disk)
    requires Inv(s, disk0) && Enabled(s, Interrupt)
    ensures Inv(Next(s, Interrupt), disk0)
  {
    hide MemRun, HasResult, Driven, Completed, MemBuf, MemDisk;
    var n := Next(s, Interrupt);
    InterruptIsMem(s, disk0);
    MemRunSnoc(disk0, s.log, s.done);
    InterruptQueue(s, disk0, n);
    InterruptOwners(s, n);
    forall q | q in n.pc ensures WaitOk(n, disk0, q) {
      assert WaitOk(s, disk0, q);
      if s.pc[q].Waiting? {
        var b, k := s.pc[q].b, s.pc[q].k;
        if k < s.done {
          NotHead(s, disk0, q);
          ResultStays(s, n, disk0, b, k);
        } else if k == s.done {
          HeadResult(s, n, disk0);
        } else {
          assert s.queue[k - s.done] != s.queue[0];
        }
      }
    }
  }

  // A finished request's buffer is not the head's: one process has it.
  lemma NotHead(s: Sys, disk0: Disk, q: nat)
    requires Inv(s, disk0) && s.queue != [] && q in s.pc && s.pc[q].Waiting? && s.pc[q].k < s.done
    ensures s.pc[q].b != s.queue[0]
  {
    hide MemRun, HasResult;
    assert s.queue[0] in s.queue && Busy(s, s.queue[0]);
    var p :| p in s.pc && s.pc[p].Waiting? && s.pc[p].b == s.queue[0];
    assert WaitOk(s, disk0, p) && WaitOk(s, disk0, q);
    if p == q { HeadWaiter(s, disk0, p); }
  }

  // Whoever waits for the head buffer waits for the head request.
  lemma HeadWaiter(s: Sys, disk0: Disk, p: nat)
    requires Inv(s, disk0) && s.queue != [] && p in s.pc && s.pc[p].Waiting? && s.pc[p].b == s.queue[0]
    ensures s.pc[p].k == s.done
  {
    hide MemRun;
    assert WaitOk(s, disk0, p);
    assert Queued(s, 0);
  }

  lemma HeadResult(s: Sys, n: Sys, disk0: Disk)
    requires Inv(s, disk0) && s.queue != [] && s.queue[0] in n.bufs && n.log == s.log && s.done < |s.log|
    requires s.log[s.done].blockno in s.disk && n.bufs[s.queue[0]] == MemBuf(s.log[s.done], s.disk)
    ensures HasResult(n, disk0, s.queue[0], s.done)
  {
  }

  lemma InterruptQueue(s: Sys, disk0: Disk, n: Sys)
    requires Inv(s, disk0) && Enabled(s, Interrupt) && n == Next(s, Interrupt) && s.disk.Keys <= n.disk.Keys
    ensures QueueOk(n) && DriveOk(n)
  {
    hide MemRun, HasResult, Driven, Completed;
    assert Queued(s, 0);
    forall k | 0 <= k < |n.queue| ensures Queued(n, k) {
      assert Queued(s, k + 1) && s.queue[0] != s.queue[k + 1];
    }
    if n.queue != [] { assert Queued(n, 0); }
  }

  // Changes elsewhere leave the queue as it is.
  lemma QueueStays(s: Sys, n: Sys)
    requires QueueOk(s) && DriveOk(s)
    requires n.queue == s.queue && n.log == s.log && n.done == s.done && n.disk == s.disk && n.drive == s.drive
    requires forall b :: b in s.queue && b in s.bufs ==> b in n.bufs && n.bufs[b] == s.bufs[b]
    ensures QueueOk(n) && DriveOk(n)
  {
    forall k | 0 <= k < |n.queue| ensures Queued(n, k) { assert Queued(s, k) && s.queue[k] in s.queue; }
    if s.queue != [] { assert Queued(n, 0); }
  }

  lemma InterruptOwners(s: Sys, n: Sys)
    requires OwnersOk(s) && n.pc == s.pc && forall b :: b in n.queue ==> b in s.queue
    ensures OwnersOk(n)
  {
    forall b | b in n.queue ensures Busy(n, b) {
      assert Busy(s, b);
      var p :| p in s.pc && s.pc[p].Waiting? && s.pc[p].b == b;
      assert n.pc[p].b == b;
    }
  }

  lemma TestKeeps(s: Sys, disk0: Disk, p: nat)
    requires Inv(s, disk0) && Enabled(s, Test(p))
    ensures Inv(Next(s, Test(p)), disk0)
  {
    hide MemRun, HasResult;
    var n := Next(s, Test(p));
    assert WaitOk(s, disk0, p);
    TestOwners(s, disk0, p);
    QueueStays(s, n);
    if s.pc[p].k < s.done { ResultClean(s, disk0, s.pc[p].b, s.pc[p].k); }
    forall q | q in n.pc ensures WaitOk(n, disk0, q) {
      assert WaitOk(s, disk0, q);
      if s.pc[q].Waiting? && s.pc[q].k < s.done { ResultStays(s, n, disk0, s.pc[q].b, s.pc[q].k); }
    }
  }

  lemma ResultClean(s: Sys, disk0: Disk, b: nat, k: nat)
    requires HasResult(s, disk0, b, k)
    ensures s.bufs[b].valid && !s.bufs[b].dirty
  {
  }

  // A process leaves the loop only when its buffer is off the queue.
  lemma TestOwners(s: Sys, disk0: Disk, p: nat)
    requires Inv(s, disk0) && Enabled(s, Test(p))
    ensures OwnersOk(Next(s, Test(p)))
  {
    hide MemRun, HasResult;
    var n := Next(s, Test(p));
    forall b | b in n.queue ensures Busy(n, b) {
      assert Busy(s, b);
      var q :| q in s.pc && s.pc[q].Waiting? && s.pc[q].b == b;
      QueuedUnfinished(s, b);
      assert n.pc[q] == s.pc[q];
    }
  }

  lemma QueuedUnfinished(s: Sys, b: nat)
    requires QueueOk(s) && b in s.queue
    ensures b in s.bufs && !(s.bufs[b].valid && !s.bufs[b].dirty)
  {
    var k :| 0 <= k < |s.queue| && s.queue[k] == b;
    assert Queued(s, k);
  }

  lemma ChangeKeeps(s: Sys, disk0: Disk, b: nat, buf: Buf)
    requires Inv(s, disk0) && Enabled(s, Change(b, buf))
    ensures Inv(Next(s, Change(b, buf)), disk0)
  {
    hide MemRun, HasResult;
    var n := Next(s, Change(b, buf));
    assert b !in s.queue;
    InterruptOwners(s, n);
    QueueStays(s, n);
    forall q | q in n.pc ensures WaitOk(n, disk0, q) {
      assert WaitOk(s, disk0, q);
      if s.pc[q].Waiting? && s.pc[q].k < s.done { ResultStays(s, n, disk0, s.pc[q].b, s.pc[q].k); }
    }
  }

  lemma KillKeeps(s: Sys, disk0: Disk, p: nat)
    requires Inv(s, disk0) && Enabled(s, Kill(p))
    ensures Inv(Next(s, Kill(p)), disk0)
  {
    hide MemRun, HasResult;
    var n := Next(s, Kill(p));
    InterruptOwners(s, n);
    QueueStays(s, n);
    forall q | q in n.pc ensures WaitOk(n, disk0, q) {
      assert WaitOk(s, disk0, q);
      if s.pc[q].Waiting? && s.pc[q].k < s.done { ResultStays(s, n, disk0, s.pc[q].b, s.pc[q].k); }
    }
  }

  lemma StepKeepsInv(s: Sys, disk0: Disk, st: Step)
    requires Inv(s, disk0) && Enabled(s, st)
    ensures Inv(Next(s, st), disk0)
  {
    hide Inv, Enabled, Next;
    match st
    case Submit(p, b) => SubmitKeeps(s, disk0, p, b);
    case Interrupt => InterruptKeeps(s, disk0);
    case Test(p) => TestKeeps(s, disk0, p);
    case Kill(p) => KillKeeps(s, disk0, p);
    case Change(b, buf) => ChangeKeeps(s, disk0, b, buf);
  }

  // ---- whole runs ----

  predicate Initial(s: Sys) {
    s.queue == [] && s.drive == None && s.asleep == {} && s.log == [] && s.done == 0 && forall p :: p in s.pc ==>
      s.pc[p].Idle?
  }

  ghost predicate Reaches(s: Sys, steps: seq<Step>, t: Sys)
    decreases |steps|
  {
    if steps == [] then t == s else Enabled(s, steps[0]) && Reaches(Next(s, steps[0]), steps[1..], t)
  }

  lemma {:induction false} RunKeepsInv(s: Sys, disk0: Disk, steps: seq<Step>, t: Sys)
    requires Inv(s, disk0) && Reaches(s, steps, t)
    ensures Inv(t, disk0)
    decreases |steps|
  {
    hide Inv, Enabled, Next;
    if steps != [] {
      StepKeepsInv(s, disk0, steps[0]);
      RunKeepsInv(Next(s, steps[0]), disk0, steps[1..], t);
    }
  }

  // The disk is always what the in-memory disk would be after the finished requests,
  // which finish in the order they were made.
  lemma DiskRefines(s: Sys, steps: seq<Step>, t: Sys)
    requires Initial(s) && Reaches(s, steps, t)
    ensures t.done + |t.queue| == |t.log| && t.disk == MemRun(s.disk, t.log[..t.done])
    ensures t.queue == [] <==> t.drive.None?
    ensures t.queue != [] ==> t.queue[0] in t.bufs && t.drive == Some(Start(t.bufs[t.queue[0]]))
  {
    assert Inv(s, s.disk);
    RunKeepsInv(s, s.disk, steps, t);
  }

  // iderw returns exactly when its own request is done, with the buffer the in-memory
  // iderw gives on the disk as the earlier requests left it.
  lemma ReturnRefines(s: Sys, steps: seq<Step>, t: Sys, p: nat)
    requires Initial(s) && Reaches(s, steps, t) && Enabled(t, Test(p))
    ensures var b, k := t.pc[p].b, t.pc[p].k;
      && k < |t.log| && (Next(t, Test(p)).pc[p].Idle? <==> k < t.done)
      && (k < t.done ==>
            var disk := MemRun(s.disk, t.log[..k]); t.log[k].blockno in disk && t.bufs[b] == MemBuf(t.log[k], disk))
  {
    hide MemRun;
    assert Inv(s, s.disk) by { assert s.log[..0] == []; EmptyRun(s.disk); }
    RunKeepsInv(s, s.disk, steps, t);
    assert WaitOk(t, s.disk, p);
    if t.pc[p].k >= t.done { assert Queued(t, t.pc[p].k - t.done); }
  }

  lemma EmptyRun(disk: Disk)
    ensures MemRun(disk, []) == disk
  {
  }

  // What a block holds after the first k requests: the data of the last of them that wrote
  // it, or what it held at first.
  function Latest(disk: Disk, log: seq<Buf>, k: nat, blockno: nat): Block
    requires k <= |log| && blockno in disk
  {
    if k == 0 then disk[blockno]
    else if log[k - 1].dirty && log[k - 1].blockno == blockno then log[k - 1].data
    else Latest(disk, log, k - 1, blockno)
  }

  lemma {:induction false} RunIsLatest(disk: Disk, log: seq<Buf>, k: nat, blockno: nat)
    requires k <= |log| && blockno in disk
    ensures blockno in MemRun(disk, log[..k]) && MemRun(disk, log[..k])[blockno] == Latest(disk, log, k, blockno)
  {
    if k > 0 {
      RunIsLatest(disk, log, k - 1, blockno);
      MemRunSnoc(disk, log, k - 1);
    }
  }

  // A read returns what the last write of its block before it wrote, a write leaves its own
  // data in the buffer, and the disk holds the last data written of the finished requests.
  lemma ReadsLastWrite(s: Sys, steps: seq<Step>, t: Sys, p: nat, blockno: nat)
    requires Initial(s) && Reaches(s, steps, t) && p in t.pc && t.pc[p].Waiting? && t.pc[p].k < t.done
    requires blockno in s.disk
    ensures t.done <= |t.log| && blockno in t.disk && t.disk[blockno] == Latest(s.disk, t.log, t.done, blockno)
    ensures var b, r := t.pc[p].b, t.log[t.pc[p].k];
      r.blockno in s.disk ==>
        && b in t.bufs && t.bufs[b].blockno == r.blockno && t.bufs[b].valid && !t.bufs[b].dirty
        && t.bufs[b].data == if r.dirty then r.data else Latest(s.disk, t.log, t.pc[p].k, r.blockno)
  {
    hide MemRun;
    assert Inv(s, s.disk) by { assert s.log[..0] == []; EmptyRun(s.disk); }
    RunKeepsInv(s, s.disk, steps, t);
    assert WaitOk(t, s.disk, p);
    RunIsLatest(s.disk, t.log, t.done, blockno);
    var r := t.log[t.pc[p].k];
    if r.blockno in s.disk { RunIsLatest(s.disk, t.log, t.pc[p].k, r.blockno); }
  }

  // Nobody sleeps on a finished request.
  lemma NobodyMissed(s: Sys, steps: seq<Step>, t: Sys, p: nat)
    requires Initial(s) && Reaches(s, steps, t) && p in t.asleep && p in t.pc && t.pc[p].Waiting?
    ensures t.pc[p].b in t.queue && t.drive.Some?
  {
    assert Inv(s, s.disk);
    RunKeepsInv(s, s.disk, steps, t);
    assert WaitOk(t, s.disk, p);
  }

  // ---- calls left alone ----

  // Processes in iderw, and those of them that are not asleep.
  function Callers(s: Sys): set<nat> {
    set p | p in s.pc && s.pc[p].Waiting?
  }

  function Awake(s: Sys): set<nat> {
    set p | p in s.pc && s.pc[p].Waiting? && p !in s.asleep
  }

  // Each interrupt may wake everybody.
  function Rank(s: Sys): nat {
    |s.queue| * (|s.pc| + 1) + |Callers(s)| + |Awake(s)|
  }

  lemma Fewer(a: set<nat>, b: set<nat>, p: nat)
    requires a <= b - {p} && p in b
    ensures |a| < |b|
  {
    SubsetSize(a, b - {p});
  }

  lemma {:induction false} SubsetSize(a: set<nat>, b: set<nat>)
    requires a <= b
    ensures |a| <= |b|
    decreases a
  {
    if a != {} {
      var x :| x in a;
      SubsetSize(a - {x}, b - {x});
    }
  }

  // An interrupt, or a step of a caller that is awake.
  predicate Own(st: Step) {
    st.Interrupt? || st.Test?
  }

  lemma TestLowers(s: Sys, p: nat)
    requires Enabled(s, Test(p))
    ensures Rank(Next(s, Test(p))) < Rank(s)
  {
    var n := Next(s, Test(p));
    assert n.pc.Keys == s.pc.Keys;
    assert |n.pc| == |n.pc.Keys| == |s.pc.Keys| == |s.pc|;
    SubsetSize(Callers(n), Callers(s));
    Fewer(Awake(n), Awake(s), p);
  }

  lemma InterruptLowers(s: Sys, disk0: Disk)
    requires Inv(s, disk0) && Enabled(s, Interrupt)
    ensures Rank(Next(s, Interrupt)) < Rank(s)
  {
    hide MemRun, HasResult;
    var n := Next(s, Interrupt);
    InterruptIsMem(s, disk0);
    assert n.pc == s.pc && |n.queue| == |s.queue| - 1;
    assert Callers(n) == Callers(s);
    SubsetSize(Awake(n), s.pc.Keys);
    assert |s.pc.Keys| == |s.pc|;
    Times(|n.queue|, |s.pc| + 1);
  }

  lemma Times(k: nat, m: nat)
    ensures (k + 1) * m == k * m + m
  {
  }

  // The calls under way take only so many steps, ...
  lemma {:induction false} RunsOut(s: Sys, disk0: Disk, steps: seq<Step>, t: Sys)
    requires Inv(s, disk0) && Reaches(s, steps, t) && forall i :: 0 <= i < |steps| ==> Own(steps[i])
    ensures |steps| <= Rank(s)
    decreases |steps|
  {
    hide Inv, Enabled, Next, Rank;
    if steps != [] {
      StepKeepsInv(s, disk0, steps[0]);
      if steps[0].Interrupt? { InterruptLowers(s, disk0); } else { TestLowers(s, steps[0].p); }
      RunsOut(Next(s, steps[0]), disk0, steps[1..], t);
    }
  }

  // ... and then everybody has returned: as long as somebody has not, the drive is busy or
  // a caller can test its buffer.
  lemma LeftAlone(s: Sys, steps: seq<Step>, t: Sys)
    requires Initial(s) && Reaches(s, steps, t) && !Enabled(t, Interrupt)
    requires forall p :: p in t.pc ==> !Enabled(t, Test(p))
    ensures t.queue == [] && t.done == |t.log| && forall p :: p in t.pc ==> t.pc[p].Idle?
  {
    hide MemRun;
    assert Inv(s, s.disk) by { assert s.log[..0] == []; EmptyRun(s.disk); }
    RunKeepsInv(s, s.disk, steps, t);
    forall p | p in t.pc ensures t.pc[p].Idle? {
      assert WaitOk(t, s.disk, p);
      assert !Enabled(t, Test(p));
    }
  }

  // kill gets a caller out of its sleep.
  lemma KilledWakes(s: Sys, p: nat)
    requires Enabled(s, Kill(p)) && s.pc[p].Waiting? && s.pc[p].b in s.bufs
    ensures Enabled(Next(s, Kill(p)), Test(p)) && Next(s, Kill(p)) == s.(asleep := s.asleep - {p})
  {
  }

  // ---- the queue as linked buffers ----

  // idequeue and the qnext fields, holding the buffers of q in order.
  ghost predicate Chained(head: Option<nat>, qnext: map<nat, Option<nat>>, q: seq<nat>) {
    && head == (if q == [] then None else Some(q[0]))
    && (forall i :: 0 <= i < |q| ==> q[i] in qnext && qnext[q[i]] == Follower(q, i))
    && (forall i, j :: 0 <= i < j < |q| ==> q[i] != q[j])
  }

  function Follower(q: seq<nat>, i: nat): Option<nat> {
    if i + 1 < |q| then Some(q[i + 1]) else None
  }

  lemma ChainFresh(head: Option<nat>, qnext: map<nat, Option<nat>>, q: seq<nat>, b: nat)
    requires Chained(head, qnext, q) && b !in q
    ensures Chained(head, qnext[b := None], q) && (head.None? <==> q == [])
    ensures (head.Some? ==> head.value == q[0] && q[0] in qnext)
    ensures q == [] ==> Chained(Some(b), qnext[b := None], [b])
  {
    assert forall i :: 0 <= i < |q| ==> q[i] in q;
  }

  lemma ChainAt(head: Option<nat>, qnext: map<nat, Option<nat>>, q: seq<nat>, i: nat)
    requires Chained(head, qnext, q) && i < |q|
    ensures q[i] in qnext && qnext[q[i]] == Follower(q, i) && (i + 1 < |q| ==> q[i + 1] in qnext)
  {
  }

  // The last buffer's link is set to b.
  lemma ChainAppend(head: Option<nat>, qnext: map<nat, Option<nat>>, q: seq<nat>, b: nat)
    requires Chained(head, qnext, q) && q != [] && b !in q && b in qnext && qnext[b] == None
    ensures Chained(head, qnext[q[|q| - 1] := Some(b)], q + [b])
  {
    var n, p := qnext[q[|q| - 1] := Some(b)], q + [b];
    forall i | 0 <= i < |p| ensures p[i] in n && n[p[i]] == Follower(p, i) {
      if i < |q| { assert p[i] == q[i] && q[i] in q; }
    }
  }

  class RequestQueue {
    var idequeue: Option<nat>
    var qnext: map<nat, Option<nat>>
    ghost var q: seq<nat>

    ghost predicate Valid()
      reads this
    {
      Chained(idequeue, qnext, q)
    }

    constructor ()
      ensures Valid() && q == []
    {
      idequeue, qnext, q := None, map[], [];
    }

    // iderw's walk to the end of the list
    method Append(b: nat)
      requires Valid() && b !in q
      modifies this
      ensures Valid() && q == old(q) + [b]
    {
      hide Chained;
      ChainFresh(idequeue, qnext, q, b);
      qnext := qnext[b := None];
      if idequeue.None? {
        idequeue := Some(b);
        assert q + [b] == [b];
      } else {
        var pp := idequeue.value;
        ghost var i := 0;
        ChainAt(idequeue, qnext, q, 0);
        while qnext[pp].Some?
          invariant 0 <= i < |q| && pp == q[i] && Valid() && q == old(q) && b in qnext && qnext[b] == None
          invariant pp in qnext
          decreases |q| - i
        {
          ChainAt(idequeue, qnext, q, i);
          pp := qnext[pp].value;
          i := i + 1;
        }
        ChainAt(idequeue, qnext, q, i);
        ChainAppend(idequeue, qnext, q, b);
        qnext := qnext[pp := Some(b)];
      }
      q := q + [b];
    }

    // ideintr's removal of the head
    method Pop() returns (b: Option<nat>)
      requires Valid()
      modifies this
      ensures Valid() && b == (if old(q) == [] then None else Some(old(q)[0]))
      ensures q == if old(q) == [] then [] else old(q)[1..]
    {
      b := idequeue;
      if b.Some? {
        assert q[0] in qnext;
        idequeue := qnext[b.value];
        q := q[1..];
      }
    }
  }
}
