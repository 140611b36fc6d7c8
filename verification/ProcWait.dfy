/**
 fork, exit, wait and kill over the process table (kernel/proc.c), one step per stretch
 under ptable.lock.  A null parent pointer is "no parent"; the initial process does not
 exit.
 */
module ProcWait {
  import opened Prelude

  // RUNNABLE and RUNNING are Alive; a process sleeps only in wait, on itself.
  datatype State = Unused | Alive | Sleeping | Zombie

  // Scan: wait's first loop, at slot `next`; `had` remembers whether the caller had a
  // child when it called.  Check: at the head of wait's second loop.
  datatype Pc = User | Scan(next: nat, found: bool, had: bool) | Check

  datatype Proc = Proc(state: State, pid: nat, parent: Option<nat>, pc: Pc)

  // What wait told a process: the pid of a child, or -1.
  datatype Answer = Answer(pid: nat, child: Option<nat>)

  // `exited` are the pids of all processes that exited, `answers` what wait has answered.
  datatype Sys = Sys(procs: seq<Proc>, init: nat, nextpid: nat, exited: seq<nat>, answers: seq<Answer>)

  datatype Step =
    | Fork(p: nat, c: nat)
    | Exit(p: nat)
    | Wait(p: nat)
    | Look(p: nat)     // one slot of the first loop
    | Decide(p: nat)   // after the first loop
    | Reap(p: nat)     // one round of the second loop
    | Kill(p: nat)

  // The test of the loops: the slot's parent has the caller's pid.
  predicate IsChild(s: Sys, i: nat, p: nat)
    requires p < |s.procs|
  {
    && i < |s.procs| && s.procs[i].parent.Some? && s.procs[i].parent.value < |s.procs|
    && s.procs[s.procs[i].parent.value].pid == s.procs[p].pid
  }

  predicate HasChild(s: Sys, p: nat)
    requires p < |s.procs|
  {
    exists i :: 0 <= i < |s.procs| && IsChild(s, i, p) && !s.procs[i].state.Unused?
  }

  // The pids that wait returned.
  function Returned(answers: seq<Answer>): seq<nat> {
    if answers == [] then []
    else
      var a := answers[|answers| - 1];
      Returned(answers[..|answers| - 1]) + if a.child.Some? then [a.child.value] else []
  }

  lemma ReturnedMore(answers: seq<Answer>, a: Answer)
    ensures Returned(answers + [a]) == Returned(answers) + if a.child.Some? then [a.child.value] else []
  {
    assert (answers + [a])[..|answers|] == answers;
  }

  predicate ZombieChild(s: Sys, i: nat, p: nat)
    requires p < |s.procs|
  {
    i < |s.procs| && IsChild(s, i, p) && s.procs[i].state.Zombie?
  }

  // process_zombie_child's choice: the first zombie child from slot i on.
  function FirstZombie(s: Sys, p: nat, i: nat): (r: Option<nat>)
    requires p < |s.procs|
    ensures r.Some? ==> i <= r.value && ZombieChild(s, r.value, p)
    ensures forall k: nat :: i <= k && (r.Some? ==> k < r.value) ==> !ZombieChild(s, k, p)
    decreases |s.procs| - i
  {
    if i >= |s.procs| then None
    else if ZombieChild(s, i, p) then Some(i)
    else FirstZombie(s, p, i + 1)
  }

  predicate Enabled(s: Sys, st: Step) {
    && st.p < |s.procs|
    && var q := s.procs[st.p];
       match st
       case Fork(p, c) => q.state.Alive? && q.pc.User? && c < |s.procs| && s.procs[c].state.Unused?
       case Exit(p) => q.state.Alive? && q.pc.User? && p != s.init
       case Wait(_) => q.state.Alive? && q.pc.User?
       case Look(_) => q.state.Alive? && q.pc.Scan? && q.pc.next < |s.procs|
       case Decide(_) => q.state.Alive? && q.pc.Scan? && q.pc.next >= |s.procs|
       case Reap(_) => q.state.Alive? && q.pc.Check?
       case Kill(_) => true
  }

  function Put(s: Sys, p: nat, q: Proc): Sys
    requires p < |s.procs|
  {
    s.(procs := s.procs[p := q])
  }

  // wakeup1 on a process as channel
  function Woken(q: Proc): Proc {
    if q.state.Sleeping? then q.(state := Alive) else q
  }

  // The new entry of slot i when p exits.
  function ExitSlot(s: Sys, p: nat, i: nat): Proc
    requires p < |s.procs| && i < |s.procs|
  {
    var q := s.procs[i];
    var a := if IsChild(s, i, p) then q.(parent := Some(s.init)) else q;
    var b := if i == s.init && (exists k :: 0 <= k < |s.procs| && IsChild(s, k, p)) then Woken(a) else a;
    var c := if s.procs[p].parent == Some(i) then Woken(b) else b;
    if i == p then c.(state := Zombie) else c
  }

  function Next(s: Sys, st: Step): Sys
    requires Enabled(s, st)
  {
    var q := s.procs[st.p];
    match st
    case Fork(p, c) => Put(s, c, Proc(Alive, s.nextpid, Some(p), User)).(nextpid := s.nextpid + 1)
    case Exit(p) =>
      s.(procs := seq(|s.procs|, i requires 0 <= i < |s.procs| => ExitSlot(s, p, i)), exited := s.exited + [q.pid])
    case Wait(p) => Put(s, p, q.(pc := Scan(0, false, HasChild(s, p))))
    case Look(p) =>
      var found := q.pc.found || (IsChild(s, q.pc.next, p) && !s.procs[q.pc.next].state.Unused?);
      Put(s, p, q.(pc := Scan(q.pc.next + 1, found, q.pc.had)))
    case Decide(p) =>
      if q.pc.found then Put(s, p, q.(pc := Check))
      else Put(s, p, q.(pc := User)).(answers := s.answers + [Answer(q.pid, None)])
    case Reap(p) =>
      (match FirstZombie(s, p, 0)
       case Some(c) =>
         Put(Put(s, c, Proc(Unused, 0, None, User)), p, q.(pc := User))
           .(answers := s.answers + [Answer(q.pid, Some(s.procs[c].pid))])
       case None => Put(s, p, q.(state := Sleeping)))
    case Kill(p) => Put(s, p, Woken(q))
  }

  // ---- what every reachable state satisfies ----

  predicate Live(q: Proc) {
    q.state.Alive? || q.state.Sleeping?
  }

  // Every process but the first has a live parent, which is older.
  predicate SlotOk(s: Sys, i: nat)
    requires i < |s.procs|
  {
    var q := s.procs[i];
    if q.state.Unused? then q.parent == None && q.pid == 0
    else
      && 0 < q.pid < s.nextpid
      && (i == s.init ==> q.parent == None && Live(q))
      && (i != s.init ==>
            && q.parent.Some? && q.parent.value < |s.procs| && q.parent.value != i && Live(s.procs[q.parent.value])
            && s.procs[q.parent.value].pid < q.pid)
  }

  predicate TableOk(s: Sys) {
    && s.init < |s.procs| && !s.procs[s.init].state.Unused? && s.procs[s.init].pid == 1
    && (forall i :: 0 <= i < |s.procs| ==> SlotOk(s, i))
    && (forall i, j :: 0 <= i < j < |s.procs| && !s.procs[i].state.Unused? && !s.procs[j].state.Unused? ==>
          s.procs[i].pid != s.procs[j].pid)
  }

  // Whoever sleeps in wait has no zombie child.
  predicate SleepOk(s: Sys) {
    forall p, i ::
      0 <= p < |s.procs| && 0 <= i < |s.procs| && s.procs[p].state.Sleeping? && s.procs[i].parent == Some(p) ==>
      !s.procs[i].state.Zombie?
  }

  predicate Kid(s: Sys, i: nat, p: nat) {
    i < |s.procs| && s.procs[i].parent == Some(p)
  }

  // What the loops of wait know.
  ghost predicate ScanOk(s: Sys, p: nat)
    requires p < |s.procs|
  {
    var pc := s.procs[p].pc;
    && (Live(s.procs[p]) && pc.Scan? ==>
          && pc.next <= |s.procs|
          && (pc.found ==> exists i :: Kid(s, i, p))
          && (pc.had ==> pc.found || exists i :: pc.next <= i && Kid(s, i, p))
          && (!pc.had ==> forall i :: !Kid(s, i, p)))
    && (Live(s.procs[p]) && pc.Check? ==> exists i :: Kid(s, i, p))
    && (s.procs[p].state.Sleeping? ==> pc.Check?)
  }

  // Exited processes are zombies until wait returns them, once.
  predicate LogOk(s: Sys) {
    && (forall i, j :: 0 <= i < j < |Returned(s.answers)| ==> Returned(s.answers)[i] != Returned(s.answers)[j])
    && (forall i :: 0 <= i < |s.procs| && !s.procs[i].state.Unused? ==>
          s.procs[i].pid !in Returned(s.answers) && (s.procs[i].state.Zombie? <==> s.procs[i].pid in s.exited))
    && (forall x :: x in Returned(s.answers) ==> x in s.exited && x < s.nextpid)
    && (forall x :: x in s.exited ==>
          x < s.nextpid &&
          (x in Returned(s.answers)
           || exists i :: 0 <= i < |s.procs| && s.procs[i].state.Zombie? && s.procs[i].pid == x))
    && (forall i, j :: 0 <= i < j < |s.exited| ==> s.exited[i] != s.exited[j])
  }

  ghost predicate Inv(s: Sys) {
    && TableOk(s) && SleepOk(s) && LogOk(s)
    && forall p :: 0 <= p < |s.procs| ==> ScanOk(s, p)
  }

  // Under the invariant the test by pid is the test by parent.
  lemma ChildIsKid(s: Sys, i: nat, p: nat)
    requires TableOk(s) && p < |s.procs| && Live(s.procs[p])
    ensures IsChild(s, i, p) <==> Kid(s, i, p)
    ensures IsChild(s, i, p) ==> !s.procs[i].state.Unused?
  {
    if i < |s.procs| {
      assert SlotOk(s, i) && SlotOk(s, p);
      if s.procs[i].parent.Some? && s.procs[i].parent.value < |s.procs| { assert SlotOk(s, s.procs[i].parent.value); }
    }
  }

  lemma HasChildIsKid(s: Sys, p: nat)
    requires TableOk(s) && p < |s.procs| && Live(s.procs[p])
    ensures HasChild(s, p) <==> exists i :: Kid(s, i, p)
  {
    forall i ensures IsChild(s, i, p) <==> Kid(s, i, p) { ChildIsKid(s, i, p); }
    if i: nat :| Kid(s, i, p) { ChildIsKid(s, i, p); }
  }

  // Parents are older than their children, so while there is any other process the first
  // one has a child.
  lemma FirstHasChild(s: Sys, i: nat)
    requires TableOk(s) && i < |s.procs| && i != s.init && !s.procs[i].state.Unused?
    ensures exists k :: Kid(s, k, s.init)
    decreases s.procs[i].pid
  {
    assert SlotOk(s, i);
    if s.procs[i].parent.value == s.init {
      assert Kid(s, i, s.init);
    } else {
      FirstHasChild(s, s.procs[i].parent.value);
    }
  }

  // ---- steps that change one program counter or wake one process ----

  // Only p's counter, or its being asleep, changes.
  predicate Touched(s: Sys, n: Sys, p: nat) {
    && p < |s.procs| && |n.procs| == |s.procs| && n == s.(procs := n.procs, answers := n.answers)
    && (n.answers == s.answers || n.answers == s.answers + [Answer(s.procs[p].pid, None)])
    && (forall i :: 0 <= i < |s.procs| && i != p ==> n.procs[i] == s.procs[i])
    && n.procs[p] == s.procs[p].(pc := n.procs[p].pc, state := n.procs[p].state)
    && (n.procs[p].state == s.procs[p].state || (Live(n.procs[p]) && Live(s.procs[p])))
  }

  lemma TouchedKeeps(s: Sys, n: Sys, p: nat)
    requires TableOk(s) && LogOk(s) && Touched(s, n, p)
    ensures TableOk(n) && LogOk(n) && forall i, q :: Kid(n, i, q) <==> Kid(s, i, q)
  {
    TouchedLog(s, n, p);
    forall i | 0 <= i < |n.procs| ensures SlotOk(n, i) {
      assert SlotOk(s, i);
    }
  }

  lemma TouchedLog(s: Sys, n: Sys, p: nat)
    requires LogOk(s) && Touched(s, n, p)
    ensures LogOk(n)
  {
    hide Returned;
    ReturnedMore(s.answers, Answer(s.procs[p].pid, None));
    assert Returned(n.answers) == Returned(s.answers);
    forall x | x in n.exited && x !in Returned(n.answers)
      ensures exists i :: 0 <= i < |n.procs| && n.procs[i].state.Zombie? && n.procs[i].pid == x
    {
      var i :| 0 <= i < |s.procs| && s.procs[i].state.Zombie? && s.procs[i].pid == x;
      assert n.procs[i].state.Zombie? && n.procs[i].pid == x;
    }
  }

  lemma TouchedScan(s: Sys, n: Sys, p: nat, q: nat)
    requires Touched(s, n, p) && q < |s.procs| && q != p && ScanOk(s, q) && forall i, q :: Kid(n, i, q) <==>
      Kid(s, i, q)
    ensures ScanOk(n, q)
  {
  }

  lemma KillKeeps(s: Sys, st: Step)
    requires Inv(s) && Enabled(s, st) && st.Kill?
    ensures Inv(Next(s, st))
  {
    hide TableOk, LogOk;
    var n := Next(s, st);
    TouchedKeeps(s, n, st.p);
    forall q | 0 <= q < |n.procs| ensures ScanOk(n, q) { assert ScanOk(s, q); }
  }

  lemma WaitKeeps(s: Sys, st: Step)
    requires Inv(s) && Enabled(s, st) && (st.Wait? || st.Look? || st.Decide?)
    ensures Inv(Next(s, st))
  {
    hide TableOk, LogOk, SleepOk, IsChild;
    var n, p := Next(s, st), st.p;
    TouchedKeeps(s, n, p);
    CounterKeepsSleep(s, n, p);
    assert ScanOk(s, p);
    HasChildIsKid(s, p);
    if st.Look? { ChildIsKid(s, s.procs[p].pc.next, p); }
    assert ScanOk(n, p);
    forall q | 0 <= q < |n.procs| ensures ScanOk(n, q) {
      assert ScanOk(s, q);
      if q != p { TouchedScan(s, n, p, q); }
    }
  }

  lemma CounterKeepsSleep(s: Sys, n: Sys, p: nat)
    requires Touched(s, n, p) && SleepOk(s) && n.procs[p].state == s.procs[p].state
    ensures SleepOk(n)
  {
  }

  // ---- wait's second loop ----

  lemma ReapSleeps(s: Sys, st: Step)
    requires Inv(s) && Enabled(s, st) && st.Reap? && FirstZombie(s, st.p, 0).None?
    ensures Inv(Next(s, st))
  {
    hide TableOk, LogOk, IsChild;
    var n, p := Next(s, st), st.p;
    TouchedKeeps(s, n, p);
    forall i | 0 <= i < |n.procs| && Kid(n, i, p) ensures !n.procs[i].state.Zombie? {
      ChildIsKid(s, i, p);
      assert !ZombieChild(s, i, p);
    }
    forall q | 0 <= q < |n.procs| ensures ScanOk(n, q) { assert ScanOk(s, q); }
  }

  // The freed slot is a zombie child, so nobody's parent.
  lemma ReapFrees(s: Sys, st: Step)
    requires Inv(s) && Enabled(s, st) && st.Reap? && FirstZombie(s, st.p, 0).Some?
    ensures Inv(Next(s, st))
  {
    hide TableOk, LogOk, SleepOk, IsChild;
    var n, p, c := Next(s, st), st.p, FirstZombie(s, st.p, 0).value;
    ChildIsKid(s, c, p);
    ReapTable(s, n, p, c);
    ReapLog(s, n, p, c);
    forall q | 0 <= q < |n.procs| ensures ScanOk(n, q) {
      assert ScanOk(s, q);
      ReapScan(s, n, p, c, q);
    }
  }

  // From s to n, process p got its zombie child c back from wait.
  predicate Reaped(s: Sys, n: Sys, p: nat, c: nat) {
    && p < |s.procs| && c < |s.procs| && p != c && s.procs[c].state.Zombie? && s.procs[c].parent == Some(p)
    && s.procs[p].state.Alive? && s.procs[p].pc.Check?
    && n == s.(procs := s.procs[c := Proc(Unused, 0, None, User)][p := s.procs[p].(pc := User)],
               answers := s.answers + [Answer(s.procs[p].pid, Some(s.procs[c].pid))])
  }

  lemma ReapTable(s: Sys, n: Sys, p: nat, c: nat)
    requires TableOk(s) && SleepOk(s) && Reaped(s, n, p, c)
    ensures TableOk(n) && SleepOk(n) && forall i, q :: Kid(n, i, q) <==> Kid(s, i, q) && i != c
  {
    assert SlotOk(s, s.init);
    forall i | 0 <= i < |n.procs| ensures SlotOk(n, i) {
      assert SlotOk(s, i);
    }
  }

  lemma ReapLog(s: Sys, n: Sys, p: nat, c: nat)
    requires TableOk(s) && LogOk(s) && Reaped(s, n, p, c)
    ensures LogOk(n)
  {
    hide Returned;
    ReturnedMore(s.answers, Answer(s.procs[p].pid, Some(s.procs[c].pid)));
    assert SlotOk(s, c);
    forall x | x in n.exited && x !in Returned(n.answers)
      ensures exists i :: 0 <= i < |n.procs| && n.procs[i].state.Zombie? && n.procs[i].pid == x
    {
      var i :| 0 <= i < |s.procs| && s.procs[i].state.Zombie? && s.procs[i].pid == x;
      assert i != c && i != p;
      assert n.procs[i].state.Zombie? && n.procs[i].pid == x;
    }
  }

  lemma ReapScan(s: Sys, n: Sys, p: nat, c: nat, q: nat)
    requires Reaped(s, n, p, c) && q < |s.procs| && ScanOk(s, q) && forall i, q :: Kid(n, i, q) <==>
      Kid(s, i, q) && i != c
    ensures ScanOk(n, q)
  {
    if q != p && Live(n.procs[q]) && n.procs[q].pc.Scan? {
      assert !Kid(s, c, q);
      if i: nat :| Kid(s, i, q) { assert Kid(n, i, q); }
    }
  }

  // ---- fork ----

  predicate Forked(s: Sys, n: Sys, p: nat, c: nat) {
    && p < |s.procs| && c < |s.procs| && s.procs[p].state.Alive? && s.procs[p].pc.User? && s.procs[c].state.Unused?
    && n == s.(procs := s.procs[c := Proc(Alive, s.nextpid, Some(p), User)], nextpid := s.nextpid + 1)
  }

  lemma ForkTable(s: Sys, n: Sys, p: nat, c: nat)
    requires TableOk(s) && SleepOk(s) && s.nextpid > 0 && Forked(s, n, p, c)
    ensures TableOk(n) && SleepOk(n) && forall i, q :: Kid(n, i, q) <==> if i == c then q == p else Kid(s, i, q)
  {
    assert SlotOk(s, p);
    forall i | 0 <= i < |n.procs| ensures SlotOk(n, i) && (i != c ==> n.procs[i].pid < s.nextpid) {
      assert SlotOk(s, i);
    }
  }

  lemma ForkLog(s: Sys, n: Sys, p: nat, c: nat)
    requires TableOk(s) && LogOk(s) && Forked(s, n, p, c)
    ensures LogOk(n)
  {
    forall x | x in n.exited && x !in Returned(n.answers)
      ensures exists i :: 0 <= i < |n.procs| && n.procs[i].state.Zombie? && n.procs[i].pid == x
    {
      var i :| 0 <= i < |s.procs| && s.procs[i].state.Zombie? && s.procs[i].pid == x;
      assert n.procs[i].state.Zombie? && n.procs[i].pid == x;
    }
  }

  lemma ForkKeeps(s: Sys, st: Step)
    requires Inv(s) && Enabled(s, st) && st.Fork?
    ensures Inv(Next(s, st))
  {
    hide TableOk, LogOk, SleepOk;
    var n, p, c := Next(s, st), st.p, st.c;
    UnusedSlot(s, c);
    ForkTable(s, n, p, c);
    ForkLog(s, n, p, c);
    forall q | 0 <= q < |n.procs| ensures ScanOk(n, q) {
      assert ScanOk(s, q);
      if q != c && q != p && Live(n.procs[q]) && n.procs[q].pc.Scan? {
        if i: nat :| Kid(s, i, q) { assert i != c; }
        assert forall i :: Kid(n, i, q) <==> Kid(s, i, q);
      }
    }
  }

  lemma UnusedSlot(s: Sys, c: nat)
    requires TableOk(s) && c < |s.procs| && s.procs[c].state.Unused?
    ensures s.nextpid > 0 && s.procs[c].parent == None
  {
    assert SlotOk(s, c) && SlotOk(s, s.init);
  }

  // ---- exit ----

  // The entry of slot i once p has exited.
  ghost predicate ExitedSlot(s: Sys, n: Sys, p: nat, i: nat)
    requires p < |s.procs| && i < |s.procs| == |n.procs|
  {
    var a, b := s.procs[i], n.procs[i];
    && b == a.(parent := b.parent, state := b.state)
    && b.parent == (if Kid(s, i, p) then Some(s.init) else a.parent)
    && (if i == p then b.state.Zombie? else b.state == a.state || (a.state.Sleeping? && b.state.Alive?))
    && (i == s.init && i != p && (exists k :: Kid(s, k, p)) ==> !b.state.Sleeping?)
    && (s.procs[p].parent == Some(i) && i != p ==> !b.state.Sleeping?)
  }

  ghost predicate Exited(s: Sys, n: Sys, p: nat) {
    && p < |s.procs| == |n.procs| && p != s.init && s.procs[p].state.Alive?
    && n == s.(procs := n.procs, exited := s.exited + [s.procs[p].pid])
    && forall i :: 0 <= i < |n.procs| ==> ExitedSlot(s, n, p, i)
  }

  lemma ExitIs(s: Sys, st: Step)
    requires TableOk(s) && Enabled(s, st) && st.Exit?
    ensures Exited(s, Next(s, st), st.p)
  {
    hide IsChild, TableOk;
    var n, p := Next(s, st), st.p;
    forall i | 0 <= i < |n.procs| ensures ExitedSlot(s, n, p, i) {
      ChildIsKid(s, i, p);
      if k: nat :| Kid(s, k, p) { ChildIsKid(s, k, p); }
    }
  }

  lemma ExitTable(s: Sys, n: Sys, p: nat)
    requires TableOk(s) && Exited(s, n, p)
    ensures TableOk(n)
    ensures forall i, q :: Kid(n, i, q) <==> if Kid(s, i, p) then q == s.init else Kid(s, i, q)
  {
    assert ExitedSlot(s, n, p, s.init) && SlotOk(s, s.init);
    forall i | 0 <= i < |n.procs| ensures SlotOk(n, i) {
      assert SlotOk(s, i) && ExitedSlot(s, n, p, i);
      if s.procs[i].parent.Some? && s.procs[i].parent.value < |s.procs| {
        assert ExitedSlot(s, n, p, s.procs[i].parent.value);
      }
    }
    forall i: nat, q: nat ensures Kid(n, i, q) <==> if Kid(s, i, p) then q == s.init else Kid(s, i, q) {
      if i < |n.procs| { assert ExitedSlot(s, n, p, i); }
    }
    forall i, j | 0 <= i < j < |n.procs| && !n.procs[i].state.Unused? && !n.procs[j].state.Unused?
      ensures n.procs[i].pid != n.procs[j].pid
    {
      assert ExitedSlot(s, n, p, i) && ExitedSlot(s, n, p, j);
    }
  }

  // The new zombie's parent is awake, and so is whoever inherits its children.
  lemma ExitSleep(s: Sys, n: Sys, p: nat)
    requires TableOk(s) && SleepOk(s) && Exited(s, n, p)
    ensures SleepOk(n)
  {
    forall q, i | 0 <= q < |n.procs| && 0 <= i < |n.procs| && n.procs[q].state.Sleeping? && n.procs[i].parent == Some(q)
      ensures !n.procs[i].state.Zombie?
    {
      assert ExitedSlot(s, n, p, q) && ExitedSlot(s, n, p, i) && SlotOk(s, p);
      assert Kid(s, i, p) ==> q == s.init;
    }
  }

  lemma ExitLog(s: Sys, n: Sys, p: nat)
    requires TableOk(s) && LogOk(s) && Exited(s, n, p)
    ensures LogOk(n)
  {
    assert SlotOk(s, p) && ExitedSlot(s, n, p, p);
    forall i | 0 <= i < |n.procs| && !n.procs[i].state.Unused?
      ensures n.procs[i].pid !in Returned(n.answers) && (n.procs[i].state.Zombie? <==> n.procs[i].pid in n.exited)
    {
      assert ExitedSlot(s, n, p, i);
      assert i != p ==> s.procs[i].pid != s.procs[p].pid;
    }
    forall x | x in n.exited && x !in Returned(n.answers)
      ensures exists i :: 0 <= i < |n.procs| && n.procs[i].state.Zombie? && n.procs[i].pid == x
    {
      if x == s.procs[p].pid {
        assert n.procs[p].state.Zombie?;
      } else {
        var i :| 0 <= i < |s.procs| && s.procs[i].state.Zombie? && s.procs[i].pid == x;
        assert ExitedSlot(s, n, p, i);
        assert n.procs[i].state.Zombie? && n.procs[i].pid == x;
      }
    }
  }

  lemma ExitScan(s: Sys, n: Sys, p: nat, q: nat)
    requires TableOk(s) && Exited(s, n, p) && q < |s.procs| && ScanOk(s, q)
    requires forall i, q :: Kid(n, i, q) <==> if Kid(s, i, p) then q == s.init else Kid(s, i, q)
    ensures ScanOk(n, q)
  {
    assert ExitedSlot(s, n, p, q);
    if q != p && Live(n.procs[q]) && n.procs[q].pc.Scan? {
      forall i | Kid(s, i, q) ensures Kid(n, i, q) {}
      FirstHasChild(s, p);
    }
  }

  lemma ExitKeeps(s: Sys, st: Step)
    requires Inv(s) && Enabled(s, st) && st.Exit?
    ensures Inv(Next(s, st))
  {
    hide TableOk, LogOk, SleepOk, ScanOk, Exited, ExitSlot;
    var n, p := Next(s, st), st.p;
    ExitIs(s, st);
    ExitTable(s, n, p);
    ExitSleep(s, n, p);
    ExitLog(s, n, p);
    forall q | 0 <= q < |n.procs| ensures ScanOk(n, q) {
      ExitScan(s, n, p, q);
    }
  }

  // ---- every step, and whole runs ----

  lemma StepKeepsInv(s: Sys, st: Step)
    requires Inv(s) && Enabled(s, st)
    ensures Inv(Next(s, st))
  {
    hide Inv, Enabled, Next;
    match st
    case Fork(_, _) => ForkKeeps(s, st);
    case Exit(_) => ExitKeeps(s, st);
    case Kill(_) => KillKeeps(s, st);
    case Wait(_) => WaitKeeps(s, st);
    case Look(_) => WaitKeeps(s, st);
    case Decide(_) => WaitKeeps(s, st);
    case Reap(p) =>
      InRange(s, st);
      if FirstZombie(s, p, 0).Some? { ReapFrees(s, st); } else { ReapSleeps(s, st); }
  }

  lemma InRange(s: Sys, st: Step)
    requires Enabled(s, st)
    ensures st.p < |s.procs|
  {
  }

  // Only the first process, in user code.
  predicate Initial(s: Sys) {
    && s.init < |s.procs| && s.procs[s.init] == Proc(Alive, 1, None, User)
    && s.nextpid == 2 && s.exited == [] && s.answers == []
    && forall i :: 0 <= i < |s.procs| && i != s.init ==> s.procs[i] == Proc(Unused, 0, None, User)
  }

  lemma InitialInv(s: Sys)
    requires Initial(s)
    ensures Inv(s)
  {
  }

  ghost predicate Reaches(s: Sys, steps: seq<Step>, t: Sys)
    decreases |steps|
  {
    if steps == [] then t == s else Enabled(s, steps[0]) && Reaches(Next(s, steps[0]), steps[1..], t)
  }

  lemma {:induction false} RunKeepsInv(s: Sys, steps: seq<Step>, t: Sys)
    requires Inv(s) && Reaches(s, steps, t)
    ensures Inv(t)
    decreases |steps|
  {
    hide Inv, Enabled, Next;
    if steps != [] {
      StepKeepsInv(s, steps[0]);
      RunKeepsInv(Next(s, steps[0]), steps[1..], t);
    }
  }

  // Every exited process is returned by wait at most once, and is a zombie until then.
  lemma ReturnedOnce(s: Sys, steps: seq<Step>, t: Sys)
    requires Initial(s) && Reaches(s, steps, t)
    ensures forall i, j :: 0 <= i < j < |Returned(t.answers)| ==> Returned(t.answers)[i] != Returned(t.answers)[j]
    ensures forall x :: x in Returned(t.answers) ==> x in t.exited
    ensures forall x :: x in t.exited ==>
      (x in Returned(t.answers) <==> !exists i :: 0 <= i < |t.procs| && t.procs[i].state.Zombie? && t.procs[i].pid == x)
  {
    InitialInv(s);
    RunKeepsInv(s, steps, t);
  }

  // wait answers -1 exactly when its caller has no children, at the call and still when it
  // decides.  This holds of the first process too: orphans can reach it behind its scan,
  // but only while it has another child.
  lemma WaitFails(s: Sys, steps: seq<Step>, t: Sys, p: nat)
    requires Initial(s) && Reaches(s, steps, t) && Enabled(t, Decide(p))
    ensures t.procs[p].pc.found <==> HasChild(t, p)
    ensures t.procs[p].pc.had <==> HasChild(t, p)
    ensures var n := Next(t, Decide(p));
      if HasChild(t, p) then n.answers == t.answers && n.procs[p].pc == Check
      else n.answers == t.answers + [Answer(t.procs[p].pid, None)] && n.procs[p].pc == User
  {
    InitialInv(s);
    RunKeepsInv(s, steps, t);
    assert ScanOk(t, p);
    HasChildIsKid(t, p);
  }

  // It returns a child that has exited as soon as there is one, and sleeps while there is
  // none, and never without a child.
  lemma WaitReturns(s: Sys, steps: seq<Step>, t: Sys, p: nat)
    requires Initial(s) && Reaches(s, steps, t) && Enabled(t, Reap(p))
    ensures HasChild(t, p)
    ensures var n := Next(t, Reap(p));
      if exists c :: ZombieChild(t, c, p) then exists c :: ZombieChild(t, c, p) && Given(t, n, p, c)
      else n == Put(t, p, t.procs[p].(state := Sleeping))
  {
    hide TableOk, LogOk, SleepOk, IsChild, HasChild;
    InitialInv(s);
    RunKeepsInv(s, steps, t);
    assert ScanOk(t, p);
    HasChildIsKid(t, p);
    var r := FirstZombie(t, p, 0);
    if r.Some? {
      ChildIsKid(t, r.value, p);
      assert Given(t, Next(t, Reap(p)), p, r.value);
    }
  }

  // Process p, out of wait, has the pid of c, whose slot is free.
  predicate Given(s: Sys, n: Sys, p: nat, c: nat) {
    && p < |s.procs| == |n.procs| && c < |s.procs| && n.procs[p] == s.procs[p].(pc := User)
    && n.procs[c].state.Unused? && n.answers == s.answers + [Answer(s.procs[p].pid, Some(s.procs[c].pid))]
  }

  // A parent is alive, so the children of an exited process are the first process's.
  lemma ParentsAlive(s: Sys, steps: seq<Step>, t: Sys, i: nat)
    requires Initial(s) && Reaches(s, steps, t) && i < |t.procs| && !t.procs[i].state.Unused? && i != t.init
    ensures t.procs[i].parent.Some? && t.procs[i].parent.value < |t.procs| && Live(t.procs[t.procs[i].parent.value])
  {
    InitialInv(s);
    RunKeepsInv(s, steps, t);
    assert SlotOk(t, i);
  }

  lemma OrphansGoToInit(s: Sys, steps: seq<Step>, t: Sys, p: nat, i: nat)
    requires Initial(s) && Reaches(s, steps, t) && Enabled(t, Exit(p)) && i < |t.procs| && t.procs[i].parent == Some(p)
    ensures Next(t, Exit(p)).procs[i].parent == Some(t.init)
  {
    InitialInv(s);
    RunKeepsInv(s, steps, t);
    ExitIs(t, Exit(p));
    assert ExitedSlot(t, Next(t, Exit(p)), p, i);
  }

  // A process asleep in wait has no zombie child.
  lemma NoZombieMissed(s: Sys, steps: seq<Step>, t: Sys, p: nat, i: nat)
    requires Initial(s) && Reaches(s, steps, t) && p < |t.procs| && t.procs[p].state.Sleeping?
    requires i < |t.procs| && t.procs[i].parent == Some(p)
    ensures !t.procs[i].state.Zombie?
  {
    InitialInv(s);
    RunKeepsInv(s, steps, t);
  }

  // ... but it has a child.
  lemma SleeperHasChild(s: Sys, steps: seq<Step>, t: Sys, p: nat)
    requires Initial(s) && Reaches(s, steps, t) && p < |t.procs| && t.procs[p].state.Sleeping?
    ensures HasChild(t, p)
  {
    InitialInv(s);
    RunKeepsInv(s, steps, t);
    assert ScanOk(t, p);
    HasChildIsKid(t, p);
  }

  // kill gets a process out of its sleep, and does nothing else.
  lemma KilledWakes(s: Sys, p: nat)
    requires Enabled(s, Kill(p))
    ensures Next(s, Kill(p)) == if s.procs[p].state.Sleeping? then Put(s, p, s.procs[p].(state := Alive)) else s
  {
  }

  // No call is held up: a process that is not asleep can take its next step, and any
  // process can be killed.
  lemma CanGoOn(s: Sys, p: nat)
    requires p < |s.procs| && s.procs[p].state.Alive?
    ensures Enabled(s, Kill(p)) && (p == s.init || !s.procs[p].pc.User? || Enabled(s, Exit(p)))
    ensures match s.procs[p].pc
      case User =>
        && Enabled(s, Wait(p))
        && forall c :: 0 <= c < |s.procs| && s.procs[c].state.Unused? ==> Enabled(s, Fork(p, c))
      case Scan(next, _, _) => if next < |s.procs| then Enabled(s, Look(p)) else Enabled(s, Decide(p))
      case Check => Enabled(s, Reap(p))
  {
  }

  // What wait has still to do, at most, before it answers or sleeps.
  function ToDo(s: Sys, p: nat): nat
    requires p < |s.procs|
  {
    match s.procs[p].pc
    case User => 0
    case Scan(next, _, _) => if next < |s.procs| then |s.procs| - next + 2 else 2
    case Check => if s.procs[p].state.Alive? then 1 else 0
  }

  // Each of its own steps gets it further, and no other step sets it back, but that exit or
  // kill may wake it for one more look.
  lemma WaitGetsOn(s: Sys, st: Step, p: nat)
    requires Enabled(s, st) && p < |s.procs| && Live(s.procs[p])
    ensures p < |Next(s, st).procs|
    ensures st.p == p && (st.Look? || st.Decide? || st.Reap?) ==> ToDo(Next(s, st), p) < ToDo(s, p)
    ensures st.p != p && !s.procs[p].state.Sleeping? ==> ToDo(Next(s, st), p) <= ToDo(s, p)
    ensures s.procs[p].state.Sleeping? && s.procs[p].pc.Check? ==> ToDo(Next(s, st), p) <= 1
  {
  }

  // exit wakes the parent, and the first process if it inherits children, and nobody else.
  lemma ExitWakes(s: Sys, p: nat, i: nat)
    requires Enabled(s, Exit(p)) && i < |s.procs| && i != p
    ensures Next(s, Exit(p)).procs[i].state ==
      if s.procs[i].state.Sleeping? &&
         (s.procs[p].parent == Some(i) || (i == s.init && exists k :: 0 <= k < |s.procs| && IsChild(s, k, p)))
      then Alive else s.procs[i].state
  {
  }

  // ---- families ----

  // What fork, exit and wait are for, by pid: who is whose child, who has exited, and the
  // next pid.  The first process, 1, is nobody's child.
  datatype Family = Family(parent: map<nat, nat>, zombies: set<nat>, next: nat)

  datatype Deed = Quiet | Forks(p: nat) | Exits(p: nat) | Waits(p: nat, child: Option<nat>)

  predicate Alone(f: Family, p: nat) {
    forall c :: c in f.parent ==> f.parent[c] != p
  }

  predicate Lives(f: Family, p: nat) {
    (p == 1 || p in f.parent) && p !in f.zombies
  }

  // wait answers -1 only to a process without children, and otherwise names a child that
  // has exited.
  predicate May(f: Family, d: Deed) {
    match d
    case Quiet => true
    case Forks(p) => Lives(f, p)
    case Exits(p) => Lives(f, p) && p != 1
    case Waits(p, None) => Lives(f, p) && Alone(f, p)
    case Waits(p, Some(c)) => Lives(f, p) && c in f.zombies && c in f.parent && f.parent[c] == p
  }

  function Then(f: Family, d: Deed): Family {
    match d
    case Quiet => f
    case Forks(p) => f.(parent := f.parent[f.next := p], next := f.next + 1)
    case Exits(p) =>
      f.(parent := map c | c in f.parent :: if f.parent[c] == p then 1 else f.parent[c], zombies := f.zombies + {p})
    case Waits(_, None) => f
    case Waits(_, Some(c)) => f.(parent := f.parent - {c}, zombies := f.zombies - {c})
  }

  // The deed of a step: fork and exit by what was called, wait by what it answered.
  function DeedOf(s: Sys, st: Step): Deed
    requires Enabled(s, st)
  {
    var n, pid := Next(s, st), s.procs[st.p].pid;
    match st
    case Fork(_, _) => Forks(pid)
    case Exit(_) => Exits(pid)
    case _ => if n.answers == s.answers then Quiet else Waits(pid, n.answers[|n.answers| - 1].child)
  }

  predicate Used(s: Sys, i: nat) {
    i < |s.procs| && !s.procs[i].state.Unused?
  }

  predicate InTable(s: Sys, i: nat, pid: nat) {
    Used(s, i) && s.procs[i].pid == pid
  }

  // The table holds the family.
  ghost predicate IsTable(s: Sys, f: Family) {
    && f.next == s.nextpid && AllEntered(s, f) && ZombiesEntered(s, f) && AllThere(s, f) && ZombiesThere(s, f)
  }

  ghost predicate AllEntered(s: Sys, f: Family) {
    forall i: nat :: Used(s, i) && i != s.init ==> Entered(s, f, i)
  }

  ghost predicate ZombiesEntered(s: Sys, f: Family) {
    forall i: nat :: Used(s, i) ==> (s.procs[i].state.Zombie? <==> s.procs[i].pid in f.zombies)
  }

  ghost predicate AllThere(s: Sys, f: Family) {
    forall x :: x in f.parent ==> exists i: nat :: InTable(s, i, x) && i != s.init
  }

  ghost predicate ZombiesThere(s: Sys, f: Family) {
    forall x :: x in f.zombies ==> exists i: nat :: InTable(s, i, x) && s.procs[i].state.Zombie?
  }

  predicate Entered(s: Sys, f: Family, i: nat) {
    && i < |s.procs| && s.procs[i].parent.Some? && s.procs[i].parent.value < |s.procs|
    && s.procs[i].pid in f.parent && f.parent[s.procs[i].pid] == s.procs[s.procs[i].parent.value].pid
  }

  ghost predicate IsRun(f: Family, deeds: seq<Deed>, g: Family)
    decreases |deeds|
  {
    if deeds == [] then g == f else May(f, deeds[0]) && IsRun(Then(f, deeds[0]), deeds[1..], g)
  }

  ghost function Deeds(s: Sys, steps: seq<Step>): seq<Deed>
    decreases |steps|
  {
    if steps == [] || !Enabled(s, steps[0]) then [] else [DeedOf(s, steps[0])] + Deeds(Next(s, steps[0]), steps[1..])
  }

  lemma SamePid(s: Sys, i: nat, j: nat)
    requires TableOk(s) && Used(s, i) && Used(s, j) && s.procs[i].pid == s.procs[j].pid
    ensures i == j
  {
  }

  // Every process that stays in the table stays in its slot.
  lemma StillThere(s: Sys, n: Sys, f: Family, gone: set<nat>)
    requires AllThere(s, f) && ZombiesThere(s, f) && n.init == s.init
    requires forall i: nat :: Used(s, i) && s.procs[i].pid !in gone ==>
      && Used(n, i) && n.procs[i].pid == s.procs[i].pid
      && (s.procs[i].state.Zombie? ==> n.procs[i].state.Zombie?)
    ensures forall x :: x in f.parent && x !in gone ==> exists i: nat :: InTable(n, i, x) && i != n.init
    ensures forall x :: x in f.zombies && x !in gone ==> exists i: nat :: InTable(n, i, x) && n.procs[i].state.Zombie?
  {
    forall x | x in f.parent && x !in gone ensures exists i: nat :: InTable(n, i, x) && i != n.init {
      var i: nat :| InTable(s, i, x) && i != s.init;
      assert InTable(n, i, x);
    }
    forall x | x in f.zombies && x !in gone ensures exists i: nat :: InTable(n, i, x) && n.procs[i].state.Zombie? {
      var i: nat :| InTable(s, i, x) && s.procs[i].state.Zombie?;
      assert InTable(n, i, x) && n.procs[i].state.Zombie?;
    }
  }

  // A step that changes no slot's place in the family.
  lemma QuietStep(s: Sys, n: Sys, f: Family, p: nat)
    requires IsTable(s, f) && Touched(s, n, p)
    ensures IsTable(n, f)
  {
    forall i: nat ensures Used(n, i) <==> Used(s, i) {}
    forall i: nat | Used(n, i) && i != n.init ensures Entered(n, f, i) { assert Entered(s, f, i); }
    StillThere(s, n, f, {});
  }

  lemma ForkStep(s: Sys, n: Sys, f: Family, p: nat, c: nat)
    requires TableOk(s) && IsTable(s, f) && Forked(s, n, p, c)
    ensures May(f, Forks(s.procs[p].pid)) && IsTable(n, Then(f, Forks(s.procs[p].pid)))
  {
    hide ZombiesEntered, AllEntered, AllThere, ZombiesThere;
    AliveIs(s, f, p);
    ForkEntered(s, n, f, p, c);
    ForkThere(s, n, f, p, c);
  }

  lemma NewPid(s: Sys, i: nat)
    requires TableOk(s) && Used(s, i)
    ensures s.procs[i].pid < s.nextpid
  {
    assert SlotOk(s, i);
  }

  lemma ForkEntered(s: Sys, n: Sys, f: Family, p: nat, c: nat)
    requires TableOk(s) && AllEntered(s, f) && ZombiesEntered(s, f) && ZombiesThere(s, f) && Forked(s, n, p, c)
    requires f.next == s.nextpid
    ensures var g := Then(f, Forks(s.procs[p].pid)); AllEntered(n, g) && ZombiesEntered(n, g)
  {
    var g := Then(f, Forks(s.procs[p].pid));
    UnusedSlot(s, c);
    assert s.init != c;
    assert s.nextpid !in f.zombies by {
      if s.nextpid in f.zombies {
        var k: nat :| InTable(s, k, s.nextpid) && s.procs[k].state.Zombie?;
        NewPid(s, k);
      }
    }
    forall i: nat | Used(n, i) && i != n.init ensures Entered(n, g, i) {
      if i != c {
        assert Entered(s, f, i) && SlotOk(s, i);
        NewPid(s, i);
        assert s.procs[i].parent.value != c;
      }
    }
  }

  lemma ForkThere(s: Sys, n: Sys, f: Family, p: nat, c: nat)
    requires TableOk(s) && AllThere(s, f) && ZombiesThere(s, f) && Forked(s, n, p, c) && f.next == s.nextpid
    ensures var g := Then(f, Forks(s.procs[p].pid)); AllThere(n, g) && ZombiesThere(n, g)
  {
    var g := Then(f, Forks(s.procs[p].pid));
    assert s.init != c;
    StillThere(s, n, f, {});
    assert InTable(n, c, s.nextpid);
    forall x | x in g.parent ensures exists i: nat :: InTable(n, i, x) && i != n.init {
      if x != s.nextpid { assert x in f.parent; }
    }
  }

  // A process that is alive in the table lives in the family.
  lemma AliveIs(s: Sys, f: Family, p: nat)
    requires TableOk(s) && IsTable(s, f) && p < |s.procs| && Live(s.procs[p])
    ensures Lives(f, s.procs[p].pid) && (s.procs[p].pid == 1 <==> p == s.init)
  {
    assert Used(s, p) && Used(s, s.init);
    if p != s.init { assert Entered(s, f, p); }
    if s.procs[p].pid == 1 { SamePid(s, p, s.init); }
  }

  lemma ExitStep(s: Sys, n: Sys, f: Family, p: nat)
    requires TableOk(s) && IsTable(s, f) && Exited(s, n, p)
    ensures May(f, Exits(s.procs[p].pid)) && IsTable(n, Then(f, Exits(s.procs[p].pid)))
  {
    hide ZombiesEntered, AllEntered, AllThere, ZombiesThere, Exited;
    ExitedIs(s, n, p);
    AliveIs(s, f, p);
    ExitEntered(s, n, f, p);
    ExitZombies(s, n, f, p);
    ExitThere(s, n, f, p);
  }

  lemma ExitedIs(s: Sys, n: Sys, p: nat)
    requires Exited(s, n, p)
    ensures p < |s.procs| == |n.procs| && n.nextpid == s.nextpid && n.init == s.init != p && s.procs[p].state.Alive?
    ensures n.procs[p].state.Zombie? && forall i: nat :: Used(n, i) <==> Used(s, i)
    ensures forall i: nat :: Used(s, i) ==> n.procs[i].pid == s.procs[i].pid
    ensures forall i: nat :: Used(s, i) && i != p ==> (n.procs[i].state.Zombie? <==> s.procs[i].state.Zombie?)
  {
    assert ExitedSlot(s, n, p, p);
    forall i: nat
      ensures Used(n, i) <==> Used(s, i)
      ensures Used(s, i) ==> n.procs[i].pid == s.procs[i].pid
      ensures Used(s, i) && i != p ==> (n.procs[i].state.Zombie? <==> s.procs[i].state.Zombie?)
    {
      if i < |s.procs| { assert ExitedSlot(s, n, p, i); }
    }
  }

  lemma ExitEntered(s: Sys, n: Sys, f: Family, p: nat)
    requires TableOk(s) && AllEntered(s, f) && Exited(s, n, p)
    ensures AllEntered(n, Then(f, Exits(s.procs[p].pid)))
  {
    var g := Then(f, Exits(s.procs[p].pid));
    ExitedIs(s, n, p);
    forall i: nat | Used(n, i) && i != n.init ensures Entered(n, g, i) {
      assert Entered(s, f, i) && ExitedSlot(s, n, p, i) && SlotOk(s, i);
      var h := s.procs[i].parent.value;
      if s.procs[h].pid == s.procs[p].pid { SamePid(s, h, p); }
    }
  }

  lemma ExitZombies(s: Sys, n: Sys, f: Family, p: nat)
    requires TableOk(s) && ZombiesEntered(s, f) && Exited(s, n, p)
    ensures ZombiesEntered(n, Then(f, Exits(s.procs[p].pid)))
  {
    hide Exited;
    ExitedIs(s, n, p);
    var g := Then(f, Exits(s.procs[p].pid));
    forall i: nat | Used(n, i) ensures n.procs[i].state.Zombie? <==> n.procs[i].pid in g.zombies {
      if s.procs[i].pid == s.procs[p].pid { SamePid(s, i, p); }
    }
  }

  lemma ExitThere(s: Sys, n: Sys, f: Family, p: nat)
    requires TableOk(s) && AllThere(s, f) && ZombiesThere(s, f) && Exited(s, n, p)
    ensures var g := Then(f, Exits(s.procs[p].pid)); AllThere(n, g) && ZombiesThere(n, g)
  {
    hide Exited;
    ExitedIs(s, n, p);
    var g := Then(f, Exits(s.procs[p].pid));
    StillThere(s, n, f, {});
    assert InTable(n, p, s.procs[p].pid);
    forall x | x in g.zombies ensures exists i: nat :: InTable(n, i, x) && n.procs[i].state.Zombie? {
      if x != s.procs[p].pid { assert x in f.zombies; }
    }
  }

  lemma ReapStep(s: Sys, n: Sys, f: Family, p: nat, c: nat)
    requires TableOk(s) && IsTable(s, f) && Reaped(s, n, p, c)
    ensures var d := Waits(s.procs[p].pid, Some(s.procs[c].pid)); May(f, d) && IsTable(n, Then(f, d))
  {
    hide AllThere, ZombiesThere;
    var g := Then(f, Waits(s.procs[p].pid, Some(s.procs[c].pid)));
    AliveIs(s, f, p);
    assert SlotOk(s, c) && SlotOk(s, s.init);
    assert Used(s, c);
    assert Entered(s, f, c);
    ReapedPids(s, n, p, c);
    forall i: nat | Used(n, i) && i != n.init ensures Entered(n, g, i) { assert Entered(s, f, i) && SlotOk(s, i); }
    ReapThere(s, n, f, p, c);
  }

  lemma ReapedPids(s: Sys, n: Sys, p: nat, c: nat)
    requires TableOk(s) && Reaped(s, n, p, c)
    ensures forall i: nat :: Used(n, i) <==> Used(s, i) && i != c
    ensures forall i: nat :: Used(n, i) ==> n.procs[i].pid == s.procs[i].pid != s.procs[c].pid
  {
    forall i: nat | Used(n, i) ensures n.procs[i].pid == s.procs[i].pid != s.procs[c].pid {
      if s.procs[i].pid == s.procs[c].pid { SamePid(s, i, c); }
    }
  }

  lemma ReapThere(s: Sys, n: Sys, f: Family, p: nat, c: nat)
    requires TableOk(s) && AllThere(s, f) && ZombiesThere(s, f) && Reaped(s, n, p, c)
    ensures var g := Then(f, Waits(s.procs[p].pid, Some(s.procs[c].pid))); AllThere(n, g) && ZombiesThere(n, g)
  {
    ReapedPids(s, n, p, c);
    StillThere(s, n, f, {s.procs[c].pid});
  }

  // wait's -1 goes to a process that has no children in the family either.
  lemma FailStep(s: Sys, f: Family, p: nat)
    requires TableOk(s) && IsTable(s, f) && p < |s.procs| && Live(s.procs[p]) && !HasChild(s, p)
    ensures May(f, Waits(s.procs[p].pid, None))
  {
    AliveIs(s, f, p);
    forall c | c in f.parent ensures f.parent[c] != s.procs[p].pid {
      var i: nat :| InTable(s, i, c) && i != s.init;
      assert Entered(s, f, i);
      assert !IsChild(s, i, p);
    }
  }

  // Every step of the table is a deed of the family, or changes nothing in it.
  lemma StepIsDeed(s: Sys, st: Step, f: Family)
    requires Inv(s) && Enabled(s, st) && IsTable(s, f)
    ensures May(f, DeedOf(s, st)) && IsTable(Next(s, st), Then(f, DeedOf(s, st)))
  {
    hide TableOk, LogOk, SleepOk, IsTable, IsChild, May, ExitSlot;
    var n, p := Next(s, st), st.p;
    match st
    case Fork(_, c) => ForkStep(s, n, f, p, c);
    case Exit(_) =>
      ExitIs(s, st);
      ExitStep(s, n, f, p);
    case Reap(_) =>
      var r := FirstZombie(s, p, 0);
      if r.Some? {
        ChildIsKid(s, r.value, p);
        ReapStep(s, n, f, p, r.value);
      } else {
        Nothing(f);
        QuietStep(s, n, f, p);
      }
    case Decide(_) =>
      Nothing(f);
      QuietStep(s, n, f, p);
      assert ScanOk(s, p);
      HasChildIsKid(s, p);
      if !HasChild(s, p) { FailStep(s, f, p); }
    case _ =>
      Nothing(f);
      QuietStep(s, n, f, p);
  }

  lemma Nothing(f: Family)
    ensures May(f, Quiet)
  {
  }

  lemma {:induction false} RunIsFamilyFrom(s: Sys, steps: seq<Step>, t: Sys, f: Family) returns (g: Family)
    requires Inv(s) && Reaches(s, steps, t) && IsTable(s, f)
    ensures IsRun(f, Deeds(s, steps), g) && IsTable(t, g)
    decreases |steps|
  {
    hide Inv, Enabled, Next, DeedOf, May, Then, IsTable;
    if steps == [] {
      g := f;
    } else {
      StepKeepsInv(s, steps[0]);
      StepIsDeed(s, steps[0], f);
      g := RunIsFamilyFrom(Next(s, steps[0]), steps[1..], t, Then(f, DeedOf(s, steps[0])));
      assert Deeds(s, steps)[1..] == Deeds(Next(s, steps[0]), steps[1..]);
    }
  }

  // Every run of the process table is a run of the family: children go to the process
  // that forked them and to the first process once it has exited, and wait returns each
  // exited child once, to its parent, and -1 to a process that has no child.
  lemma RunIsFamily(s: Sys, steps: seq<Step>, t: Sys)
    requires Initial(s) && Reaches(s, steps, t)
    ensures exists g :: IsRun(Family(map[], {}, 2), Deeds(s, steps), g) && IsTable(t, g)
  {
    InitialInv(s);
    var f := Family(map[], {}, 2);
    assert IsTable(s, f);
    var g := RunIsFamilyFrom(s, steps, t, f);
  }
}
