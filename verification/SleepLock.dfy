/**
 Sleep locks over sleep and wakeup (kernel/sleeplock.c, kernel/proc.c), one step per
 operation on the inner spinlock `lk` or on ptable.lock, with any number of processes.
 */
module SleepLock {
  import opened Prelude

  // Where a process is in acquiresleep, sleep, releasesleep or wakeup.
  datatype Pc =
    | Idle
    | AcqLk       // acquiresleep: about to take lk
    | Test        // lk held, about to look at `locked`
    | SleepAcqPt  // in sleep: about to take ptable.lock
    | SleepRelLk  // about to release lk
    | SleepSet    // about to become SLEEPING and switch away
    | Asleep      // switched away; on the list until made runnable
    | Woken       // running again with ptable.lock
    | Reacq       // about to take lk again
    | Took        // lock taken, about to release lk
    | Holding
    | RelLk       // releasesleep: about to take lk
    | Clear       // lk held, about to clear `locked`
    | WakeAcqPt   // in wakeup: about to take ptable.lock
    | WakeAll     // about to make the sleepers runnable
    | WakeRelPt
    | RelEnd      // about to release lk

  // `asleep` are the processes that are SLEEPING with this lock as channel.
  datatype Sys = Sys(lk: Option<nat>, pt: Option<nat>, locked: bool, pid: Option<nat>,
                     pc: map<nat, Pc>, asleep: set<nat>)

  datatype Call = Acquire | Release

  datatype Step = Start(p: nat, call: Call) | Go(p: nat) | Kill(p: nat)

  predicate Enabled(s: Sys, st: Step) {
    && st.p in s.pc
    && match st
       case Start(p, call) => s.pc[p] == if call == Acquire then Idle else Holding
       case Kill(p) => s.pt == None
       case Go(p) => CanGo(s, p)
  }

  // A spinlock operation waits for the lock; a sleeper waits to be runnable.
  predicate CanGo(s: Sys, p: nat)
    requires p in s.pc
  {
    match s.pc[p]
    case Idle => false
    case Holding => false
    case AcqLk => s.lk == None
    case Reacq => s.lk == None
    case RelLk => s.lk == None
    case SleepAcqPt => s.pt == None
    case WakeAcqPt => s.pt == None
    case Asleep => p !in s.asleep && s.pt == None
    case _ => true
  }

  function At(s: Sys, p: nat, pc: Pc): Sys {
    s.(pc := s.pc[p := pc])
  }

  function Next(s: Sys, st: Step): Sys
    requires Enabled(s, st)
  {
    match st
    case Start(p, call) => At(s, p, if call == Acquire then AcqLk else RelLk)
    case Kill(p) => s.(asleep := s.asleep - {p})
    case Go(p) => Run(s, p)
  }

  function Run(s: Sys, p: nat): Sys
    requires p in s.pc && CanGo(s, p)
  {
    match s.pc[p]
    case AcqLk => At(s, p, Test).(lk := Some(p))
    case Test => if s.locked then At(s, p, SleepAcqPt) else At(s, p, Took).(locked := true, pid := Some(p))
    case SleepAcqPt => At(s, p, SleepRelLk).(pt := Some(p))
    case SleepRelLk => At(s, p, SleepSet).(lk := None)
    case SleepSet => At(s, p, Asleep).(asleep := s.asleep + {p}, pt := None)
    case Asleep => At(s, p, Woken).(pt := Some(p))
    case Woken => At(s, p, Reacq).(pt := None)
    case Reacq => At(s, p, Test).(lk := Some(p))
    case Took => At(s, p, Holding).(lk := None)
    case RelLk => At(s, p, Clear).(lk := Some(p))
    case Clear => At(s, p, WakeAcqPt).(locked := false, pid := None)
    case WakeAcqPt => At(s, p, WakeAll).(pt := Some(p))
    case WakeAll => At(s, p, WakeRelPt).(asleep := {})
    case WakeRelPt => At(s, p, RelEnd).(pt := None)
    case RelEnd => At(s, p, Idle).(lk := None)
    case _ => s
  }

  // ---- what every reachable state satisfies ----

  predicate HoldsLk(pc: Pc) {
    (pc.Test? || pc.SleepAcqPt? || pc.SleepRelLk? || pc.Took? || pc.Clear?
     || pc.WakeAcqPt? || pc.WakeAll? || pc.WakeRelPt? || pc.RelEnd?)
  }

  predicate HoldsPt(pc: Pc) {
    (pc.SleepRelLk? || pc.SleepSet? || pc.Woken? || pc.WakeAll? || pc.WakeRelPt?)
  }

  // The sleep lock is this process's.
  predicate Owns(pc: Pc) {
    (pc.Took? || pc.Holding? || pc.RelLk? || pc.Clear?)
  }

  // The releaser has cleared `locked` and has still to wake the sleepers.
  predicate WakePending(s: Sys) {
    s.lk.Some? && s.lk.value in s.pc && (s.pc[s.lk.value].WakeAcqPt? || s.pc[s.lk.value].WakeAll?)
  }

  // The program counters say who has which spinlock.
  predicate LkOk(s: Sys) {
    (s.lk.Some? ==> s.lk.value in s.pc) && forall p :: p in s.pc ==> (HoldsLk(s.pc[p]) <==> s.lk == Some(p))
  }

  predicate PtOk(s: Sys) {
    (s.pt.Some? ==> s.pt.value in s.pc) && forall p :: p in s.pc ==> (HoldsPt(s.pc[p]) <==> s.pt == Some(p))
  }

  predicate OwnerOk(s: Sys) {
    && (s.locked <==> s.pid.Some?)
    && (s.pid.Some? ==> s.pid.value in s.pc)
    && (forall p :: p in s.pc ==> (Owns(s.pc[p]) <==> s.pid == Some(p)))
  }

  // Whoever sleeps, or is on the way to sleep, will be woken.
  predicate SleepersOk(s: Sys) {
    && (forall p :: p in s.asleep ==> p in s.pc && s.pc[p] == Asleep && (s.locked || WakePending(s)))
    && (forall p :: p in s.pc && s.pc[p] == SleepSet ==> s.locked || WakePending(s))
    && (forall p :: p in s.pc && (s.pc[p].SleepAcqPt? || s.pc[p].SleepRelLk?) ==> s.locked)
  }

  predicate Inv(s: Sys) {
    LkOk(s) && PtOk(s) && OwnerOk(s) && SleepersOk(s)
  }

  predicate Initial(s: Sys) {
    s.lk == None && s.pt == None && !s.locked && s.pid == None && s.asleep == {} && forall p :: p in s.pc ==>
      s.pc[p] == Idle
  }

  lemma StepKeepsInv(s: Sys, st: Step)
    requires Inv(s) && Enabled(s, st)
    ensures Inv(Next(s, st))
  {
    StepKeepsLk(s, st);
    StepKeepsPt(s, st);
    StepKeepsOwner(s, st);
    StepKeepsSleepers(s, st);
  }

  // What a step does to the spinlocks, seen from its own process.
  lemma StepMoves(s: Sys, st: Step)
    requires Enabled(s, st) && (HoldsLk(s.pc[st.p]) <==> s.lk == Some(st.p))
    requires (HoldsPt(s.pc[st.p]) <==> s.pt == Some(st.p))
    ensures var n, p := Next(s, st), st.p;
      && n.pc == s.pc[p := n.pc[p]]
      && (n.lk == s.lk || (s.lk == None && n.lk == Some(p) && !HoldsLk(s.pc[p])) || (n.lk == None && HoldsLk(s.pc[p])))
      && (n.pt == s.pt || (s.pt == None && n.pt == Some(p) && !HoldsPt(s.pc[p])) || (n.pt == None && HoldsPt(s.pc[p])))
      && (HoldsLk(n.pc[p]) <==> if n.lk == s.lk then HoldsLk(s.pc[p]) else n.lk == Some(p))
      && (HoldsPt(n.pc[p]) <==> if n.pt == s.pt then HoldsPt(s.pc[p]) else n.pt == Some(p))
  {
  }

  lemma StepKeepsLk(s: Sys, st: Step)
    requires LkOk(s) && PtOk(s) && Enabled(s, st)
    ensures LkOk(Next(s, st))
  {
    hide Next, CanGo;
    var n := Next(s, st);
    StepMoves(s, st);
    forall q | q in n.pc ensures HoldsLk(n.pc[q]) <==> n.lk == Some(q) {
      assert q != st.p ==> n.pc[q] == s.pc[q];
    }
  }

  lemma StepKeepsPt(s: Sys, st: Step)
    requires LkOk(s) && PtOk(s) && Enabled(s, st)
    ensures PtOk(Next(s, st))
  {
    hide Next, CanGo;
    var n := Next(s, st);
    StepMoves(s, st);
    forall q | q in n.pc ensures HoldsPt(n.pc[q]) <==> n.pt == Some(q) {
      assert q != st.p ==> n.pc[q] == s.pc[q];
    }
  }

  lemma StepKeepsOwner(s: Sys, st: Step)
    requires Inv(s) && Enabled(s, st)
    ensures OwnerOk(Next(s, st))
  {
    var n := Next(s, st);
    forall q | q in n.pc ensures Owns(n.pc[q]) <==> n.pid == Some(q) {
      assert q != st.p ==> n.pc[q] == s.pc[q];
    }
  }

  lemma StepKeepsSleepers(s: Sys, st: Step)
    requires Inv(s) && Enabled(s, st)
    ensures SleepersOk(Next(s, st))
  {
    hide Next, OwnerOk, WakePending;
    StepMovesFor(s, st);
    StepSleeps(s, st);
    if (s.locked || WakePending(s)) && !Waking(s, st) { PromiseKept(s, st); }
  }

  // The step that makes the sleepers runnable.
  predicate Waking(s: Sys, st: Step)
    requires st.p in s.pc
  {
    st.Go? && s.pc[st.p].WakeAll?
  }

  lemma StepMovesFor(s: Sys, st: Step)
    requires LkOk(s) && PtOk(s) && Enabled(s, st)
    ensures st.p in Next(s, st).pc && Next(s, st).pc == s.pc[st.p := Next(s, st).pc[st.p]]
  {
    hide Next;
    StepMoves(s, st);
  }

  // What a step does to the sleepers and those on the way to sleep.
  lemma StepSleeps(s: Sys, st: Step)
    requires Enabled(s, st) && (st.p in s.asleep ==> s.pc[st.p].Asleep?)
    ensures var n, p := Next(s, st), st.p;
      && n.asleep <= s.asleep + (if s.pc[p].SleepSet? && st.Go? then {p} else {})
      && (Waking(s, st) ==> n.asleep == {}) && p in n.pc
      && (p in n.asleep ==> n.pc[p].Asleep?)
      && (n.pc[p].SleepSet? ==> s.pc[p].SleepRelLk? || s.pc[p].SleepSet?)
      && (n.pc[p].SleepAcqPt? || n.pc[p].SleepRelLk? ==> n.locked == s.locked)
      && (n.pc[p].SleepAcqPt? ==>
            s.locked || s.pc[p].SleepAcqPt?) && (n.pc[p].SleepRelLk? ==> s.pc[p].SleepAcqPt? || s.pc[p].SleepRelLk?)
      && (s.locked && !n.locked ==> s.pc[p].Clear?)
  {
  }

  // The promise to the sleepers holds until it is carried out.
  lemma PromiseKept(s: Sys, st: Step)
    requires LkOk(s) && Enabled(s, st) && (s.locked || WakePending(s)) && !Waking(s, st)
    ensures Next(s, st).locked || WakePending(Next(s, st))
  {
  }

  // ---- whole runs ----

  ghost predicate Reaches(s: Sys, steps: seq<Step>, t: Sys)
    decreases |steps|
  {
    if steps == [] then t == s else Enabled(s, steps[0]) && Reaches(Next(s, steps[0]), steps[1..], t)
  }

  lemma {:induction false} RunKeepsInv(s: Sys, steps: seq<Step>, t: Sys)
    requires Inv(s) && Reaches(s, steps, t)
    ensures Inv(t)
    decreases |steps|
  {
    hide Inv, Next, Enabled;
    if steps != [] {
      StepKeepsInv(s, steps[0]);
      RunKeepsInv(Next(s, steps[0]), steps[1..], t);
    }
  }

  // At most one process holds the sleep lock, in every interleaving.
  lemma MutualExclusion(s: Sys, steps: seq<Step>, t: Sys, p: nat, q: nat)
    requires Initial(s) && Reaches(s, steps, t) && p in t.pc && q in t.pc && Owns(t.pc[p]) && Owns(t.pc[q])
    ensures p == q
  {
    RunKeepsInv(s, steps, t);
  }

  // No wakeup is lost: a sleeper means the lock is held or its release is not done.
  lemma NoLostWakeup(s: Sys, steps: seq<Step>, t: Sys, p: nat)
    requires Initial(s) && Reaches(s, steps, t) && p in t.asleep
    ensures t.locked || (t.lk.Some? && t.lk.value in t.pc && (t.pc[t.lk.value].WakeAcqPt? || t.pc[t.lk.value].WakeAll?))
  {
    RunKeepsInv(s, steps, t);
  }

  // ---- calls ----

  // The last call that process p has made in a run.
  function LastCall(steps: seq<Step>, p: nat): Option<Call> {
    if steps == [] then None
    else
      var st := steps[|steps| - 1];
      if st.Start? && st.p == p then Some(st.call) else LastCall(steps[..|steps| - 1], p)
  }

  predicate InCall(pc: Pc) {
    pc != Idle && pc != Holding
  }

  predicate Releasing(pc: Pc) {
    pc.RelLk? || pc.Clear? || pc.WakeAcqPt? || pc.WakeAll? || pc.WakeRelPt? || pc.RelEnd?
  }

  // Where a process can be whose last call was this one.
  predicate Tracks(pc: Pc, last: Option<Call>) {
    match last
    case None => pc == Idle
    case Some(Acquire) => pc != Idle && !Releasing(pc)
    case Some(Release) => pc == Idle || Releasing(pc)
  }

  lemma StepTracks(s: Sys, st: Step, p: nat, last: Option<Call>)
    requires Enabled(s, st) && p in s.pc && Tracks(s.pc[p], last)
    ensures p in Next(s, st).pc && Tracks(Next(s, st).pc[p], if st.Start? && st.p == p then Some(st.call) else last)
  {
  }

  lemma {:induction false} LastStep(s: Sys, steps: seq<Step>, t: Sys) returns (u: Sys)
    requires steps != [] && Reaches(s, steps, t)
    ensures Reaches(s, steps[..|steps| - 1], u) && Enabled(u, steps[|steps| - 1]) && Next(u, steps[|steps| - 1]) == t
    decreases |steps|
  {
    hide Enabled, Next;
    if |steps| == 1 {
      u := s;
    } else {
      u := LastStep(Next(s, steps[0]), steps[1..], t);
      assert steps[1..][..|steps| - 2] == steps[..|steps| - 1][1..];
    }
  }

  lemma {:induction false} RunTracks(s: Sys, steps: seq<Step>, t: Sys, p: nat)
    requires Initial(s) && Reaches(s, steps, t) && p in t.pc
    ensures Tracks(t.pc[p], LastCall(steps, p))
    decreases |steps|
  {
    hide Next, Tracks;
    if steps != [] {
      var u := LastStep(s, steps, t);
      SameProcesses(u, steps[|steps| - 1]);
      RunTracks(s, steps[..|steps| - 1], u, p);
      StepTracks(u, steps[|steps| - 1], p, LastCall(steps[..|steps| - 1], p));
    } else {
      NeverCalled(s, p);
    }
  }

  lemma NeverCalled(s: Sys, p: nat)
    requires Initial(s) && p in s.pc
    ensures Tracks(s.pc[p], None)
  {
  }

  lemma SameProcesses(s: Sys, st: Step)
    requires Enabled(s, st)
    ensures Next(s, st).pc.Keys == s.pc.Keys
  {
  }

  // A process that is in neither call holds the lock exactly if its last call was
  // acquiresleep: that call ends only with the lock, and releasesleep only without it.
  lemma CallsEnd(s: Sys, steps: seq<Step>, t: Sys, p: nat)
    requires Initial(s) && Reaches(s, steps, t) && p in t.pc && !InCall(t.pc[p])
    ensures t.pc[p] == Holding <==> LastCall(steps, p) == Some(Acquire)
    ensures LastCall(steps, p) == Some(Acquire) <==> t.locked && t.pid == Some(p)
    ensures t.lk != Some(p) && t.pt != Some(p)
  {
    RunKeepsInv(s, steps, t);
    RunTracks(s, steps, t, p);
  }

  // kill gets a process out of its sleep.
  lemma KilledWakes(s: Sys, p: nat)
    requires Enabled(s, Kill(p)) && s.pc[p] == Asleep
    ensures var n := Next(s, Kill(p)); CanGo(n, p) && n == s.(asleep := s.asleep - {p})
  {
  }

  // ---- calls left alone ----

  // How many steps a process has before it, at most, until it is out of its call or asleep;
  // a releaser has those of all it will wake before it too.
  function Rank(s: Sys, p: nat): nat
    requires p in s.pc
  {
    match s.pc[p]
    case Idle => 0
    case Holding => 0
    case AcqLk => 6
    case Test => 5
    case SleepAcqPt => 4
    case SleepRelLk => 3
    case SleepSet => 2
    case Asleep => if p in s.asleep then 0 else 8
    case Woken => 7
    case Reacq => 6
    case Took => 1
    case RelLk => 9 * |s.pc| + 6
    case Clear => 9 * |s.pc| + 5
    case WakeAcqPt => 9 * |s.pc| + 4
    case WakeAll => 9 * |s.pc| + 3
    case WakeRelPt => 2
    case RelEnd => 1
  }

  ghost function Total(s: Sys, ps: set<nat>): nat
    requires ps <= s.pc.Keys
  {
    if ps == {} then 0
    else
      var p :| p in ps;
      Rank(s, p) + Total(s, ps - {p})
  }

  lemma {:induction false} TotalWith(s: Sys, ps: set<nat>, p: nat)
    requires ps <= s.pc.Keys && p in ps
    ensures Total(s, ps) == Rank(s, p) + Total(s, ps - {p})
    decreases ps
  {
    hide Rank;
    var q :| q in ps && Total(s, ps) == Rank(s, q) + Total(s, ps - {q});
    if q != p {
      TotalWith(s, ps - {q}, p);
      TotalWith(s, ps - {p}, q);
      assert ps - {q} - {p} == ps - {p} - {q};
    }
  }

  lemma {:induction false} TotalBelow(s: Sys, n: Sys, ps: set<nat>, k: nat)
    requires ps <= s.pc.Keys && ps <= n.pc.Keys && forall p :: p in ps ==> Rank(n, p) <= Rank(s, p) + k
    ensures Total(n, ps) <= Total(s, ps) + k * |ps|
    decreases ps
  {
    hide Rank, Total;
    if ps == {} {
      TotalNone(n);
    } else {
      var p :| p in ps;
      TotalWith(s, ps, p);
      TotalWith(n, ps, p);
      TotalBelow(s, n, ps - {p}, k);
      Times(k, |ps - {p}|);
    }
  }

  lemma TotalNone(s: Sys)
    ensures Total(s, {}) == 0
  {
  }

  lemma Times(k: nat, m: nat)
    ensures k * (m + 1) == k * m + k
  {
  }

  // What a step does to the ranks: its own process comes nearer, and only the wakeup sends
  // others back.
  lemma RankFalls(s: Sys, p: nat)
    requires p in s.pc && CanGo(s, p)
    ensures var n := Run(s, p);
      && n.pc.Keys == s.pc.Keys && |n.pc| == |s.pc|
      && Rank(n, p) + (if s.pc[p].WakeAll? then 9 * |s.pc| else 0) < Rank(s, p)
  {
    var n := Run(s, p);
    assert n.pc.Keys == s.pc.Keys;
    assert |n.pc| == |n.pc.Keys| == |s.pc.Keys| == |s.pc|;
  }

  lemma OthersStay(s: Sys, p: nat, q: nat)
    requires p in s.pc && CanGo(s, p) && q in s.pc && q != p && Run(s, p).pc.Keys == s.pc.Keys
    requires |Run(s, p).pc| == |s.pc|
    ensures Rank(Run(s, p), q) <= Rank(s, q) + (if s.pc[p].WakeAll? then 8 else 0)
  {
    hide Run, CanGo;
    OnlyWakeup(s, p, q);
  }

  lemma OnlyWakeup(s: Sys, p: nat, q: nat)
    requires p in s.pc && CanGo(s, p) && q in s.pc && q != p
    ensures q in Run(s, p).pc && Run(s, p).pc[q] == s.pc[q]
    ensures q in s.asleep && !s.pc[p].WakeAll? ==> q in Run(s, p).asleep
  {
  }

  lemma StepLowers(s: Sys, p: nat)
    requires p in s.pc && CanGo(s, p)
    ensures Run(s, p).pc.Keys == s.pc.Keys && Total(Run(s, p), s.pc.Keys) < Total(s, s.pc.Keys)
  {
    hide Run, Rank, CanGo;
    RankFalls(s, p);
    var n, ps := Run(s, p), s.pc.Keys - {p};
    forall q | q in ps ensures Rank(n, q) <= Rank(s, q) + (if s.pc[p].WakeAll? then 8 else 0) { OthersStay(s, p, q); }
    TotalWith(s, s.pc.Keys, p);
    TotalWith(n, s.pc.Keys, p);
    TotalBelow(s, n, ps, if s.pc[p].WakeAll? then 8 else 0);
    assert |ps| < |s.pc.Keys| == |s.pc|;
  }

  ghost predicate OnlyGo(steps: seq<Step>) {
    forall i :: 0 <= i < |steps| ==> steps[i].Go?
  }

  // Calls that are under way take only so many steps, in any order.
  lemma {:induction false} RunsOut(s: Sys, steps: seq<Step>, t: Sys)
    requires Inv(s) && Reaches(s, steps, t) && OnlyGo(steps)
    ensures |steps| <= Total(s, s.pc.Keys)
    decreases |steps|
  {
    hide Inv, Run, Total, CanGo;
    if steps != [] {
      StepKeepsInv(s, steps[0]);
      StepLowers(s, steps[0].p);
      RunsOut(Next(s, steps[0]), steps[1..], t);
    }
  }

  // Nor can the processes block one another: when none can take a step of its call, the
  // spinlocks are free and every process is out of its call or asleep, and asleep only
  // while another holds the lock.
  lemma NoDeadlock(s: Sys, steps: seq<Step>, t: Sys)
    requires Initial(s) && Reaches(s, steps, t) && forall q :: q in t.pc ==> !CanGo(t, q)
    ensures t.lk == None && t.pt == None
    ensures forall p :: p in t.pc ==> !InCall(t.pc[p]) || p in t.asleep
    ensures t.asleep != {} ==> t.locked && t.pid.Some? && t.pid.value in t.pc && t.pc[t.pid.value] == Holding
  {
    RunKeepsInv(s, steps, t);
    assert t.pt == None by { if t.pt.Some? { assert CanGo(t, t.pt.value); } }
    assert t.lk == None by { if t.lk.Some? { assert CanGo(t, t.lk.value); } }
    forall p | p in t.pc ensures !InCall(t.pc[p]) || p in t.asleep {
      assert !CanGo(t, p);
    }
    if p :| p in t.asleep {
      assert t.locked;
      assert !CanGo(t, t.pid.value);
    }
  }

  // So every acquiresleep left alone ends with the lock, or asleep behind its holder: any
  // run of the calls under way comes to such an end within the given number of steps.
  lemma LeftAlone(s: Sys, steps: seq<Step>, t: Sys, more: seq<Step>, u: Sys)
    requires Initial(s) && Reaches(s, steps, t) && Reaches(t, more, u) && OnlyGo(more)
    ensures |more| <= Total(t, t.pc.Keys)
    ensures |more| == Total(t, t.pc.Keys) ==> forall q :: q in u.pc ==> !CanGo(u, q)
  {
    hide Next, Total, CanGo, Inv;
    RunKeepsInv(s, steps, t) by { InitialInv(s); }
    RunsOut(t, more, u);
    forall q | q in u.pc && |more| == Total(t, t.pc.Keys) ensures !CanGo(u, q) {
      if CanGo(u, q) {
        OneMore(t, more, u, q);
        RunsOut(t, more + [Go(q)], Run(u, q));
      }
    }
  }

  lemma InitialInv(s: Sys)
    requires Initial(s)
    ensures Inv(s)
  {
  }

  lemma {:induction false} OneMore(s: Sys, steps: seq<Step>, t: Sys, q: nat)
    requires Reaches(s, steps, t) && q in t.pc && CanGo(t, q)
    ensures Reaches(s, steps + [Go(q)], Run(t, q))
    decreases |steps|
  {
    hide CanGo, Run;
    if steps == [] {
      assert steps + [Go(q)] == [Go(q)];
      assert Reaches(Next(s, Go(q)), [Go(q)][1..], Run(t, q));
    } else {
      OneMore(Next(s, steps[0]), steps[1..], t, q);
      assert (steps + [Go(q)])[1..] == steps[1..] + [Go(q)];
    }
  }

  // A free lock is taken by the process that asks for it.
  lemma FreeLockTaken(s: Sys, p: nat)
    requires p in s.pc && s.pc[p] == Idle && !s.locked && s.lk == None
    ensures exists t :: Reaches(s, [Start(p, Acquire)] + [Go(p)] + [Go(p)] + [Go(p)], t) && Has(t, p)
  {
    var a := Next(s, Start(p, Acquire));
    assert Reaches(Next(s, Start(p, Acquire)), [Start(p, Acquire)][1..], a);
    OneMore(s, [Start(p, Acquire)], a, p);
    OneMore(s, [Start(p, Acquire)] + [Go(p)], Run(a, p), p);
    OneMore(s, [Start(p, Acquire)] + [Go(p)] + [Go(p)], Run(Run(a, p), p), p);
    assert Has(Run(Run(Run(a, p), p), p), p);
  }

  predicate Has(s: Sys, p: nat) {
    p in s.pc && s.pc[p] == Holding && s.locked && s.pid == Some(p)
  }
}
