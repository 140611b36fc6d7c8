/**
 sleep and wakeup under a spinlock (kernel/proc.c), step by step on the two locks, refine
 the simple reading in which sleep lets go of the lock and sleeps at once and wakeup
 wakes at once.  The shared data may be anything that is touched only under the lock.
 */
module SleepWakeup {
  import opened Prelude

  // ---- the simple reading ----

  datatype Place = Outside | Wanting | Inside | Waiting

  // `asleep` gives the channel of each process that sleeps.
  datatype Simple<T> = Simple(lk: Option<nat>, place: map<nat, Place>, asleep: map<nat, nat>, shared: T)

  datatype Act<T> =
    | Ask(p: nat)
    | Enter(p: nat)            // acquire, from outside or after a wakeup
    | Leave(p: nat)
    | Work(p: nat, x: T)
    | Sleep(p: nat, chan: nat)
    | Wake(p: nat, chan: nat)
    | Kill(p: nat)

  predicate May<T>(s: Simple<T>, a: Act<T>) {
    && a.p in s.place
    && match a
       case Ask(p) => s.place[p].Outside?
       case Enter(p) => s.lk == None && (s.place[p].Wanting? || (s.place[p].Waiting? && p !in s.asleep))
       case Kill(p) => true
       case _ => s.lk == Some(a.p) && s.place[a.p].Inside?
  }

  // The sleepers left when a channel is woken.
  function Others(asleep: map<nat, nat>, chan: nat): map<nat, nat> {
    map p | p in asleep && asleep[p] != chan :: asleep[p]
  }

  function Do<T>(s: Simple<T>, a: Act<T>): Simple<T>
    requires May(s, a)
  {
    match a
    case Ask(p) => s.(place := s.place[p := Wanting])
    case Enter(p) => s.(lk := Some(p), place := s.place[p := Inside])
    case Leave(p) => s.(lk := None, place := s.place[p := Outside])
    case Work(p, x) => s.(shared := x)
    case Sleep(p, chan) => s.(lk := None, place := s.place[p := Waiting], asleep := s.asleep[p := chan])
    case Wake(p, chan) => s.(asleep := Others(s.asleep, chan))
    case Kill(p) => s.(asleep := s.asleep - {p})
  }

  // ---- kernel/proc.c ----

  datatype Pc =
    | Out
    | Want
    | In
    | SleepAcq(chan: nat)   // sleep: about to take ptable.lock
    | SleepRel(chan: nat)   // about to release the caller's lock
    | SleepSet(chan: nat)   // about to become SLEEPING and switch away
    | Asleep
    | Woken                 // running again, with ptable.lock
    | Reacq                 // about to take the caller's lock again
    | WakeAcq(chan: nat)    // wakeup: about to take ptable.lock
    | WakeAll(chan: nat)
    | WakeRel

  datatype Sys<T> = Sys(lk: Option<nat>, pt: Option<nat>, pc: map<nat, Pc>, asleep: map<nat, nat>, shared: T)

  datatype Step<T> =
    | Request(p: nat)
    | Release(p: nat)
    | Update(p: nat, x: T)
    | CallSleep(p: nat, chan: nat)
    | CallWakeup(p: nat, chan: nat)
    | Go(p: nat)
    | Shoot(p: nat)           // kill

  predicate Enabled<T>(s: Sys<T>, st: Step<T>) {
    && st.p in s.pc
    && match st
       case Request(p) => s.pc[p].Out?
       case Shoot(_) => s.pt == None
       case Go(p) =>
         (match s.pc[p]
          case Out => false
          case In => false
          case Want => s.lk == None
          case Reacq => s.lk == None
          case SleepAcq(_) => s.pt == None
          case WakeAcq(_) => s.pt == None
          case Asleep => s.pt == None && p !in s.asleep
          case _ => true)
       case _ => s.pc[st.p].In?
  }

  function At<T>(s: Sys<T>, p: nat, pc: Pc): Sys<T> {
    s.(pc := s.pc[p := pc])
  }

  function Next<T>(s: Sys<T>, st: Step<T>): Sys<T>
    requires Enabled(s, st)
  {
    match st
    case Request(p) => At(s, p, Want)
    case Release(p) => At(s, p, Out).(lk := None)
    case Update(p, x) => s.(shared := x)
    case CallSleep(p, chan) => At(s, p, SleepAcq(chan))
    case CallWakeup(p, chan) => At(s, p, WakeAcq(chan))
    case Shoot(p) => s.(asleep := s.asleep - {p})
    case Go(p) =>
      match s.pc[p]
      case Want => At(s, p, In).(lk := Some(p))
      case Reacq => At(s, p, In).(lk := Some(p))
      case SleepAcq(chan) => At(s, p, SleepRel(chan)).(pt := Some(p))
      case SleepRel(chan) => At(s, p, SleepSet(chan)).(lk := None)
      case SleepSet(chan) => At(s, p, Asleep).(asleep := s.asleep[p := chan], pt := None)
      case Asleep => At(s, p, Woken).(pt := Some(p))
      case Woken => At(s, p, Reacq).(pt := None)
      case WakeAcq(chan) => At(s, p, WakeAll(chan)).(pt := Some(p))
      case WakeAll(chan) => At(s, p, WakeRel).(asleep := Others(s.asleep, chan))
      case WakeRel => At(s, p, In).(pt := None)
      case _ => s
  }

  // ---- what ties the two ----

  predicate HoldsLk(pc: Pc) {
    pc.In? || pc.SleepAcq? || pc.SleepRel? || pc.WakeAcq? || pc.WakeAll? || pc.WakeRel?
  }

  predicate HoldsPt(pc: Pc) {
    pc.SleepRel? || pc.SleepSet? || pc.Woken? || pc.WakeAll? || pc.WakeRel?
  }

  predicate Inv<T>(s: Sys<T>) {
    && (forall p :: p in s.pc ==> (HoldsLk(s.pc[p]) <==> s.lk == Some(p)))
    && (forall p :: p in s.pc ==> (HoldsPt(s.pc[p]) <==> s.pt == Some(p)))
    && (forall p :: p in s.asleep ==> p in s.pc && s.pc[p].Asleep?)
    && (s.pt.Some? ==> s.pt.value in s.pc)
  }

  function PlaceOf(pc: Pc): Place {
    if pc.Out? then Outside else if pc.Want? then Wanting else if HoldsLk(pc) then Inside else Waiting
  }

  // A process that has let go of the lock on its way to sleep counts as asleep.
  function Sleepers(pc: map<nat, Pc>, asleep: map<nat, nat>): map<nat, nat> {
    map p | p in pc && (p in asleep || pc[p].SleepSet?) :: if pc[p].SleepSet? then pc[p].chan else asleep[p]
  }

  function Abstract<T>(s: Sys<T>): Simple<T> {
    Simple(s.lk, Places(s.pc), Sleepers(s.pc, s.asleep), s.shared)
  }

  function Places(pc: map<nat, Pc>): map<nat, Place> {
    map p | p in pc :: PlaceOf(pc[p])
  }

  // What the simple reading does at this step: one action, or nothing.
  function ActOf<T>(s: Sys<T>, st: Step<T>): seq<Act<T>>
    requires Enabled(s, st)
  {
    match st
    case Request(p) => [Ask(p)]
    case Release(p) => [Leave(p)]
    case Update(p, x) => [Work(p, x)]
    case CallSleep(_, _) => []
    case CallWakeup(_, _) => []
    case Shoot(p) => [Kill(p)]
    case Go(p) =>
      match s.pc[p]
      case Want => [Enter(p)]
      case Reacq => [Enter(p)]
      case SleepRel(chan) => [Sleep(p, chan)]
      case WakeAll(chan) => [Wake(p, chan)]
      case _ => []
  }

  lemma StepKeepsInv<T>(s: Sys<T>, st: Step<T>)
    requires Inv(s) && Enabled(s, st)
    ensures Inv(Next(s, st))
  {
    var n := Next(s, st);
    forall q | q in n.pc ensures (HoldsLk(n.pc[q]) <==> n.lk == Some(q)) && (HoldsPt(n.pc[q]) <==> n.pt == Some(q)) {
      assert q != st.p ==> n.pc[q] == s.pc[q];
    }
  }

  lemma PlacesAt(pc: map<nat, Pc>, p: nat, c: Pc)
    requires p in pc
    ensures p in Places(pc) && Places(pc[p := c]) == Places(pc)[p := PlaceOf(c)] && Places(pc)[p] == PlaceOf(pc[p])
    ensures PlaceOf(c) == PlaceOf(pc[p]) ==> Places(pc[p := c]) == Places(pc)
  {
  }

  lemma SleepersMove(pc: map<nat, Pc>, asleep: map<nat, nat>, p: nat, c: Pc)
    requires p in pc && !pc[p].SleepSet? && !c.SleepSet?
    ensures Sleepers(pc[p := c], asleep) == Sleepers(pc, asleep) && (p in Sleepers(pc, asleep) <==> p in asleep)
  {
  }

  // Letting go of the lock, and then becoming SLEEPING.
  lemma SleepersSet(pc: map<nat, Pc>, asleep: map<nat, nat>, p: nat, chan: nat)
    requires p in pc && p !in asleep
    ensures Sleepers(pc[p := SleepSet(chan)], asleep) == Sleepers(pc, asleep)[p := chan]
    ensures pc[p] == SleepSet(chan) ==> Sleepers(pc[p := Asleep], asleep[p := chan]) == Sleepers(pc, asleep)
  {
  }

  // With nobody half-way to sleep, those SLEEPING are all the sleepers.
  lemma SleepersAll(pc: map<nat, Pc>, asleep: map<nat, nat>)
    requires asleep.Keys <= pc.Keys && forall q :: q in pc ==> !pc[q].SleepSet?
    ensures Sleepers(pc, asleep) == asleep
  {
  }

  // While another has ptable.lock, or nobody, no process is half-way to sleep.
  lemma NobodyHalfway<T>(s: Sys<T>)
    requires Inv(s) && (s.pt.None? || (s.pt.value in s.pc && !s.pc[s.pt.value].SleepSet?))
    ensures s.asleep.Keys <= s.pc.Keys && forall q :: q in s.pc ==> !s.pc[q].SleepSet?
  {
  }

  lemma GoRefines<T>(s: Sys<T>, p: nat)
    requires Inv(s) && Enabled(s, Go(p))
    ensures var acts := ActOf(s, Go(p));
      if acts == [] then Abstract(Next(s, Go(p))) == Abstract(s)
      else May(Abstract(s), acts[0]) && Abstract(Next(s, Go(p))) == Do(Abstract(s), acts[0])
  {
    hide Places, Sleepers, Others;
    var n := Next(s, Go(p));
    PlacesAt(s.pc, p, n.pc[p]);
    if s.pc[p].SleepRel? || s.pc[p].SleepSet? {
      SleepersSet(s.pc, s.asleep, p, s.pc[p].chan);
    } else if s.pc[p].WakeAll? {
      NobodyHalfway(s);
      SleepersAll(s.pc, s.asleep);
      SleepersLeft(s.pc, s.asleep, p, s.pc[p].chan);
    } else {
      SleepersMove(s.pc, s.asleep, p, n.pc[p]);
    }
  }

  lemma SleepersLeft(pc: map<nat, Pc>, asleep: map<nat, nat>, p: nat, chan: nat)
    requires p in pc && asleep.Keys <= pc.Keys && forall q :: q in pc ==> !pc[q].SleepSet?
    ensures Sleepers(pc[p := WakeRel], Others(asleep, chan)) == Others(asleep, chan)
  {
    SleepersAll(pc[p := WakeRel], Others(asleep, chan));
  }

  // Every step is one action of the simple reading, or invisible to it.
  lemma StepRefines<T>(s: Sys<T>, st: Step<T>)
    requires Inv(s) && Enabled(s, st)
    ensures var acts := ActOf(s, st);
      if acts == [] then Abstract(Next(s, st)) == Abstract(s)
      else May(Abstract(s), acts[0]) && Abstract(Next(s, st)) == Do(Abstract(s), acts[0])
  {
    if st.Go? {
      GoRefines(s, st.p);
    } else if st.Shoot? {
      hide Places, Sleepers;
      NobodyHalfway(s);
      SleepersAll(s.pc, s.asleep);
      SleepersAll(s.pc, s.asleep - {st.p});
      PlacesAt(s.pc, st.p, s.pc[st.p]);
    } else {
      CallRefines(s, st);
    }
  }

  lemma CallRefines<T>(s: Sys<T>, st: Step<T>)
    requires Inv(s) && Enabled(s, st) && !st.Go? && !st.Shoot?
    ensures var acts := ActOf(s, st);
      if acts == [] then Abstract(Next(s, st)) == Abstract(s)
      else May(Abstract(s), acts[0]) && Abstract(Next(s, st)) == Do(Abstract(s), acts[0])
  {
    hide Places, Sleepers, Others;
    var n := Next(s, st);
    PlacesAt(s.pc, st.p, n.pc[st.p]);
    SleepersMove(s.pc, s.asleep, st.p, n.pc[st.p]);
  }

  // ---- whole runs ----

  ghost predicate Reaches<T(!new)>(s: Sys<T>, steps: seq<Step<T>>, t: Sys<T>)
    decreases |steps|
  {
    if steps == [] then t == s else Enabled(s, steps[0]) && Reaches(Next(s, steps[0]), steps[1..], t)
  }

  ghost predicate SimplyReaches<T(!new)>(s: Simple<T>, acts: seq<Act<T>>, t: Simple<T>)
    decreases |acts|
  {
    if acts == [] then t == s else May(s, acts[0]) && SimplyReaches(Do(s, acts[0]), acts[1..], t)
  }

  // ---- who asked for what ----

  // What process p has called, and what of it the simple reading has done.
  function Called<T>(steps: seq<Step<T>>, p: nat): seq<Act<T>> {
    if steps == [] then [] else CallOf(steps[0], p) + Called(steps[1..], p)
  }

  function CallOf<T>(st: Step<T>, p: nat): seq<Act<T>> {
    if st.p != p then []
    else
      match st
      case Request(_) => [Ask(p)]
      case Release(_) => [Leave(p)]
      case Update(_, x) => [Work(p, x)]
      case CallSleep(_, chan) => [Sleep(p, chan)]
      case CallWakeup(_, chan) => [Wake(p, chan)]
      case _ => []
  }

  function Done<T>(acts: seq<Act<T>>, p: nat): seq<Act<T>> {
    if acts == [] then []
    else (if acts[0].p == p && !acts[0].Enter? && !acts[0].Kill? then [acts[0]] else []) + Done(acts[1..], p)
  }

  // The call that p is in and that has not had its effect yet.
  function Pending<T>(pc: Pc, p: nat): seq<Act<T>> {
    match pc
    case SleepAcq(chan) => [Sleep(p, chan)]
    case SleepRel(chan) => [Sleep(p, chan)]
    case WakeAcq(chan) => [Wake(p, chan)]
    case WakeAll(chan) => [Wake(p, chan)]
    case _ => []
  }

  lemma StepInOrder<T>(s: Sys<T>, st: Step<T>, p: nat)
    requires Enabled(s, st) && p in s.pc
    ensures p in Next(s, st).pc
    ensures Pending(s.pc[p], p) + CallOf(st, p) == Done(ActOf(s, st), p) + Pending(Next(s, st).pc[p], p)
  {
    DoneOne(ActOf(s, st), p);
    if st.p != p { OtherPlace(s, st, p); } else { OwnInOrder(s, st); }
  }

  lemma DoneOne<T>(acts: seq<Act<T>>, p: nat)
    requires |acts| <= 1
    ensures Done(acts, p) == if acts != [] && acts[0].p == p && !acts[0].Enter? && !acts[0].Kill? then acts else []
  {
    if acts != [] { assert acts[1..] == []; }
  }

  lemma OtherPlace<T>(s: Sys<T>, st: Step<T>, p: nat)
    requires Enabled(s, st) && p in s.pc && p != st.p
    ensures p in Next(s, st).pc && Next(s, st).pc[p] == s.pc[p]
    ensures ActOf(s, st) != [] ==> ActOf(s, st)[0].p == st.p
  {
  }

  lemma OwnInOrder<T>(s: Sys<T>, st: Step<T>)
    requires Enabled(s, st)
    ensures st.p in Next(s, st).pc
    ensures var p, acts := st.p, ActOf(s, st);
      Pending(s.pc[p], p) + CallOf(st, p) ==
        (if acts != [] && acts[0].p == p && !acts[0].Enter? && !acts[0].Kill? then acts else []) +
        Pending(Next(s, st).pc[p], p)
  {
  }

  lemma DoneFirst<T>(first: seq<Act<T>>, rest: seq<Act<T>>, p: nat)
    requires |first| <= 1
    ensures Done(first + rest, p) == Done(first, p) + Done(rest, p)
  {
    if first == [] {
      assert first + rest == rest;
    } else {
      assert (first + rest)[1..] == rest && first[1..] == [];
    }
  }

  lemma InOrderThen<T>(a: seq<Act<T>>, b: seq<Act<T>>, c: seq<Act<T>>, d: seq<Act<T>>, e: seq<Act<T>>, f: seq<Act<T>>,
                       g: seq<Act<T>>)
    requires a + b == c + d && d + e == f + g
    ensures a + (b + e) == c + f + g
  {
    assert a + (b + e) == (a + b) + e == c + (d + e);
    assert c + (f + g) == c + f + g;
  }

  // Every run, however the steps of sleep and wakeup interleave, is a run of the simple
  // reading on the same shared data, in which every process does what it calls, in that
  // order and all of it but for a call it is still in.
  lemma {:induction false} RunRefines<T(!new)>(s: Sys<T>, steps: seq<Step<T>>, t: Sys<T>) returns (acts: seq<Act<T>>)
    requires Inv(s) && Reaches(s, steps, t)
    ensures Inv(t) && SimplyReaches(Abstract(s), acts, Abstract(t)) && Abstract(t).shared == t.shared
    ensures t.pc.Keys == s.pc.Keys
    ensures forall p :: p in s.pc ==> Pending(s.pc[p], p) + Called(steps, p) == Done(acts, p) + Pending(t.pc[p], p)
    decreases |steps|
  {
    hide Inv, Enabled, Next, May, Do, ActOf, CallOf, Pending, Done;
    if steps == [] {
      acts := [];
      forall p | p in s.pc ensures Pending<T>(s.pc[p], p) + [] == Done<T>([], p) + Pending<T>(t.pc[p], p) {
        NothingDone<T>(p);
      }
    } else {
      StepKeepsInv(s, steps[0]);
      StepRefines(s, steps[0]);
      var rest := RunRefines(Next(s, steps[0]), steps[1..], t);
      var first := ActOf(s, steps[0]);
      OneAct(s, steps[0]);
      acts := first + rest;
      if first == [] { assert acts == rest; } else { assert acts[1..] == rest; }
      forall p | p in s.pc
        ensures Pending(s.pc[p], p) + Called(steps, p) == Done(acts, p) + Pending(t.pc[p], p)
      {
        StepInOrder(s, steps[0], p);
        DoneFirst(first, rest, p);
        InOrderThen(Pending(s.pc[p], p), CallOf(steps[0], p), Done(first, p), Pending(Next(s, steps[0]).pc[p], p),
                    Called(steps[1..], p), Done(rest, p), Pending(t.pc[p], p));
      }
    }
  }

  lemma NothingDone<T>(p: nat)
    ensures Done<T>([], p) == []
  {
  }

  lemma OneAct<T>(s: Sys<T>, st: Step<T>)
    requires Enabled(s, st)
    ensures |ActOf(s, st)| <= 1 && Next(s, st).pc.Keys == s.pc.Keys
  {
  }

  // ---- the simple reading ----

  // One process at a time is inside, and only those who wait can sleep.
  predicate Simply<T>(s: Simple<T>) {
    && (forall p :: p in s.place ==> (s.place[p].Inside? <==> s.lk == Some(p)))
    && forall p :: p in s.asleep ==> p in s.place && s.place[p].Waiting?
  }

  lemma {:induction false} SimplyKept<T(!new)>(s: Simple<T>, acts: seq<Act<T>>, t: Simple<T>)
    requires Simply(s) && SimplyReaches(s, acts, t)
    ensures Simply(t)
    decreases |acts|
  {
    if acts != [] {
      var n := Do(s, acts[0]);
      forall p | p in n.place ensures n.place[p].Inside? <==> n.lk == Some(p) { assert p in s.place; }
      SimplyKept(n, acts[1..], t);
    }
  }

  // A wakeup wakes those who sleep on its channel and nobody else, and a sleep is on its own.
  lemma WakesItsChannel<T>(s: Simple<T>, a: Act<T>, q: nat)
    requires May(s, a) && (a.Wake? || a.Sleep?)
    ensures var n := Do(s, a).asleep;
      if a.Sleep? && q == a.p then q in n && n[q] == a.chan
      else (q in n <==> q in s.asleep && (a.Wake? ==> s.asleep[q] != a.chan)) && (q in n ==> n[q] == s.asleep[q])
  {
  }

  // ---- calls left alone ----

  // Steps a process has before it until it is out of its call or asleep; a wakeup has those
  // of all it wakes before it too.
  function Rank<T>(s: Sys<T>, p: nat): nat
    requires p in s.pc
  {
    match s.pc[p]
    case Out => 0
    case In => 0
    case Want => 1
    case SleepAcq(_) => 3
    case SleepRel(_) => 2
    case SleepSet(_) => 1
    case Asleep => if p in s.asleep then 0 else 3
    case Woken => 2
    case Reacq => 1
    case WakeAcq(_) => 3 * |s.pc| + 3
    case WakeAll(_) => 3 * |s.pc| + 2
    case WakeRel => 1
  }

  ghost function Total<T>(s: Sys<T>, ps: set<nat>): nat
    requires ps <= s.pc.Keys
  {
    if ps == {} then 0
    else
      var p :| p in ps;
      Rank(s, p) + Total(s, ps - {p})
  }

  lemma {:induction false} TotalWith<T>(s: Sys<T>, ps: set<nat>, p: nat)
    requires ps <= s.pc.Keys && p in ps
    ensures Total(s, ps) == Rank(s, p) + Total(s, ps - {p})
    decreases ps
  {
    hide Rank;
    var q :| q in ps && Total(s, ps) == Rank(s, q) + Total(s, ps - {q});
    if q != p {
      TotalWith(s, ps - {q}, p);
      TotalWith(s, ps - {p}, q);
      assert ps - {q} - {p} == ps - {p} - {q};
    }
  }

  lemma {:induction false} TotalBelow<T>(s: Sys<T>, n: Sys<T>, ps: set<nat>, k: nat)
    requires ps <= s.pc.Keys && ps <= n.pc.Keys && forall p :: p in ps ==> Rank(n, p) <= Rank(s, p) + k
    ensures Total(n, ps) <= Total(s, ps) + k * |ps|
    decreases ps
  {
    hide Rank, Total;
    if ps == {} {
      TotalNone(n);
    } else {
      var p :| p in ps;
      TotalWith(s, ps, p);
      TotalWith(n, ps, p);
      TotalBelow(s, n, ps - {p}, k);
      Times(k, |ps - {p}|);
    }
  }

  lemma TotalNone<T>(s: Sys<T>)
    ensures Total(s, {}) == 0
  {
  }

  lemma Times(k: nat, m: nat)
    ensures k * (m + 1) == k * m + k
  {
  }

  lemma RankFalls<T>(s: Sys<T>, p: nat)
    requires Enabled(s, Go(p))
    ensures var n := Next(s, Go(p));
      && n.pc.Keys == s.pc.Keys && |n.pc| == |s.pc|
      && Rank(n, p) + (if s.pc[p].WakeAll? then 3 * |s.pc| else 0) < Rank(s, p)
  {
    var n := Next(s, Go(p));
    assert n.pc.Keys == s.pc.Keys;
    assert |n.pc| == |n.pc.Keys| == |s.pc.Keys| == |s.pc|;
  }

  lemma OthersStay<T>(s: Sys<T>, p: nat, q: nat)
    requires Enabled(s, Go(p)) && q in s.pc && q != p && |Next(s, Go(p)).pc| == |s.pc|
    ensures q in Next(s, Go(p)).pc && Rank(Next(s, Go(p)), q) <= Rank(s, q) + (if s.pc[p].WakeAll? then 3 else 0)
  {
    assert Next(s, Go(p)).pc[q] == s.pc[q];
  }

  lemma StepLowers<T>(s: Sys<T>, p: nat)
    requires Enabled(s, Go(p))
    ensures Next(s, Go(p)).pc.Keys == s.pc.Keys && Total(Next(s, Go(p)), s.pc.Keys) < Total(s, s.pc.Keys)
  {
    hide Next, Rank, Total;
    RankFalls(s, p);
    var n, ps, k := Next(s, Go(p)), s.pc.Keys - {p}, if s.pc[p].WakeAll? then 3 else 0;
    forall q | q in ps ensures Rank(n, q) <= Rank(s, q) + k { OthersStay(s, p, q); }
    TotalWith(s, s.pc.Keys, p);
    TotalWith(n, s.pc.Keys, p);
    TotalBelow(s, n, ps, k);
    assert |ps| < |s.pc.Keys| == |s.pc|;
  }

  // The calls under way take only so many steps, in any order, ...
  lemma {:induction false} RunsOut<T(!new)>(s: Sys<T>, steps: seq<Step<T>>, t: Sys<T>)
    requires Reaches(s, steps, t) && forall i :: 0 <= i < |steps| ==> steps[i].Go?
    ensures |steps| <= Total(s, s.pc.Keys)
    decreases |steps|
  {
    hide Next, Total, Enabled;
    if steps != [] {
      StepLowers(s, steps[0].p);
      RunsOut(Next(s, steps[0]), steps[1..], t);
    }
  }

  lemma PtMoves<T>(s: Sys<T>)
    requires Inv(s) && s.pt.Some?
    ensures s.pt.value in s.pc && Enabled(s, Go(s.pt.value))
  {
  }

  // ... and when none can go on, each process is outside, inside or asleep, or wants the lock
  // of one that is inside.
  lemma LeftAlone<T>(s: Sys<T>)
    requires Inv(s) && forall p :: p in s.pc ==> !Enabled(s, Go(p))
    ensures s.pt == None && forall p :: p in s.pc ==>
      || s.pc[p].Out? || s.pc[p].In? || (s.pc[p].Asleep? && p in s.asleep)
      || ((s.pc[p].Want? || s.pc[p].Reacq?) && s.lk.Some?)
    ensures s.lk.Some? && s.lk.value in s.pc ==> s.pc[s.lk.value].In?
  {
    if s.pt.Some? { PtMoves(s); }
    forall p | p in s.pc
      ensures s.pc[p].Out? || s.pc[p].In? || (s.pc[p].Asleep? && p in s.asleep)
        || ((s.pc[p].Want? || s.pc[p].Reacq?) && s.lk.Some?)
    {
      assert !Enabled(s, Go(p));
    }
    if s.lk.Some? && s.lk.value in s.pc { assert !Enabled(s, Go(s.lk.value)); }
  }
}
