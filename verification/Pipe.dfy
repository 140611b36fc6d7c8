/**
 Pipes (readp and writep in kernel/fs.c, the pipe parts of kernel/file.c) with any
 number of readers and writers, one step per byte moved or per operation on the pipe's
 lock.  sleep lets go of the lock and sleeps in one step and wakeup is one step, as
 SleepWakeup shows they may be taken.

 A closed end's slot in the file table can be given to another file, after which readp
 and writep take the end to be open again.

 The counters are unbounded: fewer than 2^31 bytes pass through.
 */
module Pipe {
  import opened Prelude

  const SIZE := 2048

  // A call has a number, `id`, in the order of the calls.
  datatype Pc =
    | Idle
    | WantRead(id: nat, n: nat)                  // about to take the lock, to read n bytes
    | InRead(id: nat, n: nat)                    // at the head of readp's waiting loop
    | Reading(id: nat, n: nat, dst: seq<nat>)    // copying: n still wanted, dst copied
    | SleepRead(id: nat, n: nat)
    | WantWrite(id: nat, data: seq<nat>)
    | InWrite(id: nat, data: seq<nat>, res: nat, moved: nat)  // moved: bytes put since the last wakeup
    | SleepWrite(id: nat, data: seq<nat>, res: nat)
    | WantClose(reader: bool)                    // flag cleared, wakeup still to come

  // What a call returns: bytes read, how many were written, or -1.
  datatype Answer = Bytes(got: seq<nat>) | Count(n: nat) | Failed

  // One end: whether it is open, the valid flag of its slot in the file table, and
  // whether the slot has been given to another file since the end was closed.
  datatype End = End(open: bool, flag: bool, reused: bool)

  function Opened(): End {
    End(true, true, false)
  }

  function NoHistory(): History {
    History([], [], [], [], 0, map[])
  }

  // All bytes ever written and read, the calls that did, how many calls there were, and
  // what those that are over returned.
  datatype History = History(put: seq<nat>, taken: seq<nat>, putBy: seq<nat>, takenBy: seq<nat>,
                             calls: nat, answers: map<nat, Answer>)

  // `onFront` and `onTail` are the processes SLEEPING on the two channels.
  datatype Sys = Sys(front: nat, tail: nat, buf: seq<nat>, readEnd: End, writeEnd: End, lk: Option<nat>,
                     pc: map<nat, Pc>, killed: set<nat>, onFront: set<nat>, onTail: set<nat>, h: History)

  datatype Step =
    | StartRead(p: nat, n: nat)
    | StartWrite(p: nat, data: seq<nat>)
    | StartClose(p: nat, reader: bool)
    | Acquire(p: nat)
    | Go(p: nat)          // the next thing under the lock
    | Die(p: nat)         // notice `killed` and return -1
    | Kill(p: nat)
    | Reuse(p: nat, reader: bool)    // p opens a file in the closed end's slot
    | Release(p: nat, reader: bool)  // ... and that file is closed

  predicate Empty(s: Sys) { s.front == s.tail }

  predicate Full(s: Sys) { s.tail - s.front == SIZE }

  predicate Reader(pc: Pc) { pc.WantRead? || pc.InRead? || pc.Reading? || pc.SleepRead? }

  predicate Writer(pc: Pc) { pc.WantWrite? || pc.InWrite? || pc.SleepWrite? }

  predicate Inside(pc: Pc) { pc.InRead? || pc.Reading? || pc.InWrite? }

  predicate Enabled(s: Sys, st: Step) {
    && st.p in s.pc
    && var pc := s.pc[st.p];
       match st
       case StartRead(_, _) => pc == Idle && s.readEnd.open
       case StartWrite(_, _) => pc == Idle && s.writeEnd.open
       // a file is closed for good only when no call on it is under way
       case StartClose(_, reader) =>
         && pc == Idle && The(s, reader).open
         && forall q :: q in s.pc ==> !(if reader then Reader(s.pc[q]) else Writer(s.pc[q]))
       case Acquire(p) =>
         && s.lk == None
         && (pc.WantRead? || pc.WantWrite? || (pc.SleepRead? && p !in s.onFront) || (pc.SleepWrite? && p !in s.onTail))
       case Go(p) => if pc.WantClose? then s.lk == None else s.lk == Some(p)
       case Die(p) => s.lk == Some(p) && p in s.killed && MayDie(s, pc)
       case Kill(_) => true
       case Reuse(_, reader) => pc == Idle && !The(s, reader).flag
       case Release(_, reader) => pc == Idle && !The(s, reader).open && The(s, reader).flag
  }

  function The(s: Sys, reader: bool): End {
    if reader then s.readEnd else s.writeEnd
  }

  function SetEnd(s: Sys, reader: bool, e: End): Sys {
    if reader then s.(readEnd := e) else s.(writeEnd := e)
  }

  // Where readp and writep look at `killed`.
  predicate MayDie(s: Sys, pc: Pc) {
    || (pc.InRead? && Empty(s) && s.writeEnd.flag)
    || (pc.Reading? && pc.n > 0)
    || (pc.InWrite? && pc.data != [] && Full(s) && s.readEnd.flag)
  }

  function At(s: Sys, p: nat, pc: Pc): Sys {
    s.(pc := s.pc[p := pc])
  }

  // The call is over, and the lock released.
  function Return(s: Sys, p: nat, id: nat, a: Answer): Sys {
    At(s, p, Idle).(lk := None, h := s.h.(answers := s.h.answers[id := a]))
  }

  function Next(s: Sys, st: Step): Sys
    requires Enabled(s, st) && |s.buf| == SIZE
  {
    match st
    case StartRead(p, n) => At(s, p, WantRead(s.h.calls, n)).(h := s.h.(calls := s.h.calls + 1))
    case StartWrite(p, data) => At(s, p, WantWrite(s.h.calls, data)).(h := s.h.(calls := s.h.calls + 1))
    case StartClose(p, reader) =>
      SetEnd(At(s, p, WantClose(reader)), reader, End(false, false, false))
    case Acquire(p) => At(s, p, Entered(s.pc[p])).(lk := Some(p))
    case Go(p) => Run(s, p, s.pc[p])
    case Die(p) => Return(s, p, s.pc[p].id, Failed)
    case Kill(p) => s.(killed := s.killed + {p}, onFront := s.onFront - {p}, onTail := s.onTail - {p})
    case Reuse(p, reader) => SetEnd(s, reader, The(s, reader).(flag := true, reused := true))
    case Release(p, reader) => SetEnd(s, reader, The(s, reader).(flag := false))
  }

  function Entered(pc: Pc): Pc {
    match pc
    case WantRead(id, n) => InRead(id, n)
    case SleepRead(id, n) => InRead(id, n)
    case WantWrite(id, data) => InWrite(id, data, 0, 0)
    case SleepWrite(id, data, res) => InWrite(id, data, res, 0)
    case _ => pc
  }

  function Run(s: Sys, p: nat, pc: Pc): Sys
    requires |s.buf| == SIZE
  {
    match pc
    case InRead(id, n) =>
      if Empty(s) && s.writeEnd.flag then
        At(s, p, SleepRead(id, n)).(onTail := {}, onFront := s.onFront + {p}, lk := None)
      else At(s, p, Reading(id, n, []))
    case Reading(id, n, dst) =>
      if n == 0 || Empty(s) then Return(s, p, id, Bytes(dst)).(onTail := {}) else Take(s, p, id, n, dst)
    case InWrite(id, data, res, moved) =>
      if data == [] then Return(s, p, id, Count(res)).(onFront := {})
      else if Full(s) && !s.readEnd.flag then Return(s, p, id, Failed)
      else if Full(s) then At(s, p, SleepWrite(id, data, res)).(onFront := {}, onTail := s.onTail + {p}, lk := None)
      else PutByte(s, p, id, data, res, moved)
    case WantClose(reader) => if reader then At(s, p, Idle).(onTail := {}) else At(s, p, Idle).(onFront := {})
    case _ => s
  }

  function Take(s: Sys, p: nat, id: nat, n: nat, dst: seq<nat>): Sys
    requires |s.buf| == SIZE && n > 0
  {
    var b := s.buf[s.front % SIZE];
    At(s, p, Reading(id, n - 1, dst + [b]))
      .(h := s.h.(taken := s.h.taken + [b], takenBy := s.h.takenBy + [id]), front := s.front + 1)
  }

  function PutByte(s: Sys, p: nat, id: nat, data: seq<nat>, res: nat, moved: nat): Sys
    requires |s.buf| == SIZE && data != []
  {
    At(s, p, InWrite(id, data[1..], res + 1, moved + 1))
      .(h := s.h.(put := s.h.put + [data[0]], putBy := s.h.putBy + [id]),
        buf := s.buf[s.tail % SIZE := data[0]], tail := s.tail + 1)
  }

  // ---- FIFO ----

  // The bytes waiting in the ring.
  function Buffered(s: Sys): seq<nat>
    requires |s.buf| == SIZE && 0 <= s.tail - s.front <= SIZE
  {
    seq(s.tail - s.front, i requires 0 <= i < s.tail - s.front => s.buf[(s.front + i) % SIZE])
  }

  predicate Fifo(s: Sys) {
    && |s.buf| == SIZE && 0 <= s.tail - s.front <= SIZE
    && s.h.taken + Buffered(s) == s.h.put
  }

  // ---- the lock and the sleepers ----

  predicate LockOk(s: Sys) {
    && (s.lk.Some? ==> s.lk.value in s.pc)
    && forall p :: p in s.pc ==> (Inside(s.pc[p]) <==> s.lk == Some(p))
  }

  // The lock's holder has put bytes that no reader has been told of, or taken some.
  predicate PutPending(s: Sys) {
    s.lk.Some? && s.lk.value in s.pc && s.pc[s.lk.value].InWrite? && s.pc[s.lk.value].moved > 0
  }

  predicate TakePending(s: Sys) {
    s.lk.Some? && s.lk.value in s.pc && s.pc[s.lk.value].Reading? && s.pc[s.lk.value].dst != []
  }

  predicate ClosePending(s: Sys, reader: bool) {
    exists p :: p in s.pc && s.pc[p] == WantClose(reader)
  }

  predicate EndsOk(s: Sys) {
    && (forall p :: p in s.onFront ==> p in s.pc && s.pc[p].SleepRead?)
    && (forall p :: p in s.onTail ==> p in s.pc && s.pc[p].SleepWrite?)
    && (forall p :: p in s.pc && Reader(s.pc[p]) ==> s.readEnd.open)
    && (forall p :: p in s.pc && Writer(s.pc[p]) ==> s.writeEnd.open)
    && EndOk(s.readEnd) && EndOk(s.writeEnd)
  }

  // The slot of a closed end is valid only if another file has it.
  predicate EndOk(e: End) {
    if e.open then e.flag && !e.reused else e.flag ==> e.reused
  }

  // A sleeping reader has nothing to read, and a sleeping writer no room, unless the
  // process that changed that still holds the lock.
  predicate FrontOk(s: Sys) {
    s.onFront != {} ==> (Empty(s) || PutPending(s)) && (s.writeEnd.open || s.writeEnd.reused || ClosePending(s, false))
  }

  predicate TailOk(s: Sys) {
    s.onTail != {} ==> (Full(s) || TakePending(s)) && (s.readEnd.open || s.readEnd.reused || ClosePending(s, true))
  }

  predicate Inv(s: Sys) {
    Fifo(s) && LockOk(s) && EndsOk(s) && (TakePending(s) ==> !Full(s))
  }

  predicate Initial(s: Sys) {
    && s.front == 0 && s.tail == 0 && |s.buf| == SIZE && s.readEnd == Opened() && s.writeEnd == Opened() && s.lk == None
    && s.onFront == {} && s.onTail == {} && s.h == NoHistory() && forall p :: p in s.pc ==> s.pc[p] == Idle
  }

  // A killed process that returns after moving bytes leaves sleepers without a wakeup.
  predicate LosesWakeup(s: Sys, st: Step) {
    && st.Die? && st.p in s.pc
    && ((s.pc[st.p].Reading? && s.pc[st.p].dst != [] && s.onTail != {})
        || (s.pc[st.p].InWrite? && s.pc[st.p].moved > 0 && s.onFront != {}))
  }

  // ---- every step ----

  lemma BufferedTake(s: Sys)
    requires |s.buf| == SIZE && 0 < s.tail - s.front <= SIZE
    ensures Buffered(s) == [s.buf[s.front % SIZE]] + Buffered(s.(front := s.front + 1))
  {
  }

  // Two slots of the ring with different counters in range are different.
  lemma RingSlots(a: nat, b: nat)
    requires a < b < a + SIZE
    ensures a % SIZE != b % SIZE
  {
  }

  lemma BufferedPut(s: Sys, b: nat)
    requires |s.buf| == SIZE && 0 <= s.tail - s.front < SIZE
    ensures Buffered(s.(buf := s.buf[s.tail % SIZE := b], tail := s.tail + 1)) == Buffered(s) + [b]
  {
    var n := s.(buf := s.buf[s.tail % SIZE := b], tail := s.tail + 1);
    forall i | 0 <= i < s.tail - s.front ensures Buffered(n)[i] == Buffered(s)[i] {
      RingSlots(s.front + i, s.tail);
    }
  }

  lemma BufferedSame(s: Sys, n: Sys)
    requires |s.buf| == SIZE && 0 <= s.tail - s.front <= SIZE && n.buf == s.buf && n.front == s.front
    requires n.tail == s.tail
    ensures Buffered(n) == Buffered(s)
  {
  }

  lemma StepKeepsFifo(s: Sys, st: Step)
    requires Fifo(s) && Enabled(s, st)
    ensures Fifo(Next(s, st))
  {
    hide Buffered;
    var n := Next(s, st);
    if n.front != s.front {
      BufferedTake(s);
      BufferedSame(s.(front := s.front + 1), n);
    } else if n.tail != s.tail {
      var d := s.pc[st.p].data[0];
      BufferedPut(s, d);
      BufferedSame(s.(buf := s.buf[s.tail % SIZE := d], tail := s.tail + 1), n);
    } else {
      BufferedSame(s, n);
    }
  }

  // A step moves its own process, and that process alone gains or loses the lock.
  lemma StepMoves(s: Sys, st: Step)
    requires |s.buf| == SIZE && Enabled(s, st) && (Inside(s.pc[st.p]) <==> s.lk == Some(st.p))
    ensures var n, p := Next(s, st), st.p;
      && n.pc == s.pc[p := n.pc[p]]
      && (n.lk == s.lk || (s.lk == None && n.lk == Some(p)) || (s.lk == Some(p) && n.lk == None))
      && (Inside(n.pc[p]) <==> n.lk == Some(p))
  {
  }

  // ... goes to sleep on its own side only,
  lemma StepSleeps(s: Sys, st: Step)
    requires |s.buf| == SIZE && Enabled(s, st) && (Inside(s.pc[st.p]) <==> s.lk == Some(st.p))
    requires (st.p in s.onFront ==> s.pc[st.p].SleepRead?) && (st.p in s.onTail ==> s.pc[st.p].SleepWrite?)
    ensures var n, p := Next(s, st), st.p;
      && p in n.pc && n.onFront <= s.onFront + (if n.pc[p].SleepRead? then {p} else {})
      && n.onTail <= s.onTail + (if n.pc[p].SleepWrite? then {p} else {})
      && (p in n.onFront ==> n.pc[p].SleepRead?) && (p in n.onTail ==> n.pc[p].SleepWrite?)
  {
  }

  // ... and stays a reader or writer of an open end.
  lemma StepSides(s: Sys, st: Step)
    requires |s.buf| == SIZE && Enabled(s, st) && (Inside(s.pc[st.p]) <==> s.lk == Some(st.p))
    requires EndOk(s.readEnd) && EndOk(s.writeEnd)
    ensures var n, p := Next(s, st), st.p;
      && p in n.pc && (Reader(n.pc[p]) ==> Reader(s.pc[p]) || s.readEnd.open)
      && (Writer(n.pc[p]) ==> Writer(s.pc[p]) || s.writeEnd.open)
      && EndOk(n.readEnd) && EndOk(n.writeEnd)
      && (n.readEnd.open != s.readEnd.open ==> !Reader(n.pc[p]) && forall q :: q in s.pc ==> !Reader(s.pc[q]))
      && (n.writeEnd.open != s.writeEnd.open ==> !Writer(n.pc[p]) && forall q :: q in s.pc ==> !Writer(s.pc[q]))
  {
  }

  lemma StepKeepsLock(s: Sys, st: Step)
    requires |s.buf| == SIZE && LockOk(s) && Enabled(s, st)
    ensures LockOk(Next(s, st))
  {
    hide Next;
    StepMoves(s, st);
  }

  lemma StepKeepsEnds(s: Sys, st: Step)
    requires |s.buf| == SIZE && LockOk(s) && EndsOk(s) && Enabled(s, st)
    ensures EndsOk(Next(s, st))
  {
    hide Next, Inside;
    StepMoves(s, st);
    StepSleeps(s, st);
    StepSides(s, st);
  }

  // Whoever has taken bytes and still has the lock has left room.
  lemma StepKeepsRoom(s: Sys, st: Step)
    requires Inv(s) && Enabled(s, st)
    ensures TakePending(Next(s, st)) ==> !Full(Next(s, st))
  {
    hide Buffered, EndsOk;
  }

  lemma StepKeepsInv(s: Sys, st: Step)
    requires Inv(s) && Enabled(s, st)
    ensures Inv(Next(s, st))
  {
    hide Buffered, LockOk, EndsOk, Enabled, Next, TakePending;
    StepKeepsRoom(s, st);
    StepKeepsFifo(s, st);
    StepKeepsLock(s, st);
    StepKeepsEnds(s, st);
  }

  // Of the steps, only a killed process's return can leave a sleeper behind.
  lemma StepKeepsFront(s: Sys, st: Step)
    requires Inv(s) && FrontOk(s) && Enabled(s, st) && !LosesWakeup(s, st)
    ensures FrontOk(Next(s, st))
  {
    hide Buffered;
    var n := Next(s, st);
    if n.onFront != {} && !n.writeEnd.open && !n.writeEnd.reused && s.onFront != {} && !s.writeEnd.open {
      var q :| q in s.pc && s.pc[q] == WantClose(false);
      assert q != st.p ==> n.pc[q] == WantClose(false);
    }
    if st.StartClose? { assert n.pc[st.p] == WantClose(st.reader); }
  }

  lemma StepKeepsTail(s: Sys, st: Step)
    requires Inv(s) && TailOk(s) && Enabled(s, st) && !LosesWakeup(s, st)
    ensures TailOk(Next(s, st))
  {
    hide Buffered;
    var n := Next(s, st);
    if n.onTail != {} && !n.readEnd.open && !n.readEnd.reused && s.onTail != {} && !s.readEnd.open {
      var q :| q in s.pc && s.pc[q] == WantClose(true);
      assert q != st.p ==> n.pc[q] == WantClose(true);
    }
    if st.StartClose? { assert n.pc[st.p] == WantClose(st.reader); }
  }

  // A killed process's return keeps the sleepers right exactly when it loses no wakeup.
  lemma DieExactly(s: Sys, st: Step)
    requires Inv(s) && FrontOk(s) && TailOk(s) && Enabled(s, st) && st.Die?
    ensures FrontOk(Next(s, st)) && TailOk(Next(s, st)) <==> !LosesWakeup(s, st)
  {
    hide Buffered;
    if !LosesWakeup(s, st) {
      StepKeepsFront(s, st);
      StepKeepsTail(s, st);
    } else {
      var n := Next(s, st);
      assert s.lk == Some(st.p);
      assert s.pc[st.p].Reading? ==> TakePending(s);
    }
  }

  // ---- whole runs ----

  ghost predicate Reaches(s: Sys, steps: seq<Step>, t: Sys)
    decreases |steps|
  {
    if steps == [] then t == s
    else |s.buf| == SIZE && Enabled(s, steps[0]) && Reaches(Next(s, steps[0]), steps[1..], t)
  }

  // No process returns early, killed, with bytes moved and sleepers not told.
  ghost predicate NoneLost(s: Sys, steps: seq<Step>)
    decreases |steps|
  {
    steps != [] && |s.buf| == SIZE && Enabled(s, steps[0]) ==>
      !LosesWakeup(s, steps[0]) && NoneLost(Next(s, steps[0]), steps[1..])
  }

  lemma {:induction false} RunKeepsInv(s: Sys, steps: seq<Step>, t: Sys)
    requires Inv(s) && Reaches(s, steps, t)
    ensures Inv(t) && (FrontOk(s) && TailOk(s) && NoneLost(s, steps) ==> FrontOk(t) && TailOk(t))
    decreases |steps|
  {
    hide Inv, FrontOk, TailOk, Next, Enabled, LosesWakeup;
    if steps != [] {
      StepKeepsInv(s, steps[0]);
      if FrontOk(s) && TailOk(s) && !LosesWakeup(s, steps[0]) {
        StepKeepsFront(s, steps[0]);
        StepKeepsTail(s, steps[0]);
      }
      RunKeepsInv(Next(s, steps[0]), steps[1..], t);
    }
  }

  // In every interleaving: what readers took, then what is in the ring, is what writers put.
  lemma PipeIsFifo(s: Sys, steps: seq<Step>, t: Sys)
    requires Initial(s) && Reaches(s, steps, t)
    ensures |t.buf| == SIZE && 0 <= t.tail - t.front <= SIZE && t.h.taken + Buffered(t) == t.h.put
  {
    assert Inv(s) by { assert Buffered(s) == []; }
    RunKeepsInv(s, steps, t);
  }

  // ... and once the lock is free and no close is half done, nobody sleeps for nothing: a
  // sleeping reader has nothing to read and, unless the slot of a closed write end has
  // been reused, a writer to wait for; likewise a sleeping writer.
  lemma NobodyStuck(s: Sys, steps: seq<Step>, t: Sys)
    requires Initial(s) && Reaches(s, steps, t) && NoneLost(s, steps) && t.lk == None
    requires !ClosePending(t, true) && !ClosePending(t, false)
    ensures t.onFront != {} ==> Empty(t) && (t.writeEnd.open || t.writeEnd.reused)
    ensures t.onTail != {} ==> Full(t) && (t.readEnd.open || t.readEnd.reused)
  {
    assert Inv(s) by { assert Buffered(s) == []; }
    RunKeepsInv(s, steps, t);
  }

  // ---- what the calls do ----

  // The calls made in a run, in order.
  datatype Call = ReadCall(p: nat, n: nat) | WriteCall(p: nat, data: seq<nat>)

  function Calls(steps: seq<Step>): seq<Call> {
    if steps == [] then []
    else
      var st := steps[|steps| - 1];
      Calls(steps[..|steps| - 1]) +
      match st
      case StartRead(p, n) => [ReadCall(p, n)]
      case StartWrite(p, data) => [WriteCall(p, data)]
      case _ => []
  }

  // The bytes that call id moved, in order.
  function By(bytes: seq<nat>, who: seq<nat>, id: nat): seq<nat>
    requires |bytes| == |who|
  {
    if bytes == [] then []
    else
      var k := |bytes| - 1;
      By(bytes[..k], who[..k], id) + if who[k] == id then [bytes[k]] else []
  }

  lemma ByMore(bytes: seq<nat>, who: seq<nat>, id: nat, b: nat, w: nat)
    requires |bytes| == |who|
    ensures By(bytes + [b], who + [w], id) == By(bytes, who, id) + if w == id then [b] else []
  {
    assert (bytes + [b])[..|bytes|] == bytes && (who + [w])[..|bytes|] == who;
  }

  lemma {:induction false} ByNone(bytes: seq<nat>, who: seq<nat>, id: nat)
    requires |bytes| == |who| && id !in who
    ensures By(bytes, who, id) == []
  {
    if bytes != [] { ByNone(bytes[..|bytes| - 1], who[..|bytes| - 1], id); }
  }

  predicate HasCall(pc: Pc) {
    Reader(pc) || Writer(pc)
  }

  // A write call has put a beginning of its bytes and has the rest to put, or is over: it
  // has put them all and said how many, or has failed before it had.
  predicate WriteOk(s: Sys, p: nat, data: seq<nat>, id: nat)
    requires |s.h.put| == |s.h.putBy|
  {
    var put := By(s.h.put, s.h.putBy, id);
    && p in s.pc
    && if Writer(s.pc[p]) && s.pc[p].id == id then
         && id !in s.h.answers && put + s.pc[p].data == data
         && (s.pc[p].WantWrite? ==> put == []) && (!s.pc[p].WantWrite? ==> s.pc[p].res == |put|)
       else
         id in s.h.answers &&
         ((s.h.answers[id] == Failed && put < data) || (s.h.answers[id] == Count(|data|) && put == data))
  }

  // A read call has what it took, in order, and never more than it asked for.
  predicate ReadOk(s: Sys, p: nat, n: nat, id: nat)
    requires |s.h.taken| == |s.h.takenBy|
  {
    var got := By(s.h.taken, s.h.takenBy, id);
    && p in s.pc
    && if Reader(s.pc[p]) && s.pc[p].id == id then
         id !in s.h.answers && s.pc[p].n + |got| == n && if s.pc[p].Reading? then s.pc[p].dst == got else got == []
       else
         id in s.h.answers && |got| <= n && (s.h.answers[id] == Failed || s.h.answers[id] == Bytes(got))
  }

  predicate CallOk(s: Sys, c: Call, id: nat)
    requires |s.h.put| == |s.h.putBy| && |s.h.taken| == |s.h.takenBy|
  {
    match c
    case ReadCall(p, n) => ReadOk(s, p, n, id)
    case WriteCall(p, data) => WriteOk(s, p, data, id)
  }

  predicate NumbersOk(s: Sys, cs: seq<Call>) {
    && |cs| == s.h.calls && |s.h.put| == |s.h.putBy| && |s.h.taken| == |s.h.takenBy|
    && (forall i :: 0 <= i < |s.h.putBy| ==> s.h.putBy[i] < s.h.calls)
    && (forall i :: 0 <= i < |s.h.takenBy| ==> s.h.takenBy[i] < s.h.calls)
    && (forall id :: id in s.h.answers ==> id < s.h.calls)
    && forall p :: p in s.pc && HasCall(s.pc[p]) ==>
         s.pc[p].id < s.h.calls && cs[s.pc[p].id].p == p && cs[s.pc[p].id].ReadCall? == Reader(s.pc[p])
  }

  ghost predicate CallsOk(s: Sys, cs: seq<Call>) {
    NumbersOk(s, cs) && forall id :: 0 <= id < |cs| ==> CallOk(s, cs[id], id)
  }

  function CallsThen(cs: seq<Call>, st: Step): seq<Call> {
    match st
    case StartRead(p, n) => cs + [ReadCall(p, n)]
    case StartWrite(p, data) => cs + [WriteCall(p, data)]
    case _ => cs
  }

  // A step starts a call, ends its own, moves a byte for it, or leaves the history alone.
  ghost predicate Recorded(s: Sys, n: Sys, st: Step)
    requires st.p in s.pc
  {
    var pc := s.pc[st.p];
    || (n.h == s.h.(calls := s.h.calls + 1) && (st.StartRead? || st.StartWrite?))
    || (!st.StartRead? && !st.StartWrite? &&
        (n.h == s.h || (HasCall(pc) &&
                        (|| (pc.id in n.h.answers && n.h == s.h.(answers := s.h.answers[pc.id := n.h.answers[pc.id]]))
                         || (exists b :: n.h == s.h.(taken := s.h.taken + [b], takenBy := s.h.takenBy + [pc.id]))
                         || (exists b :: n.h == s.h.(put := s.h.put + [b], putBy := s.h.putBy + [pc.id]))))))
  }

  lemma StepRecords(s: Sys, st: Step)
    requires |s.buf| == SIZE && Enabled(s, st) && (Inside(s.pc[st.p]) <==> s.lk == Some(st.p))
    ensures Recorded(s, Next(s, st), st)
  {
  }

  // A process stays in its call, leaves it, or starts the next.
  lemma StepSameCall(s: Sys, st: Step)
    requires |s.buf| == SIZE && Enabled(s, st) && (Inside(s.pc[st.p]) <==> s.lk == Some(st.p))
    ensures var n, p := Next(s, st), st.p;
      && n.pc.Keys == s.pc.Keys && n.pc == s.pc[p := n.pc[p]]
      && (HasCall(n.pc[p]) ==>
            if st.StartRead? || st.StartWrite? then n.pc[p].id == s.h.calls && (Reader(n.pc[p]) <==> st.StartRead?)
            else HasCall(s.pc[p]) && n.pc[p].id == s.pc[p].id && Reader(n.pc[p]) == Reader(s.pc[p]))
  {
    assert Next(s, st).pc.Keys == s.pc.Keys;
  }

  lemma StepNumbers(s: Sys, st: Step, cs: seq<Call>)
    requires |s.buf| == SIZE && Enabled(s, st) && NumbersOk(s, cs)
    requires st.p in s.pc && (Inside(s.pc[st.p]) <==> s.lk == Some(st.p))
    ensures NumbersOk(Next(s, st), CallsThen(cs, st))
  {
    hide Next, Enabled, Inside;
    var n, ds := Next(s, st), CallsThen(cs, st);
    StepRecords(s, st);
    StepSameCall(s, st);
    assert forall i :: 0 <= i < |cs| ==> ds[i] == cs[i];
  }

  predicate InCall(pc: Pc, id: nat) {
    HasCall(pc) && pc.id == id
  }

  // A step of another call changes nothing for this one.
  lemma OtherCall(s: Sys, st: Step, cs: seq<Call>, id: nat)
    requires |s.buf| == SIZE && Enabled(s, st) && NumbersOk(s, cs) && id < |cs|
    requires st.p in s.pc && (Inside(s.pc[st.p]) <==> s.lk == Some(st.p)) && !InCall(s.pc[st.p], id)
    requires |Next(s, st).h.put| == |Next(s, st).h.putBy| && |Next(s, st).h.taken| == |Next(s, st).h.takenBy|
    ensures var n := Next(s, st);
      && By(n.h.put, n.h.putBy, id) == By(s.h.put, s.h.putBy, id)
      && By(n.h.taken, n.h.takenBy, id) == By(s.h.taken, s.h.takenBy, id)
      && (id in n.h.answers <==> id in s.h.answers) && (id in s.h.answers ==> n.h.answers[id] == s.h.answers[id])
      && n.pc.Keys == s.pc.Keys && !InCall(n.pc[st.p], id) && n.pc == s.pc[st.p := n.pc[st.p]]
  {
    hide By, Next, Enabled, Inside;
    var n, pc := Next(s, st), s.pc[st.p];
    StepRecords(s, st);
    StepSameCall(s, st);
    if HasCall(pc) {
      if b :| n.h == s.h.(put := s.h.put + [b], putBy := s.h.putBy + [pc.id]) {
        ByMore(s.h.put, s.h.putBy, id, b, pc.id);
      }
      if b :| n.h == s.h.(taken := s.h.taken + [b], takenBy := s.h.takenBy + [pc.id]) {
        ByMore(s.h.taken, s.h.takenBy, id, b, pc.id);
      }
    }
  }

  lemma OwnWrite(s: Sys, st: Step, data: seq<nat>, id: nat)
    requires |s.buf| == SIZE && Enabled(s, st) && |s.h.put| == |s.h.putBy| && WriteOk(s, st.p, data, id)
    requires (Inside(s.pc[st.p]) <==> s.lk == Some(st.p)) && InCall(s.pc[st.p], id) && Writer(s.pc[st.p])
    requires |Next(s, st).h.put| == |Next(s, st).h.putBy|
    ensures WriteOk(Next(s, st), st.p, data, id)
  {
    hide By;
    var n, pc := Next(s, st), s.pc[st.p];
    if n.tail != s.tail {
      ByMore(s.h.put, s.h.putBy, id, pc.data[0], id);
      assert [pc.data[0]] + pc.data[1..] == pc.data;
    }
  }

  lemma OwnRead(s: Sys, st: Step, m: nat, id: nat)
    requires |s.buf| == SIZE && Enabled(s, st) && |s.h.taken| == |s.h.takenBy| && ReadOk(s, st.p, m, id)
    requires (Inside(s.pc[st.p]) <==> s.lk == Some(st.p)) && InCall(s.pc[st.p], id) && Reader(s.pc[st.p])
    requires |Next(s, st).h.taken| == |Next(s, st).h.takenBy|
    ensures ReadOk(Next(s, st), st.p, m, id)
  {
    hide By;
    var n := Next(s, st);
    if n.front != s.front { ByMore(s.h.taken, s.h.takenBy, id, s.buf[s.front % SIZE], id); }
  }

  lemma StepCall(s: Sys, st: Step, cs: seq<Call>, id: nat)
    requires |s.buf| == SIZE && Enabled(s, st) && NumbersOk(s, cs) && id < |cs| && CallOk(s, cs[id], id)
    requires st.p in s.pc && (Inside(s.pc[st.p]) <==> s.lk == Some(st.p))
    requires |Next(s, st).h.put| == |Next(s, st).h.putBy| && |Next(s, st).h.taken| == |Next(s, st).h.takenBy|
    ensures CallOk(Next(s, st), cs[id], id)
  {
    hide By, Next, Enabled, Inside;
    if !InCall(s.pc[st.p], id) {
      OtherCall(s, st, cs, id);
    } else {
      match cs[id]
      case ReadCall(_, m) => OwnRead(s, st, m, id);
      case WriteCall(_, data) => OwnWrite(s, st, data, id);
    }
  }

  lemma NewCall(s: Sys, st: Step, cs: seq<Call>)
    requires |s.buf| == SIZE && Enabled(s, st) && NumbersOk(s, cs) && (st.StartRead? || st.StartWrite?)
    ensures |Next(s, st).h.put| == |Next(s, st).h.putBy| && |Next(s, st).h.taken| == |Next(s, st).h.takenBy|
    ensures CallOk(Next(s, st), CallsThen(cs, st)[|cs|], |cs|)
  {
    ByNone(s.h.put, s.h.putBy, |cs|);
    ByNone(s.h.taken, s.h.takenBy, |cs|);
  }

  lemma StepKeepsCalls(s: Sys, st: Step, cs: seq<Call>)
    requires Inv(s) && Enabled(s, st) && CallsOk(s, cs)
    ensures CallsOk(Next(s, st), CallsThen(cs, st))
  {
    hide Next, Fifo, EndsOk, Enabled, CallOk, NumbersOk;
    LockAt(s, st);
    var n, ds := Next(s, st), CallsThen(cs, st);
    StepNumbers(s, st, cs);
    CallCount(s, cs);
    CallCount(n, ds);
    forall id | 0 <= id < |ds| ensures CallOk(n, ds[id], id) {
      if id < |cs| { StepCall(s, st, cs, id); } else { NewCall(s, st, cs); }
    }
  }

  lemma LockAt(s: Sys, st: Step)
    requires Inv(s) && Enabled(s, st)
    ensures st.p in s.pc && (Inside(s.pc[st.p]) <==> s.lk == Some(st.p)) && |s.buf| == SIZE
  {
  }

  lemma CallCount(s: Sys, cs: seq<Call>)
    requires NumbersOk(s, cs)
    ensures |cs| == s.h.calls && |s.h.put| == |s.h.putBy| && |s.h.taken| == |s.h.takenBy|
  {
  }

  lemma {:induction false} LastStep(s: Sys, steps: seq<Step>, t: Sys) returns (u: Sys)
    requires steps != [] && Reaches(s, steps, t)
    ensures Reaches(s, steps[..|steps| - 1], u) && |u.buf| == SIZE && Enabled(u, steps[|steps| - 1])
    ensures Next(u, steps[|steps| - 1]) == t
    decreases |steps|
  {
    hide Enabled, Next;
    if |steps| == 1 {
      u := s;
    } else {
      u := LastStep(Next(s, steps[0]), steps[1..], t);
      assert steps[1..][..|steps| - 2] == steps[..|steps| - 1][1..];
    }
  }

  lemma {:induction false} RunKeepsCalls(s: Sys, steps: seq<Step>, t: Sys)
    requires Initial(s) && Reaches(s, steps, t)
    ensures CallsOk(t, Calls(steps))
    decreases |steps|
  {
    hide Enabled, Next, CallsOk, Inv;
    if steps == [] {
      NoCalls(s);
    } else {
      var u := LastStep(s, steps, t);
      RunKeepsCalls(s, steps[..|steps| - 1], u);
      InitialInv(s);
      RunKeepsInv(s, steps[..|steps| - 1], u);
      StepKeepsCalls(u, steps[|steps| - 1], Calls(steps[..|steps| - 1]));
      assert Calls(steps) == CallsThen(Calls(steps[..|steps| - 1]), steps[|steps| - 1]);
    }
  }

  lemma NoCalls(s: Sys)
    requires Initial(s)
    ensures CallsOk(s, [])
  {
  }

  lemma InitialInv(s: Sys)
    requires Initial(s)
    ensures Inv(s)
  {
    assert Buffered(s) == [];
  }

  // In every run, whatever else goes on: call number id, if it writes, has put a beginning
  // of the bytes it was given, in order, and all of them if it has returned their number;
  // if it reads, it returns the bytes it took from the pipe, in order and no more than it
  // asked for.  A call has returned exactly when its process is no longer in it.
  lemma CallsKeepTheirBytes(s: Sys, steps: seq<Step>, t: Sys, id: nat)
    requires Initial(s) && Reaches(s, steps, t) && id < |Calls(steps)|
    ensures |t.h.put| == |t.h.putBy| && |t.h.taken| == |t.h.takenBy| && CallOk(t, Calls(steps)[id], id)
  {
    RunKeepsCalls(s, steps, t);
  }

  // ---- ends ----

  predicate Closes(st: Step, reader: bool) {
    st.StartClose? && st.reader == reader
  }

  predicate Reuses(st: Step, reader: bool) {
    st.Reuse? && st.reader == reader
  }

  predicate Releases(st: Step, reader: bool) {
    st.Release? && st.reader == reader
  }

  // The slot of an end is somebody's: the end's own, or that of the last file to get it.
  function Taken(steps: seq<Step>, reader: bool): bool {
    if steps == [] then true
    else
      var st := steps[|steps| - 1];
      if Closes(st, reader) || Releases(st, reader) then false
      else Reuses(st, reader) || Taken(steps[..|steps| - 1], reader)
  }

  lemma StepEnds(s: Sys, st: Step, reader: bool)
    requires |s.buf| == SIZE && Enabled(s, st)
    ensures The(Next(s, st), reader).open <==> The(s, reader).open && !Closes(st, reader)
    ensures The(Next(s, st), reader).flag <==>
      !Closes(st, reader) && !Releases(st, reader) && (Reuses(st, reader) || The(s, reader).flag)
  {
  }

  // An end is open exactly as long as it has not been closed, and its slot is valid exactly
  // as long as it is somebody's.
  lemma {:induction false} ClosedForGood(s: Sys, steps: seq<Step>, t: Sys, reader: bool)
    requires Initial(s) && Reaches(s, steps, t)
    ensures The(t, reader).open <==> forall i :: 0 <= i < |steps| ==> !Closes(steps[i], reader)
    ensures The(t, reader).flag <==> Taken(steps, reader)
    decreases |steps|
  {
    hide Next, Enabled, Closes, Reuses, Releases;
    if steps != [] {
      var k := |steps| - 1;
      var u := LastStep(s, steps, t);
      StepEnds(u, steps[k], reader);
      ClosedForGood(s, steps[..k], u, reader);
      assert forall i :: 0 <= i < k ==> steps[..k][i] == steps[i];
    }
  }

  // ---- why a call returns ----

  // A reader that has found nothing yet has found bytes, or a closed write end.
  predicate FoundOk(s: Sys) {
    forall p :: p in s.pc && s.pc[p].Reading? && s.pc[p].dst == [] ==> !Empty(s) || !s.writeEnd.open
  }

  lemma StepKeepsFound(s: Sys, st: Step)
    requires Inv(s) && FoundOk(s) && Enabled(s, st)
    ensures FoundOk(Next(s, st))
  {
    hide Buffered;
    var n := Next(s, st);
    assert n.pc == s.pc[st.p := n.pc[st.p]];
  }

  lemma {:induction false} RunKeepsFound(s: Sys, steps: seq<Step>, t: Sys)
    requires Inv(s) && FoundOk(s) && Reaches(s, steps, t)
    ensures FoundOk(t)
    decreases |steps|
  {
    hide Inv, Next, Enabled, FoundOk;
    if steps != [] {
      StepKeepsInv(s, steps[0]);
      StepKeepsFound(s, steps[0]);
      RunKeepsFound(Next(s, steps[0]), steps[1..], t);
    }
  }

  predicate Ends(s: Sys, n: Sys, id: nat) {
    id in n.h.answers && id !in s.h.answers
  }

  // The step that ends a call, seen from its process.
  lemma EndsHow(s: Sys, st: Step, id: nat)
    requires |s.buf| == SIZE && Enabled(s, st) && (Inside(s.pc[st.p]) <==> s.lk == Some(st.p))
    requires Ends(s, Next(s, st), id)
    ensures var a, pc := Next(s, st).h.answers[id], s.pc[st.p];
      && HasCall(pc) && pc.id == id
      && (a.Bytes? ==> pc.Reading? && a.got == pc.dst && (pc.n == 0 || Empty(s)))
      && (a == Failed ==> st.p in s.killed || (pc.InWrite? && Full(s) && !s.readEnd.flag))
      && (a == Failed && Reader(pc) && !Empty(s) ==> pc.Reading? && pc.n > 0)
  {
  }

  // A read comes back short only when the pipe is empty, and with nothing only when the
  // write end is closed as well.  A call fails only if its process has been killed, or if
  // it writes, the pipe is full and the read end closed; and with bytes to read, not once
  // it has all it asked for.
  lemma ReturnsForAReason(s: Sys, steps: seq<Step>, t: Sys, st: Step, id: nat)
    requires Initial(s) && Reaches(s, steps, t) && |t.buf| == SIZE && Enabled(t, st) && Ends(t, Next(t, st), id)
    ensures id < |Calls(steps)|
    ensures var a, c := Next(t, st).h.answers[id], Calls(steps)[id];
      && (a.Bytes? && c.ReadCall? && |a.got| < c.n ==> Empty(t))
      && (a.Bytes? && c.ReadCall? && c.n > 0 && a.got == [] ==> !t.writeEnd.open)
      && (a == Failed ==> st.p in t.killed || (c.WriteCall? && Full(t) && !t.readEnd.open))
      && (a == Failed && c.ReadCall? && !Empty(t) ==>
            |t.h.taken| == |t.h.takenBy| && |By(t.h.taken, t.h.takenBy, id)| < c.n)
  {
    hide Buffered, By, Next, Enabled, Calls, Reaches, Initial;
    InitialInv(s);
    RunKeepsInv(s, steps, t);
    NoneFound(s);
    RunKeepsCalls(s, steps, t);
    RunKeepsFound(s, steps, t);
    LockAt(t, st);
    EndsHow(t, st, id);
    assert CallOk(t, Calls(steps)[id], id);
  }

  lemma NoneFound(s: Sys)
    requires Initial(s)
    ensures FoundOk(s)
  {
  }

  // Whoever lets go of the lock, unless it fails, has told the other side.
  lemma TellsTheOthers(s: Sys, p: nat)
    requires |s.buf| == SIZE && Enabled(s, Go(p)) && s.lk == Some(p) && Next(s, Go(p)).lk == None && HasCall(s.pc[p])
    ensures var n, pc := Next(s, Go(p)), s.pc[p];
      && (n.pc[p].Idle? ==> pc.id in n.h.answers)
      && (!n.pc[p].Idle? || n.h.answers[pc.id] != Failed ==> if Reader(pc) then n.onTail == {} else n.onFront == {})
  {
  }

  // ---- calls left alone ----

  // A step of a call that is under way, or of a close.
  predicate Own(st: Step) {
    st.Acquire? || st.Go?
  }

  // Bytes a process has still to move.
  function Left(pc: Pc): nat {
    if Reader(pc) then pc.n else if Writer(pc) then |pc.data| else 0
  }

  // Steps until it moves a byte, sleeps or is done.  A sleeper for whom there are bytes, or
  // room, counts as one who will wake up.
  function Walk(s: Sys, p: nat): nat
    requires p in s.pc
  {
    match s.pc[p]
    case Idle => 0
    case WantRead(_, _) => 3
    case InRead(_, _) => 2
    case Reading(_, _, _) => 1
    case SleepRead(_, _) => if p !in s.onFront then 3 else if Empty(s) then 0 else 4
    case WantWrite(_, _) => 3
    case InWrite(_, _, _, _) => 2
    case SleepWrite(_, _, _) => if p !in s.onTail then 3 else if Full(s) then 0 else 4
    case WantClose(_) => 1
  }

  // A byte moved, and the end of a call, may send every other process on its way again.
  function Rank(s: Sys, p: nat): nat
    requires p in s.pc
  {
    4 * |s.pc| * (Left(s.pc[p]) + if s.pc[p].Idle? then 0 else 1) + Walk(s, p)
  }

  ghost function Total(s: Sys, ps: set<nat>): nat
    requires ps <= s.pc.Keys
  {
    if ps == {} then 0
    else
      var p :| p in ps;
      Rank(s, p) + Total(s, ps - {p})
  }

  lemma {:induction false} TotalWith(s: Sys, ps: set<nat>, p: nat)
    requires ps <= s.pc.Keys && p in ps
    ensures Total(s, ps) == Rank(s, p) + Total(s, ps - {p})
    decreases ps
  {
    hide Rank;
    var q :| q in ps && Total(s, ps) == Rank(s, q) + Total(s, ps - {q});
    if q != p {
      TotalWith(s, ps - {q}, p);
      TotalWith(s, ps - {p}, q);
      assert ps - {q} - {p} == ps - {p} - {q};
    }
  }

  lemma {:induction false} TotalBelow(s: Sys, n: Sys, ps: set<nat>, k: nat)
    requires ps <= s.pc.Keys && ps <= n.pc.Keys && forall p :: p in ps ==> Rank(n, p) <= Rank(s, p) + k
    ensures Total(n, ps) <= Total(s, ps) + k * |ps|
    decreases ps
  {
    hide Rank, Total;
    if ps == {} {
      TotalNone(n);
    } else {
      var p :| p in ps;
      TotalWith(s, ps, p);
      TotalWith(n, ps, p);
      TotalBelow(s, n, ps - {p}, k);
      Times(k, |ps - {p}|);
    }
  }

  lemma TotalNone(s: Sys)
    ensures Total(s, {}) == 0
  {
  }

  lemma Times(k: nat, m: nat)
    ensures k * (m + 1) == k * m + k
  {
  }

  // The step moves a byte or ends a call.
  predicate Moves(s: Sys, st: Step)
    requires |s.buf| == SIZE && Enabled(s, st)
  {
    var n := Next(s, st);
    st.p in n.pc && (n.pc[st.p].Idle? || Left(n.pc[st.p]) < Left(s.pc[st.p]))
  }

  lemma OwnWalk(s: Sys, st: Step)
    requires |s.buf| == SIZE && Enabled(s, st) && Own(st) && (Inside(s.pc[st.p]) <==> s.lk == Some(st.p))
    ensures var n, p := Next(s, st), st.p;
      && n.pc == s.pc[p := n.pc[p]] && !s.pc[p].Idle?
      && if Moves(s, st) then
           && Left(n.pc[p]) + (if n.pc[p].Idle? then 0 else 1) < Left(s.pc[p]) + 1 && Walk(n, p) <= Walk(s, p)
         else Left(n.pc[p]) == Left(s.pc[p]) && Walk(n, p) < Walk(s, p) && !n.pc[p].Idle?
  {
  }

  lemma OtherWalk(s: Sys, st: Step, q: nat)
    requires |s.buf| == SIZE && Enabled(s, st) && Own(st) && (Inside(s.pc[st.p]) <==> s.lk == Some(st.p))
    requires q in s.pc && q != st.p && 0 <= s.tail - s.front <= SIZE
    ensures q in Next(s, st).pc && Next(s, st).pc[q] == s.pc[q]
    ensures Walk(Next(s, st), q) <= Walk(s, q) + if Moves(s, st) then 4 else 0
  {
  }

  lemma {:induction false} Scale(k: nat, a: nat, b: nat)
    requires a < b
    ensures k * a + k <= k * b
    decreases b
  {
    Times(k, b - 1);
    if a < b - 1 { Scale(k, a, b - 1); }
  }

  lemma OwnRank(s: Sys, st: Step)
    requires |s.buf| == SIZE && Enabled(s, st) && Own(st) && st.p in s.pc
    requires (Inside(s.pc[st.p]) <==> s.lk == Some(st.p))
    ensures var n, p := Next(s, st), st.p;
      && n.pc.Keys == s.pc.Keys && |n.pc| == |s.pc|
      && if Moves(s, st) then Rank(n, p) + 4 * |s.pc| <= Rank(s, p) else Rank(n, p) < Rank(s, p)
  {
    hide Next, Walk, Left, Enabled;
    var n, p := Next(s, st), st.p;
    OwnWalk(s, st);
    assert n.pc.Keys == s.pc.Keys;
    assert |n.pc| == |n.pc.Keys| == |s.pc.Keys| == |s.pc|;
    if Moves(s, st) { Scale(4 * |s.pc|, Left(n.pc[p]) + (if n.pc[p].Idle? then 0 else 1), Left(s.pc[p]) + 1); }
  }

  lemma OtherRank(s: Sys, st: Step, q: nat)
    requires |s.buf| == SIZE && Enabled(s, st) && Own(st) && st.p in s.pc
    requires (Inside(s.pc[st.p]) <==> s.lk == Some(st.p))
    requires q in s.pc && q != st.p && 0 <= s.tail - s.front <= SIZE && |Next(s, st).pc| == |s.pc|
    ensures q in Next(s, st).pc && Rank(Next(s, st), q) <= Rank(s, q) + if Moves(s, st) then 4 else 0
  {
    hide Next, Walk, Left, Moves, Enabled;
    OtherWalk(s, st, q);
  }

  lemma StepLowers(s: Sys, st: Step)
    requires Inv(s) && Enabled(s, st) && Own(st)
    ensures Next(s, st).pc.Keys == s.pc.Keys && Total(Next(s, st), s.pc.Keys) < Total(s, s.pc.Keys)
  {
    hide Next, Rank, Total, Buffered, Moves, EndsOk, Enabled;
    LockAt(s, st);
    OwnRank(s, st);
    var n, ps, k := Next(s, st), s.pc.Keys - {st.p}, if Moves(s, st) then 4 else 0;
    forall q | q in ps ensures Rank(n, q) <= Rank(s, q) + k { OtherRank(s, st, q); }
    TotalWith(s, s.pc.Keys, st.p);
    TotalWith(n, s.pc.Keys, st.p);
    TotalBelow(s, n, ps, k);
    assert |ps| < |s.pc.Keys| == |s.pc|;
  }

  ghost predicate AllOwn(steps: seq<Step>) {
    forall i :: 0 <= i < |steps| ==> Own(steps[i])
  }

  // The calls under way take only so many steps, in any order, ...
  lemma {:induction false} RunsOut(s: Sys, steps: seq<Step>, t: Sys)
    requires Inv(s) && Reaches(s, steps, t) && AllOwn(steps)
    ensures |steps| <= Total(s, s.pc.Keys)
    decreases |steps|
  {
    hide Inv, Next, Total, Enabled;
    if steps != [] {
      StepKeepsInv(s, steps[0]);
      StepLowers(s, steps[0]);
      RunsOut(Next(s, steps[0]), steps[1..], t);
    }
  }

  // ... and when none of them can go on, each has returned or sleeps: a reader on an empty
  // pipe, a writer on a full one, each unless a wakeup was lost, and each with somebody to
  // wait for unless a slot was reused.
  lemma LeftAlone(s: Sys, steps: seq<Step>, t: Sys)
    requires Initial(s) && Reaches(s, steps, t)
    requires forall p :: p in t.pc ==> !Enabled(t, Acquire(p)) && !Enabled(t, Go(p))
    ensures t.lk == None && forall p :: p in t.pc ==> t.pc[p].Idle? || p in t.onFront || p in t.onTail
    ensures NoneLost(s, steps) && t.onFront != {} ==> Empty(t) && (t.writeEnd.open || t.writeEnd.reused)
    ensures NoneLost(s, steps) && t.onTail != {} ==> Full(t) && (t.readEnd.open || t.readEnd.reused)
  {
    InitialInv(s);
    RunKeepsInv(s, steps, t);
    assert t.lk == None by { if t.lk.Some? { assert Enabled(t, Go(t.lk.value)); } }
    forall p | p in t.pc ensures t.pc[p].Idle? || p in t.onFront || p in t.onTail {
      assert !Enabled(t, Acquire(p)) && !Enabled(t, Go(p));
    }
    if NoneLost(s, steps) { NobodyStuck(s, steps, t); }
  }

  // ---- reused slots ----

  // A process that finds the other end closed and cannot go on goes to sleep, for good,
  // exactly when the closed end's slot now belongs to another file.
  lemma SleepsExactly(s: Sys, steps: seq<Step>, t: Sys, p: nat)
    requires Initial(s) && Reaches(s, steps, t) && |t.buf| == SIZE && Enabled(t, Go(p))
    ensures t.pc[p].InRead? && Empty(t) && !t.writeEnd.open ==>
      (p in Next(t, Go(p)).onFront <==> t.writeEnd.flag) && (t.writeEnd.flag ==> t.writeEnd.reused)
    ensures t.pc[p].InWrite? && t.pc[p].data != [] && Full(t) && !t.readEnd.open ==>
      (p in Next(t, Go(p)).onTail <==> t.readEnd.flag) && (t.readEnd.flag ==> t.readEnd.reused)
  {
    assert Inv(s) by { assert Buffered(s) == []; }
    RunKeepsInv(s, steps, t);
  }

  // A reader asleep with the write end closed, and its close over, sleeps on in every
  // continuation in which it is not killed.
  lemma {:induction false} ReaderStranded(s: Sys, steps: seq<Step>, t: Sys, p: nat)
    requires Inv(s) && p in s.onFront && !s.writeEnd.open && !ClosePending(s, false)
    requires Reaches(s, steps, t) && Kill(p) !in steps
    ensures p in t.onFront && !t.writeEnd.open
    decreases |steps|
  {
    hide Inv, Next, Enabled, Fifo, LockOk;
    if steps != [] {
      StepKeepsInv(s, steps[0]);
      StaysStranded(s, steps[0], p, false);
      ReaderStranded(Next(s, steps[0]), steps[1..], t, p);
    }
  }

  lemma {:induction false} WriterStranded(s: Sys, steps: seq<Step>, t: Sys, p: nat)
    requires Inv(s) && p in s.onTail && !s.readEnd.open && !ClosePending(s, true)
    requires Reaches(s, steps, t) && Kill(p) !in steps
    ensures p in t.onTail && !t.readEnd.open
    decreases |steps|
  {
    hide Inv, Next, Enabled, Fifo, LockOk;
    if steps != [] {
      StepKeepsInv(s, steps[0]);
      StaysStranded(s, steps[0], p, true);
      WriterStranded(Next(s, steps[0]), steps[1..], t, p);
    }
  }

  // With one end closed there is nobody left to wake the other side.
  lemma StaysStranded(s: Sys, st: Step, p: nat, reader: bool)
    requires Inv(s) && Enabled(s, st) && !The(s, reader).open && !ClosePending(s, reader) && st != Kill(p)
    ensures var n := Next(s, st);
      && !The(n, reader).open && !ClosePending(n, reader)
      && (p in (if reader then s.onTail else s.onFront) ==> p in (if reader then n.onTail else n.onFront))
  {
    hide Buffered;
    var n := Next(s, st);
    forall q | q in n.pc ensures n.pc[q] == WantClose(reader) ==> q in s.pc && s.pc[q] == WantClose(reader) {}
  }

  // The write end is closed, its slot is reused, and a reader that comes then waits for
  // ever.
  lemma ReusedSlotStrandsReader()
    ensures exists s, steps, t ::
      && Initial(s) && Reaches(s, steps, t) && NoneLost(s, steps)
      && 2 in t.onFront && !t.writeEnd.open && !ClosePending(t, false) && t.lk == None
  {
    hide Reaches, Zeros;
    var s0 := Sys(0, 0, Zeros(SIZE), Opened(), Opened(), None, map[1 := Idle, 2 := Idle], {}, {}, {}, NoHistory());
    var s3 := s0.(writeEnd := End(false, true, true));
    var first := CloseAndReuse(s0, s3);
    var d, e, f := StartRead(2, 1), Acquire(2), Go(2);
    var s4 := Next(s3, d);
    var s5 := Next(s4, e);
    var t := Next(s5, f);
    OneStep(s3, d);
    OneStep(s4, e);
    OneStep(s5, f);
    ReachesOn(s0, first, s3, [d], s4);
    ReachesOn(s0, first + [d], s4, [e], s5);
    ReachesOn(s0, first + [d] + [e], s5, [f], t);
    NoDeaths(s0, first + [d] + [e] + [f]);
    assert Initial(s0);
  }

  lemma CloseAndReuse(s0: Sys, t: Sys) returns (steps: seq<Step>)
    requires s0 == Sys(0, 0, Zeros(SIZE), Opened(), Opened(), None, map[1 := Idle, 2 := Idle], {}, {}, {}, NoHistory())
    requires t == s0.(writeEnd := End(false, true, true))
    ensures Reaches(s0, steps, t) && forall i :: 0 <= i < |steps| ==> !steps[i].Die?
  {
    hide Reaches, Zeros;
    var a, b, c := StartClose(1, false), Go(1), Reuse(1, false);
    var s1 := Next(s0, a);
    var s2 := Next(s1, b);
    OneStep(s0, a);
    OneStep(s1, b);
    OneStep(s2, c);
    assert Next(s2, c) == t;
    ReachesOn(s0, [a], s1, [b], s2);
    ReachesOn(s0, [a] + [b], s2, [c], t);
    steps := [a] + [b] + [c];
  }

  lemma {:induction false} NoDeaths(s: Sys, steps: seq<Step>)
    requires forall i :: 0 <= i < |steps| ==> !steps[i].Die?
    ensures NoneLost(s, steps)
    decreases |steps|
  {
    if steps != [] && |s.buf| == SIZE && Enabled(s, steps[0]) { NoDeaths(Next(s, steps[0]), steps[1..]); }
  }

  // ---- a run that does lose a wakeup ----

  function Zeros(n: nat): (z: seq<nat>)
    ensures |z| == n
  {
    seq(n, _ => 0)
  }

  // Process 2 sleeps on the empty pipe while process 1 has put k zero bytes.
  function Filling(k: nat): Sys
    requires k <= SIZE
  {
    Sys(0, k, Zeros(SIZE), Opened(), Opened(), Some(1),
        map[1 := InWrite(1, Zeros(SIZE + 1 - k), k, k), 2 := SleepRead(0, 1)],
        {}, {2}, {}, History(Zeros(k), [], Ones(k), [], 2, map[]))
  }

  function Ones(n: nat): (z: seq<nat>)
    ensures |z| == n
  {
    seq(n, _ => 1)
  }

  lemma FillOne(k: nat)
    requires k < SIZE
    ensures Enabled(Filling(k), Go(1)) && Next(Filling(k), Go(1)) == Filling(k + 1)
  {
    assert Zeros(SIZE + 1 - k)[1..] == Zeros(SIZE - k);
    assert Zeros(k) + [0] == Zeros(k + 1);
    assert Ones(k) + [1] == Ones(k + 1);
    assert Zeros(SIZE)[k % SIZE := 0] == Zeros(SIZE);
  }

  lemma {:induction false} FillAll(k: nat) returns (steps: seq<Step>)
    requires k <= SIZE
    ensures Reaches(Filling(k), steps, Filling(SIZE))
    decreases SIZE - k
  {
    if k == SIZE {
      steps := [];
    } else {
      FillOne(k);
      var rest := FillAll(k + 1);
      steps := [Go(1)] + rest;
    }
  }

  lemma {:induction false} ReachesOn(s: Sys, steps: seq<Step>, t: Sys, more: seq<Step>, u: Sys)
    requires Reaches(s, steps, t) && Reaches(t, more, u)
    ensures Reaches(s, steps + more, u)
    decreases |steps|
  {
    if steps == [] {
      assert steps + more == more;
    } else {
      ReachesOn(Next(s, steps[0]), steps[1..], t, more, u);
      assert (steps + more)[1..] == steps[1..] + more;
    }
  }

  // The lock is free and the pipe is full, and the reader sleeps on.
  lemma KilledWriterStrandsReader()
    ensures exists s, steps, t :: Initial(s) && Reaches(s, steps, t) && t.lk == None && Full(t) && 2 in t.onFront
  {
    var s0 := Sys(0, 0, Zeros(SIZE), Opened(), Opened(), None, map[1 := Idle, 2 := Idle], {}, {}, {}, NoHistory());
    var start := StartRun(s0);
    var fill := FillAll(0);
    ReachesOn(s0, start, Filling(0), fill, Filling(SIZE));
    var end, t := EndRun();
    ReachesOn(s0, start + fill, Filling(SIZE), end, t);
    assert Initial(s0);
  }

  lemma OneStep(s: Sys, st: Step)
    requires |s.buf| == SIZE && Enabled(s, st)
    ensures Reaches(s, [st], Next(s, st))
  {
    assert Reaches(Next(s, st), [st][1..], Next(s, st));
  }

  // Process 2 sleeps on an empty pipe.
  function Asleep(): Sys {
    Sys(0, 0, Zeros(SIZE), Opened(), Opened(), None, map[1 := Idle, 2 := SleepRead(0, 1)], {}, {2}, {},
        NoHistory().(calls := 1))
  }

  lemma StartRun(s0: Sys) returns (steps: seq<Step>)
    requires s0 == Sys(0, 0, Zeros(SIZE), Opened(), Opened(), None, map[1 := Idle, 2 := Idle], {}, {}, {}, NoHistory())
    ensures Reaches(s0, steps, Filling(0))
  {
    hide Reaches, Zeros, Enabled, Next, Asleep, Filling;
    var first := FallAsleep(s0);
    var second := StartFilling();
    ReachesOn(s0, first, Asleep(), second, Filling(0));
    steps := first + second;
  }

  lemma FallAsleep(s0: Sys) returns (steps: seq<Step>)
    requires s0 == Sys(0, 0, Zeros(SIZE), Opened(), Opened(), None, map[1 := Idle, 2 := Idle], {}, {}, {}, NoHistory())
    ensures Reaches(s0, steps, Asleep())
  {
    hide Reaches, Zeros;
    var a, b, c := StartRead(2, 1), Acquire(2), Go(2);
    var s1 := Next(s0, a);
    var s2 := Next(s1, b);
    var s3 := Next(s2, c);
    OneStep(s0, a);
    OneStep(s1, b);
    OneStep(s2, c);
    assert s3 == Asleep();
    ReachesOn(s0, [a], s1, [b], s2);
    ReachesOn(s0, [a] + [b], s2, [c], s3);
    steps := [a] + [b] + [c];
  }

  lemma StartFilling() returns (steps: seq<Step>)
    ensures Reaches(Asleep(), steps, Filling(0))
  {
    hide Reaches, Zeros;
    var a, b := StartWrite(1, Zeros(SIZE + 1)), Acquire(1);
    var s1 := Next(Asleep(), a);
    var s2 := Next(s1, b);
    OneStep(Asleep(), a);
    OneStep(s1, b);
    NoZeros();
    assert s2 == Filling(0);
    ReachesOn(Asleep(), [a], s1, [b], s2);
    steps := [a] + [b];
  }

  lemma NoZeros()
    ensures Zeros(0) == [] && Ones(0) == []
  {
  }

  lemma EndRun() returns (steps: seq<Step>, t: Sys)
    ensures Reaches(Filling(SIZE), steps, t) && t.lk == None && Full(t) && 2 in t.onFront
  {
    hide Reaches, Zeros;
    var s0 := Filling(SIZE);
    var s1 := Next(s0, Kill(1));
    t := Next(s1, Die(1));
    OneStep(s0, Kill(1));
    OneStep(s1, Die(1));
    ReachesOn(s0, [Kill(1)], s1, [Die(1)], t);
    steps := [Kill(1)] + [Die(1)];
  }
}
