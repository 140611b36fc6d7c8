/**
 The write-ahead log of kernel/fs.c as the sequence of block writes it makes.

 A crash can only fall between two `bwrite`s, so the disk after a crash is the old
 disk with a prefix of that sequence applied.  The log region is LOG_BLOCKS blocks
 from `ls` (`sb.logstart`): the commit block, then one block per entry.
 */
module CrashLog {
  import opened Blocks

  const LOG_BLOCKS := 40     // mkfs.c `logsize`
  const MAX_ENTRIES := 39    // entries that fit behind the commit block

  // struct commit_block
  datatype CommitBlock = CommitBlock(dst: seq<word>, flag: word, size: word, pad: seq<word>) {
    predicate Valid() {
      |dst| == 40 && |pad| == BLOCK_WORDS - 42
    }
  }

  // memmove between a block's data and a struct commit_block
  function Encode(cb: CommitBlock): (b: Block)
    requires cb.Valid()
    ensures Whole(b)
  {
    Block(cb.dst + [cb.flag, cb.size] + cb.pad)
  }

  function Decode(b: Block): (cb: CommitBlock)
    requires Whole(b)
    ensures cb.Valid()
  {
    CommitBlock(b.words[..40], b.words[40], b.words[41], b.words[42..])
  }

  lemma DecodeEncode(cb: CommitBlock)
    requires cb.Valid()
    ensures Decode(Encode(cb)) == cb
  {
  }

  lemma DecodeZero()
    ensures Decode(ZeroBlock()).flag == 0 && Decode(ZeroBlock()).size == 0
  {
  }

  predicate InLog(ls: nat, b: nat) {
    ls <= b < ls + LOG_BLOCKS
  }

  ghost predicate Layout(d: Disk, ls: nat) {
    forall b: nat :: InLog(ls, b) ==> b in d
  }

  predicate SameOffLog(ls: nat, d: Disk, e: Disk) {
    && d.Keys == e.Keys
    && forall b :: b in d && !InLog(ls, b) ==> d[b] == e[b]
  }

  // A target the commit block can name and recovery can install.
  predicate Target(d: Disk, ls: nat, b: nat) {
    b in d && !InLog(ls, b) && b < 0x1_0000_0000
  }

  predicate TxOk(d: Disk, ls: nat, es: seq<Write>) {
    && |es| <= MAX_ENTRIES
    && forall i :: 0 <= i < |es| ==> Target(d, ls, es[i].block)
  }

  // ---- log_commit_tx ----

  // What the in-memory commit block has room to name.
  predicate Fits(es: seq<Write>) {
    |es| <= LOG_BLOCKS && forall i :: 0 <= i < |es| ==> es[i].block < 0x1_0000_0000
  }

  // The in-memory commit block after the copying loop has handled n entries.
  function Fill(cb: CommitBlock, es: seq<Write>, n: nat): (r: CommitBlock)
    requires cb.Valid() && Fits(es) && n <= |es|
    ensures r.Valid()
  {
    if n == 0 then cb
    else
      var c := Fill(cb, es, n - 1);
      c.(dst := c.dst[n - 1 := es[n - 1].block], size := (c.size + 1) % 0x1_0000_0000)
  }

  function Committed(b: Block, es: seq<Write>): Block
    requires Whole(b) && Fits(es)
  {
    Encode(Fill(Decode(b), es, |es|).(flag := 1))
  }

  // Entry i goes to the i-th block behind the commit block.
  function LogWrites(ls: nat, es: seq<Write>): (ws: seq<Write>)
    ensures |ws| == |es|
    ensures forall i :: 0 <= i < |es| ==> ws[i] == Write(ls + 1 + i, es[i].data)
  {
    if es == [] then []
    else LogWrites(ls, es[..|es| - 1]) + [Write(ls + |es|, es[|es| - 1].data)]
  }

  function CommitPlan(d: Disk, ls: nat, es: seq<Write>): seq<Write>
    requires ls in d && Whole(d[ls]) && Fits(es)
  {
    LogWrites(ls, es) + [Write(ls, Committed(d[ls], es))]
  }

  // The disk when the commit-block write has just been made.
  function AfterCommit(d: Disk, ls: nat, es: seq<Write>): Disk
    requires ls in d && Whole(d[ls]) && Fits(es)
  {
    Apply(d, CommitPlan(d, ls, es))
  }

  // ---- log_recover ----

  ghost predicate Recoverable(d: Disk, ls: nat) {
    && Layout(d, ls) && InLog(ls, ls) && Whole(d[ls])
    && (Decode(d[ls]).flag == 1 ==> Installable(d, ls, Decode(d[ls])))
  }

  predicate Installable(d: Disk, ls: nat, cb: CommitBlock) {
    && cb.size <= MAX_ENTRIES <= |cb.dst|
    && forall i :: 0 <= i < cb.size ==> Target(d, ls, cb.dst[i])
  }

  // The first n installs: entry i copies the i-th log block to its target.
  function Installs(d: Disk, ls: nat, dst: seq<word>, n: nat): (ws: seq<Write>)
    requires Layout(d, ls) && n <= MAX_ENTRIES <= |dst|
    ensures |ws| == n
    ensures forall i :: 0 <= i < n ==> ws[i] == Write(dst[i], d[ls + 1 + i])
  {
    if n == 0 then []
    else Installs(d, ls, dst, n - 1) + [Write(dst[n - 1], d[ls + n])]
  }

  function RecoverPlan(d: Disk, ls: nat): seq<Write>
    requires Recoverable(d, ls)
  {
    var cb := Decode(d[ls]);
    if cb.flag == 1 then Installs(d, ls, cb.dst, cb.size) + [Write(ls, ZeroBlock())] else []
  }

  // The disk once a recovery has completed.
  function Recovered(d: Disk, ls: nat): Disk
    requires Recoverable(d, ls)
  {
    Apply(d, RecoverPlan(d, ls))
  }

  // The writes of one whole transaction: commit, then the recovery it ends with.
  function TxPlan(d: Disk, ls: nat, es: seq<Write>): seq<Write>
    requires Recoverable(d, ls) && d[ls] == ZeroBlock() && TxOk(d, ls, es)
  {
    CommittedDisk(d, ls, es);
    CommitPlan(d, ls, es) + RecoverPlan(AfterCommit(d, ls, es), ls)
  }

  // ---- crashes ----

  function Cut(ws: seq<Write>, k: nat): seq<Write> {
    if k <= |ws| then ws[..k] else ws
  }

  // Recovery that crashes after k of its writes.
  function PartRecovered(d: Disk, ls: nat, k: nat): Disk
    requires Recoverable(d, ls)
  {
    Apply(d, Cut(RecoverPlan(d, ls), k))
  }

  // Reboots: each runs recovery but crashes after k of its writes.
  function Reboots(d: Disk, ls: nat, ks: seq<nat>): (r: Disk)
    requires Recoverable(d, ls)
    ensures Recoverable(r, ls)
    decreases |ks|
  {
    if ks == [] then d
    else
      CutRecovery(d, ls, ks[0]);
      Reboots(PartRecovered(d, ls, ks[0]), ls, ks[1..])
  }

  // ---- the contents of the commit block ----

  lemma {:induction false} FillEntries(cb: CommitBlock, es: seq<Write>, n: nat)
    requires cb.Valid() && cb.size == 0
    requires Fits(es) && n <= |es| <= MAX_ENTRIES
    ensures Fill(cb, es, n).size == n
    ensures forall i :: 0 <= i < n ==> Fill(cb, es, n).dst[i] == es[i].block
  {
    if n > 0 { FillEntries(cb, es, n - 1); }
  }

  lemma CommittedNames(es: seq<Write>)
    requires Fits(es) && |es| <= MAX_ENTRIES
    ensures var cb := Decode(Committed(ZeroBlock(), es));
      cb.flag == 1 && cb.size == |es| && forall i :: 0 <= i < |es| ==> cb.dst[i] == es[i].block
  {
    DecodeZero();
    FillEntries(Decode(ZeroBlock()), es, |es|);
    DecodeEncode(Fill(Decode(ZeroBlock()), es, |es|).(flag := 1));
  }

  // ---- what each phase leaves on the disk ----

  // Log writes stay inside the log region, so no target changes before the commit.
  lemma LogWritesStay(d: Disk, ls: nat, es: seq<Write>, k: nat)
    requires Layout(d, ls) && k <= |es| <= MAX_ENTRIES
    ensures var e := Apply(d, LogWrites(ls, es)[..k]);
      && SameOffLog(ls, d, e) && ls in e && e[ls] == d[ls]
      && forall i :: 0 <= i < k ==> ls + 1 + i in e && e[ls + 1 + i] == es[i].data
  {
    var ws := LogWrites(ls, es)[..k];
    ApplyKeys(d, ws);
    forall b | b in d && (!InLog(ls, b) || b == ls)
      ensures Apply(d, ws)[b] == d[b]
    {
      ApplyMisses(d, ws, b);
    }
    forall i | 0 <= i < k
      ensures ls + 1 + i in Apply(d, ws) && Apply(d, ws)[ls + 1 + i] == es[i].data
    {
      ApplyLast(d, ws, i);
    }
  }

  lemma AfterCommitIs(d: Disk, ls: nat, es: seq<Write>)
    requires Recoverable(d, ls) && d[ls] == ZeroBlock() && TxOk(d, ls, es)
    ensures var e := AfterCommit(d, ls, es);
      && Layout(e, ls) && SameOffLog(ls, d, e) && e[ls] == Committed(ZeroBlock(), es)
      && forall i :: 0 <= i < |es| ==> e[ls + 1 + i] == es[i].data
  {
    var ws := LogWrites(ls, es);
    LogWritesStay(d, ls, es, |es|);
    assert ws[..|es|] == ws;
    assert CommitPlan(d, ls, es)[..|es|] == ws;
  }

  // Right after the commit-block write, recovery would install exactly `es`.
  lemma CommittedDisk(d: Disk, ls: nat, es: seq<Write>)
    requires Recoverable(d, ls) && d[ls] == ZeroBlock() && TxOk(d, ls, es)
    ensures Recoverable(AfterCommit(d, ls, es), ls) && SameOffLog(ls, d, AfterCommit(d, ls, es))
    ensures RecoverPlan(AfterCommit(d, ls, es), ls) == es + [Write(ls, ZeroBlock())]
  {
    AfterCommitIs(d, ls, es);
    CommittedNames(es);
    var e := AfterCommit(d, ls, es);
    var cb := Decode(e[ls]);
    forall i | 0 <= i < |es|
      ensures Target(e, ls, cb.dst[i])
    {
      assert Target(d, ls, es[i].block);
    }
    assert Installs(e, ls, cb.dst, |es|) == es;
  }

  // Installing leaves the log region alone.
  lemma InstallsStay(d: Disk, ls: nat, cb: CommitBlock, k: nat)
    requires Layout(d, ls) && Installable(d, ls, cb) && k <= cb.size
    ensures var e := Apply(d, Installs(d, ls, cb.dst, k));
      e.Keys == d.Keys && forall b :: InLog(ls, b) ==> e[b] == d[b]
  {
    var ws := Installs(d, ls, cb.dst, k);
    assert forall i :: 0 <= i < k ==> Target(d, ls, ws[i].block);
    ApplyKeys(d, ws);
    forall b | InLog(ls, b)
      ensures Apply(d, ws)[b] == d[b]
    {
      ApplyMisses(d, ws, b);
    }
  }

  // A prefix of recovery short of the final clear leaves the log as it was,
  // so the next recovery has the same plan.
  lemma SamePlan(d: Disk, ls: nat, k: nat)
    requires Recoverable(d, ls) && Decode(d[ls]).flag == 1 && k <= Decode(d[ls]).size
    ensures var e := Apply(d, Installs(d, ls, Decode(d[ls]).dst, k));
      Recoverable(e, ls) && RecoverPlan(e, ls) == RecoverPlan(d, ls)
  {
    hide Apply, Decode;
    var cb := Decode(d[ls]);
    InstallsStay(d, ls, cb, k);
    var e := Apply(d, Installs(d, ls, cb.dst, k));
    assert InLog(ls, ls);
    forall i | 0 <= i < cb.size
      ensures Target(e, ls, cb.dst[i])
    {
      assert Target(d, ls, cb.dst[i]);
    }
    assert Installs(e, ls, cb.dst, cb.size) == Installs(d, ls, cb.dst, cb.size);
  }

  lemma ClearedDisk(d: Disk, ls: nat)
    requires Layout(d, ls)
    ensures Recoverable(d[ls := ZeroBlock()], ls) && RecoverPlan(d[ls := ZeroBlock()], ls) == []
  {
    DecodeZero();
    assert InLog(ls, ls);
  }

  // Any prefix of a recovery leaves a disk that recovery can start again from, and
  // finishing that recovery gives what finishing the first one would have given.
  lemma CutRecovery(d: Disk, ls: nat, k: nat)
    requires Recoverable(d, ls)
    ensures Recoverable(PartRecovered(d, ls, k), ls)
    ensures Recovered(PartRecovered(d, ls, k), ls) == Recovered(d, ls)
  {
    if Decode(d[ls]).flag == 1 {
      if k <= Decode(d[ls]).size { CutInstalls(d, ls, k); } else { WholeRecovery(d, ls, k); }
    } else {
      assert RecoverPlan(d, ls) == [];
    }
  }

  lemma CutInstalls(d: Disk, ls: nat, k: nat)
    requires Recoverable(d, ls) && Decode(d[ls]).flag == 1 && k <= Decode(d[ls]).size
    ensures Recoverable(PartRecovered(d, ls, k), ls)
    ensures Recovered(PartRecovered(d, ls, k), ls) == Recovered(d, ls)
  {
    var plan := RecoverPlan(d, ls);
    SamePlan(d, ls, k);
    assert plan[..k] == Installs(d, ls, Decode(d[ls]).dst, k);
    Replay(d, plan, k);
  }

  lemma WholeRecovery(d: Disk, ls: nat, k: nat)
    requires Recoverable(d, ls) && Decode(d[ls]).flag == 1 && k > Decode(d[ls]).size
    ensures Recoverable(PartRecovered(d, ls, k), ls)
    ensures Recovered(PartRecovered(d, ls, k), ls) == Recovered(d, ls)
  {
    var cb, plan := Decode(d[ls]), RecoverPlan(d, ls);
    var e := Apply(d, Installs(d, ls, cb.dst, cb.size));
    InstallsStay(d, ls, cb, cb.size);
    ClearedDisk(e, ls);
    assert plan[..|plan| - 1] == Installs(d, ls, cb.dst, cb.size);
    assert Cut(plan, k) == plan;
    assert Recovered(d, ls) == e[ls := ZeroBlock()];
  }

  lemma {:induction false} RebootsKeepOutcome(d: Disk, ls: nat, ks: seq<nat>)
    requires Recoverable(d, ls)
    ensures Recovered(Reboots(d, ls, ks), ls) == Recovered(d, ls)
    decreases |ks|
  {
    if ks != [] {
      CutRecovery(d, ls, ks[0]);
      RebootsKeepOutcome(PartRecovered(d, ls, ks[0]), ls, ks[1..]);
    }
  }

  // The outcome of a transaction: all of its writes or none, and an idle log.
  predicate Outcome(ls: nat, d: Disk, es: seq<Write>, committed: bool, r: Disk) {
    && SameOffLog(ls, r, if committed then Apply(d, es) else d)
    && ls in r && r[ls] == ZeroBlock()
  }

  lemma InstallOutcome(d: Disk, ls: nat, es: seq<Write>)
    requires Recoverable(d, ls) && d[ls] == ZeroBlock() && TxOk(d, ls, es)
    ensures Recoverable(AfterCommit(d, ls, es), ls)
    ensures Outcome(ls, d, es, true, Recovered(AfterCommit(d, ls, es), ls))
  {
    CommittedDisk(d, ls, es);
    var e := AfterCommit(d, ls, es);
    var plan := RecoverPlan(e, ls);
    assert plan[..|plan| - 1] == es;
    ApplySameOffLog(ls, e, d, es);
    assert Misses(es, ls) by {
      forall i | 0 <= i < |es| ensures es[i].block != ls { assert Target(d, ls, es[i].block); }
    }
    ApplyMisses(e, es, ls);
    assert Recovered(e, ls) == Apply(e, es)[ls := ZeroBlock()];
  }

  // ---- crash atomicity ----

  lemma StoppedEarly(d: Disk, ls: nat, es: seq<Write>, k: nat)
    requires Recoverable(d, ls) && d[ls] == ZeroBlock() && TxOk(d, ls, es) && k <= |es|
    ensures Recoverable(Apply(d, LogWrites(ls, es)[..k]), ls)
    ensures Outcome(ls, d, es, false, Recovered(Apply(d, LogWrites(ls, es)[..k]), ls))
  {
    LogWritesStay(d, ls, es, k);
    DecodeZero();
  }

  lemma StoppedLate(d: Disk, ls: nat, es: seq<Write>, k: nat)
    requires Recoverable(d, ls) && d[ls] == ZeroBlock() && TxOk(d, ls, es)
    ensures Recoverable(AfterCommit(d, ls, es), ls)
    ensures Recoverable(PartRecovered(AfterCommit(d, ls, es), ls, k), ls)
    ensures Outcome(ls, d, es, true, Recovered(PartRecovered(AfterCommit(d, ls, es), ls, k), ls))
  {
    InstallOutcome(d, ls, es);
    CutRecovery(AfterCommit(d, ls, es), ls, k);
  }

  lemma CutSplit(ws: seq<Write>, vs: seq<Write>, k: nat)
    ensures k <= |ws| ==> Cut(ws + vs, k) == ws[..k]
    ensures k > |ws| ==> Cut(ws + vs, k) == ws + Cut(vs, k - |ws|)
  {
  }

  // The disk when a transaction stops after k of its writes.
  function StoppedAt(d: Disk, ls: nat, es: seq<Write>, k: nat): Disk
    requires Recoverable(d, ls) && d[ls] == ZeroBlock() && TxOk(d, ls, es)
  {
    Apply(d, Cut(TxPlan(d, ls, es), k))
  }

  // The k writes end either in the log, or behind the commit block.
  lemma StoppedWhere(d: Disk, ls: nat, es: seq<Write>, k: nat)
    requires Recoverable(d, ls) && d[ls] == ZeroBlock() && TxOk(d, ls, es)
    ensures k <= |es| ==> StoppedAt(d, ls, es, k) == Apply(d, LogWrites(ls, es)[..k])
    ensures k > |es| ==>
      && Recoverable(AfterCommit(d, ls, es), ls)
      && StoppedAt(d, ls, es, k) == PartRecovered(AfterCommit(d, ls, es), ls, k - |es| - 1)
  {
    CommittedDisk(d, ls, es);
    var commit := CommitPlan(d, ls, es);
    var recovery := RecoverPlan(AfterCommit(d, ls, es), ls);
    CutSplit(commit, recovery, k);
    if k <= |es| {
      assert commit[..k] == LogWrites(ls, es)[..k];
    } else {
      assert Cut(commit + recovery, k) == commit + Cut(recovery, k - |commit|);
      ApplyAppend(d, commit, Cut(recovery, k - |commit|));
    }
  }

  // Stop a transaction after any number k of its writes, then let any number of
  // recoveries crash as well: once a recovery completes, the disk outside the log is
  // the old disk if the commit-block write (number |es|) was not among the k, and
  // the old disk with all of `es` applied in order if it was.
  lemma CrashAtomicity(d: Disk, ls: nat, es: seq<Write>, k: nat, ks: seq<nat>)
    requires Recoverable(d, ls) && d[ls] == ZeroBlock() && TxOk(d, ls, es)
    ensures Recoverable(StoppedAt(d, ls, es, k), ls)
    ensures Outcome(ls, d, es, k > |es|, Recovered(Reboots(StoppedAt(d, ls, es, k), ls, ks), ls))
  {
    hide Apply, TxPlan, StoppedAt, PartRecovered, Recovered, Recoverable, Reboots, LogWrites;
    StoppedWhere(d, ls, es, k);
    if k <= |es| { StoppedEarly(d, ls, es, k); } else { StoppedLate(d, ls, es, k - |es| - 1); }
    RebootsKeepOutcome(StoppedAt(d, ls, es, k), ls, ks);
  }

  // ---- any number of transactions, each with its own crashes ----

  // `stop` writes of the transaction happen; then recoveries that crash as `reboots`
  // says; then one that completes.
  datatype Attempt = Attempt(es: seq<Write>, stop: nat, reboots: seq<nat>)

  // What the first n attempts promise: each committed one in full, in order.
  function Durable(d: Disk, todo: seq<Attempt>, n: nat): Disk
    requires n <= |todo|
  {
    if n == 0 then d
    else if todo[n - 1].stop > |todo[n - 1].es| then Apply(Durable(d, todo, n - 1), todo[n - 1].es)
    else Durable(d, todo, n - 1)
  }

  // The attempt `a`, begun on a disk with an idle log, ends with the disk `e`.
  ghost predicate AttemptEnds(d: Disk, ls: nat, a: Attempt, e: Disk) {
    && Recoverable(d, ls) && d[ls] == ZeroBlock() && TxOk(d, ls, a.es)
    && Recoverable(StoppedAt(d, ls, a.es, a.stop), ls)
    && Recovered(Reboots(StoppedAt(d, ls, a.es, a.stop), ls, a.reboots), ls) == e
  }

  // `ds` are the disks at the quiet points of a run.
  ghost predicate Run(ls: nat, todo: seq<Attempt>, ds: seq<Disk>) {
    && |ds| == |todo| + 1
    && Recoverable(ds[0], ls) && ds[0][ls] == ZeroBlock()
    && forall i :: 0 <= i < |todo| ==> AttemptEnds(ds[i], ls, todo[i], ds[i + 1])
  }

  lemma {:induction false} ApplySameOffLog(ls: nat, d: Disk, e: Disk, es: seq<Write>)
    requires SameOffLog(ls, d, e)
    ensures SameOffLog(ls, Apply(d, es), Apply(e, es))
  {
    if es != [] { ApplySameOffLog(ls, d, e, es[..|es| - 1]); }
  }

  lemma AttemptOutcome(d: Disk, ls: nat, a: Attempt, e: Disk)
    requires AttemptEnds(d, ls, a, e)
    ensures Outcome(ls, d, a.es, a.stop > |a.es|, e)
  {
    CrashAtomicity(d, ls, a.es, a.stop, a.reboots);
  }

  lemma {:induction false} OutcomesAreDurable(ls: nat, todo: seq<Attempt>, ds: seq<Disk>, n: nat)
    requires |ds| == |todo| + 1 && n <= |todo|
    requires forall i :: 0 <= i < n ==> Outcome(ls, ds[i], todo[i].es, todo[i].stop > |todo[i].es|, ds[i + 1])
    ensures SameOffLog(ls, ds[n], Durable(ds[0], todo, n))
  {
    if n > 0 {
      OutcomesAreDurable(ls, todo, ds, n - 1);
      ApplySameOffLog(ls, ds[n - 1], Durable(ds[0], todo, n - 1), todo[n - 1].es);
    }
  }

  // Over any run, the disk outside the log holds exactly the committed transactions.
  lemma RunIsDurable(ls: nat, todo: seq<Attempt>, ds: seq<Disk>)
    requires Run(ls, todo, ds)
    ensures SameOffLog(ls, ds[|todo|], Durable(ds[0], todo, |todo|))
    ensures ls in ds[|todo|] && ds[|todo|][ls] == ZeroBlock()
  {
    forall i | 0 <= i < |todo|
      ensures Outcome(ls, ds[i], todo[i].es, todo[i].stop > |todo[i].es|, ds[i + 1])
    {
      AttemptOutcome(ds[i], ls, todo[i], ds[i + 1]);
    }
    OutcomesAreDurable(ls, todo, ds, |todo|);
  }

  // ---- the bound is real ----

  // A 40th entry's log block is the first block past the region (the bitmap), so
  // even a transaction that never commits changes a block outside the log.
  lemma FortyEntriesSpill(d: Disk, ls: nat, es: seq<Write>)
    requires Layout(d, ls) && |es| == LOG_BLOCKS
    requires ls + LOG_BLOCKS in d && d[ls + LOG_BLOCKS] != es[MAX_ENTRIES].data
    ensures !SameOffLog(ls, d, Apply(d, LogWrites(ls, es)))
  {
    var ws := LogWrites(ls, es);
    ApplyLast(d, ws, MAX_ENTRIES);
  }

  // ---- the same writes, one at a time ----

  // Where a recovery that stops after k writes leaves the disk.
  lemma RecoveryPrefix(d: Disk, ls: nat, k: nat)
    requires Recoverable(d, ls) && Decode(d[ls]).flag == 1 && k <= Decode(d[ls]).size + 1
    ensures |RecoverPlan(d, ls)| == Decode(d[ls]).size + 1
    ensures k <= Decode(d[ls]).size ==>
      Apply(d, Cut(RecoverPlan(d, ls), k)) == Apply(d, Installs(d, ls, Decode(d[ls]).dst, k))
    ensures k == Decode(d[ls]).size + 1 ==>
      Apply(d, Cut(RecoverPlan(d, ls), k)) == Apply(d, Installs(d, ls, Decode(d[ls]).dst, k - 1))[ls := ZeroBlock()]
  {
    hide Apply, Decode, Target;
    var cb, plan := Decode(d[ls]), RecoverPlan(d, ls);
    if k <= cb.size {
      assert Cut(plan, k) == Installs(d, ls, cb.dst, k);
    } else {
      assert Cut(plan, k) == plan;
      ApplySnoc(d, Installs(d, ls, cb.dst, cb.size), Write(ls, ZeroBlock()));
    }
  }

  lemma NothingToRecover(d: Disk, ls: nat)
    requires Recoverable(d, ls) && Decode(d[ls]).flag != 1
    ensures RecoverPlan(d, ls) == [] && Apply(d, Cut(RecoverPlan(d, ls), 0)) == d
  {
  }

  lemma NoInstalls(d: Disk, ls: nat, dst: seq<word>)
    requires Layout(d, ls) && MAX_ENTRIES <= |dst|
    ensures Apply(d, Installs(d, ls, dst, 0)) == d
  {
  }

  // One more install: its source is still the log's, its target still a target.
  lemma InstallsGrow(d: Disk, ls: nat, cb: CommitBlock, n: nat, e: Disk)
    requires Layout(d, ls) && Installable(d, ls, cb) && n < cb.size
    requires e == Apply(d, Installs(d, ls, cb.dst, n))
    ensures ls + 1 + n in e && Target(e, ls, cb.dst[n])
    ensures Apply(d, Installs(d, ls, cb.dst, n + 1)) == e[cb.dst[n] := e[ls + 1 + n]]
  {
    hide Apply;
    InstallsStay(d, ls, cb, n);
    assert InLog(ls, ls + 1 + n);
    assert Target(d, ls, cb.dst[n]);
    ApplySnoc(d, Installs(d, ls, cb.dst, n), Write(cb.dst[n], d[ls + 1 + n]));
  }

  lemma InLogAt(ls: nat, n: nat)
    requires n < MAX_ENTRIES
    ensures InLog(ls, ls + 1 + n)
  {
  }

  lemma SameKeys(ls: nat, d: Disk, e: Disk)
    requires SameOffLog(ls, d, e)
    ensures d.Keys == e.Keys
  {
  }

  lemma LogWritesGrow(d: Disk, ls: nat, es: seq<Write>, n: nat, e: Disk)
    requires Layout(d, ls) && n < |es| <= MAX_ENTRIES
    requires e == Apply(d, LogWrites(ls, es)[..n])
    ensures ls + 1 + n in e && Apply(d, LogWrites(ls, es)[..n + 1]) == e[ls + 1 + n := es[n].data]
  {
    hide Apply, LogWrites, SameOffLog, InLog;
    LogWritesStay(d, ls, es, n);
    assert InLog(ls, ls + 1 + n) by { InLogAt(ls, n); }
    assert ls + 1 + n in e by { SameKeys(ls, d, e); }
    var ws := LogWrites(ls, es);
    assert ws[..n + 1] == ws[..n] + [Write(ls + 1 + n, es[n].data)];
    ApplySnoc(d, ws[..n], Write(ls + 1 + n, es[n].data));
  }

  lemma NoLogWrites(d: Disk, ls: nat, es: seq<Write>)
    ensures Apply(d, LogWrites(ls, es)[..0]) == d
  {
  }

  lemma TxFits(d: Disk, ls: nat, es: seq<Write>)
    requires TxOk(d, ls, es)
    ensures Fits(es)
  {
    forall i | 0 <= i < |es| ensures es[i].block < 0x1_0000_0000 { assert Target(d, ls, es[i].block); }
  }

  // The commit-block write, and what the recovery after it will find.
  lemma CommitWritten(d: Disk, ls: nat, es: seq<Write>, e: Disk)
    requires Recoverable(d, ls) && d[ls] == ZeroBlock() && TxOk(d, ls, es)
    requires e == Apply(d, LogWrites(ls, es)[..|es|])
    ensures ls in e && Whole(d[ls]) && Fits(es)
    ensures e[ls := Encode(Fill(Decode(d[ls]), es, |es|).(flag := 1))] == AfterCommit(d, ls, es)
  {
    hide Apply, Decode, Encode, Fill, ZeroBlock;
    TxFits(d, ls, es);
    LogWritesStay(d, ls, es, |es|);
    assert LogWrites(ls, es)[..|es|] == LogWrites(ls, es);
    ApplySnoc(d, LogWrites(ls, es), Write(ls, Committed(d[ls], es)));
  }

  lemma CommitNames(d: Disk, ls: nat, es: seq<Write>)
    requires Recoverable(d, ls) && d[ls] == ZeroBlock() && TxOk(d, ls, es)
    ensures Recoverable(AfterCommit(d, ls, es), ls)
    ensures |RecoverPlan(AfterCommit(d, ls, es), ls)| == |es| + 1
    ensures Decode(AfterCommit(d, ls, es)[ls]).size == |es| && Decode(AfterCommit(d, ls, es)[ls]).flag == 1
    ensures forall j :: 0 <= j < |es| ==> Decode(AfterCommit(d, ls, es)[ls]).dst[j] == es[j].block
  {
    hide Decode, Encode, Fill, Apply;
    AfterCommitIs(d, ls, es);
    CommittedNames(es);
    CommittedDisk(d, ls, es);
  }

  // A transaction whose writes all complete.
  lemma TxDone(d: Disk, ls: nat, es: seq<Write>)
    requires Recoverable(d, ls) && d[ls] == ZeroBlock() && TxOk(d, ls, es)
    ensures var e := Apply(d, Cut(TxPlan(d, ls, es), |TxPlan(d, ls, es)|));
      Recoverable(e, ls) && ls in e && e[ls] == ZeroBlock() && SameOffLog(ls, e, Apply(d, es))
  {
    hide Apply, Decode;
    TxPrefix(d, ls, es, 2 * |es| + 2);
    InstallOutcome(d, ls, es);
    CommitNames(d, ls, es);
    var e := AfterCommit(d, ls, es);
    assert Cut(RecoverPlan(e, ls), |es| + 1) == RecoverPlan(e, ls);
    OutcomeRecoverable(d, ls, es, true, Recovered(e, ls));
  }

  lemma OutcomeRecoverable(d: Disk, ls: nat, es: seq<Write>, committed: bool, e: Disk)
    requires Recoverable(d, ls) && TxOk(d, ls, es) && Outcome(ls, d, es, committed, e)
    ensures Recoverable(e, ls) && e[ls] == ZeroBlock()
  {
    hide Apply;
    forall i | 0 <= i < |es| ensures es[i].block in d { assert Target(d, ls, es[i].block); }
    ApplyKeys(d, es);
    DecodeZero();
  }

  // How far a whole transaction gets, from how far its parts get.
  lemma TxPrefix(d: Disk, ls: nat, es: seq<Write>, k: nat)
    requires Recoverable(d, ls) && d[ls] == ZeroBlock() && TxOk(d, ls, es)
    ensures |TxPlan(d, ls, es)| == 2 * |es| + 2
    ensures k <= |es| ==> Apply(d, Cut(TxPlan(d, ls, es), k)) == Apply(d, LogWrites(ls, es)[..k])
    ensures k > |es| ==>
      && Recoverable(AfterCommit(d, ls, es), ls)
      && Apply(d, Cut(TxPlan(d, ls, es), k)) ==
         Apply(AfterCommit(d, ls, es), Cut(RecoverPlan(AfterCommit(d, ls, es), ls), k - |es| - 1))
  {
    hide Decode, Encode, Fill, Apply;
    StoppedWhere(d, ls, es, k);
    CommittedDisk(d, ls, es);
  }
}
