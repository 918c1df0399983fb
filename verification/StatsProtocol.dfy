// Many processes updating one statistics file: open, lock, read, write, close, in every interleaving.
module StatsProtocol {
  import opened Common
  import opened Bytes
  import opened Stats

  // ----- operations ------------------------------------------------------------------------------

  datatype Op =
    | Update(stat: nat, size: nat, numfiles: nat)
    | SetSizes(numFiles: nat, totalSize: nat)
    | SetLimits(maxfiles: int, maxsize: int)
    | ZeroStats

  predicate ValidOp(op: Op) { op.Update? ==> op.stat < STATS_END }

  // The entries of stats_info with FLAG_NOZERO, and entry 0, which is not listed there.
  predicate Kept(k: nat) {
    k == 0 || k == STATS_NUMFILES || k == STATS_TOTALSIZE || k == STATS_MAXFILES || k == STATS_MAXSIZE
  }

  function AddTo(c: Counters, k: nat, n: nat): Counters
    requires k < STATS_END
  {
    c[k := Wrap(c[k] + n)]
  }

  // A limit argument is shared out over 16 directories by a division that truncates toward zero; -1
  // leaves the counter alone, and so do the arguments that the division takes to -1.
  function Share(limit: int): int {
    if limit == -1 then -1 else Quotient(limit, 16)
  }

  // A sixteenth, off by less than one and toward zero.
  lemma ShareIsASixteenth(limit: int)
    requires limit != -1
    ensures -16 < limit - 16 * Share(limit) < 16
    ensures (limit >= 0 ==> 0 <= 16 * Share(limit) <= limit) && (limit <= 0 ==> limit <= 16 * Share(limit) <= 0)
  {
  }

  function NewLimit(limit: int, current: Word): Word {
    if Share(limit) == -1 then current else Share(limit) % WORD_MOD
  }

  // What an operation makes of the counters it has read.
  function ApplyOp(c: Counters, op: Op): Counters
    requires ValidOp(op)
  {
    match op
    case Update(stat, size, numfiles) =>
      var c1 := AddTo(c, stat, 1);
      if stat == STATS_TOCACHE then AddTo(AddTo(c1, STATS_NUMFILES, numfiles), STATS_TOTALSIZE, size) else c1
    case SetSizes(n, t) => c[STATS_NUMFILES := Wrap(n)][STATS_TOTALSIZE := Wrap(t)]
    case SetLimits(f, s) =>
      c[STATS_MAXFILES := NewLimit(f, c[STATS_MAXFILES])][STATS_MAXSIZE := NewLimit(s, c[STATS_MAXSIZE])]
    case ZeroStats => seq(STATS_END, k requires 0 <= k < STATS_END => if Kept(k) then c[k] else 0)
  }

  // What each operation changes, by the positions in the file: an update its own counter, and for a file
  // put into the cache also the number of files and the size.
  lemma {:induction false} UpdateCounts(c: Counters, stat: nat, size: nat, numfiles: nat, k: nat)
    requires stat < STATS_END && k < STATS_END
    ensures ApplyOp(c, Update(stat, size, numfiles))[k]
         == Wrap(c[k] + (if k == stat then 1 else 0) + (if stat == 4 && k == 11 then numfiles else 0)
                 + if stat == 4 && k == 12 then size else 0)
  {
  }

  lemma {:induction false} LimitsAreStored(c: Counters, maxfiles: nat, maxsize: nat, k: nat)
    requires k < STATS_END && maxfiles < 0x1_0000_0000 && maxsize < 0x1_0000_0000
    ensures ApplyOp(c, SetLimits(maxfiles, maxsize))[k] == if k == 13 then maxfiles / 16 else if k == 14 then maxsize / 16 else c[k]
    ensures ApplyOp(c, SetLimits(-1, -1)) == c
  {
  }

  predicate ValidLog(log: seq<Op>) { forall i :: 0 <= i < |log| ==> ValidOp(log[i]) }

  // The counters after a series of operations done one after the other.
  function ApplyAll(c: Counters, log: seq<Op>): Counters
    requires ValidLog(log)
  {
    if log == [] then c else ApplyOp(ApplyAll(c, log[..|log| - 1]), log[|log| - 1])
  }

  // ----- processes ---------------------------------------------------------------------------------

  // Where a process stands: opened the file; past the lock call, which may have failed; has read its
  // snapshot, when `at` operations had been written; has written.
  datatype Pc =
    | Idle
    | Opened(op: Op)
    | Entered(op: Op, locked: bool)
    | HasRead(op: Op, locked: bool, snapshot: seq<Word>, at: nat)
    | Wrote(op: Op, locked: bool)

  datatype State = State(file: seq<Byte>, holder: Option<nat>, procs: seq<Pc>, log: seq<Op>)

  datatype Step = Begin(p: nat, op: Op) | Lock(p: nat) | LockFails(p: nat) | Read(p: nat) | Write(p: nat) | Close(p: nat)

  predicate Enabled(s: State, t: Step) {
    t.p < |s.procs|
    && match t
       case Begin(p, op) => s.procs[p].Idle? && ValidOp(op)
       case Lock(p) => s.procs[p].Opened? && s.holder == None
       case LockFails(p) => s.procs[p].Opened?
       case Read(p) => s.procs[p].Entered?
       case Write(p) => s.procs[p].HasRead? && ValidOp(s.procs[p].op) && |s.procs[p].snapshot| == STATS_END
       case Close(p) => s.procs[p].Wrote?
  }

  // An update gives up when the lock call fails; the other operations ignore its result. The log
  // records the operations in the order in which they were written.
  function Do(s: State, t: Step): State
    requires Enabled(s, t)
  {
    var pc := s.procs[t.p];
    match t
    case Begin(p, op) => s.(procs := s.procs[p := Opened(op)])
    case Lock(p) => s.(holder := Some(p), procs := s.procs[p := Entered(pc.op, true)])
    case LockFails(p) => s.(procs := s.procs[p := if pc.op.Update? then Idle else Entered(pc.op, false)])
    case Read(p) => s.(procs := s.procs[p := HasRead(pc.op, pc.locked, ReadBack(s.file), |s.log|)])
    case Write(p) =>
      State(Overwritten(s.file, StatsText(ApplyOp(pc.snapshot, pc.op))), s.holder,
            s.procs[p := Wrote(pc.op, pc.locked)], s.log + [pc.op])
    case Close(p) => s.(holder := if pc.locked then None else s.holder, procs := s.procs[p := Idle])
  }

  predicate Initial(s: State) {
    s.holder == None && s.log == [] && forall p :: 0 <= p < |s.procs| ==> s.procs[p].Idle?
  }

  // ----- runs --------------------------------------------------------------------------------------

  predicate Run(s: State, steps: seq<Step>)
    decreases |steps|
  {
    steps == [] || (Enabled(s, steps[0]) && Run(Do(s, steps[0]), steps[1..]))
  }

  function End(s: State, steps: seq<Step>): State
    requires Run(s, steps)
    decreases |steps|
  {
    if steps == [] then s else End(Do(s, steps[0]), steps[1..])
  }

  // Every operation that goes on has the lock.
  predicate Locked(s: State) {
    forall p :: 0 <= p < |s.procs| ==>
      (s.procs[p].Entered? || s.procs[p].HasRead? || s.procs[p].Wrote? ==> s.procs[p].locked)
  }

  predicate AlwaysLocked(s: State, steps: seq<Step>)
    requires Run(s, steps)
    decreases |steps|
  {
    Locked(s) && (steps == [] || AlwaysLocked(Do(s, steps[0]), steps[1..]))
  }

  // ----- one counter -------------------------------------------------------------------------------

  // Does the operation set counter k, whatever it has read? If so, to what; if not, what does it add?
  predicate Sets(op: Op, k: nat) {
    match op
    case Update(_, _, _) => false
    case SetSizes(_, _) => k == STATS_NUMFILES || k == STATS_TOTALSIZE
    case SetLimits(f, s) => (k == STATS_MAXFILES && Share(f) != -1) || (k == STATS_MAXSIZE && Share(s) != -1)
    case ZeroStats => !Kept(k)
  }

  function Target(op: Op, k: nat): Word {
    match op
    case SetSizes(n, t) => if k == STATS_NUMFILES then Wrap(n) else Wrap(t)
    case SetLimits(f, s) => (if k == STATS_MAXFILES then Share(f) else Share(s)) % WORD_MOD
    case _ => 0
  }

  function Gain(op: Op, k: nat): nat {
    if !op.Update? then 0
    else
      (if op.stat == k then 1 else 0)
      + (if op.stat == STATS_TOCACHE && k == STATS_NUMFILES then op.numfiles else 0)
      + (if op.stat == STATS_TOCACHE && k == STATS_TOTALSIZE then op.size else 0)
  }

  // Every operation works on each counter by itself.
  lemma {:induction false} OneCounter(c: Counters, op: Op, k: nat)
    requires ValidOp(op) && k < STATS_END
    ensures ApplyOp(c, op)[k] == if Sets(op, k) then Target(op, k) else Wrap(c[k] + Gain(op, k))
  {
  }

  // What a series of operations does to a counter: it sets it last to base, if at all, and then adds gain.
  datatype Net = Net(base: Option<Word>, gain: nat)

  function NetOf(log: seq<Op>, k: nat): Net {
    if log == [] then Net(None, 0)
    else
      var n, op := NetOf(log[..|log| - 1], k), log[|log| - 1];
      if Sets(op, k) then Net(Some(Target(op, k)), 0) else Net(n.base, n.gain + Gain(op, k))
  }

  function NetValue(n: Net, v: Word): Word { Wrap((if n.base.Some? then n.base.value else v) + n.gain) }

  lemma {:induction false} CounterAfter(c: Counters, log: seq<Op>, k: nat)
    requires ValidLog(log) && k < STATS_END
    ensures ApplyAll(c, log)[k] == NetValue(NetOf(log, k), c[k])
  {
    if log != [] {
      var front, op := log[..|log| - 1], log[|log| - 1];
      CounterAfter(c, front, k);
      OneCounter(ApplyAll(c, front), op, k);
      NetGrows(NetOf(front, k), c[k], Gain(op, k));
    }
  }

  lemma NetGrows(n: Net, v: Word, gain: nat)
    ensures Wrap(NetValue(n, v) + gain) == NetValue(Net(n.base, n.gain + gain), v)
  {
    WrapAdd((if n.base.Some? then n.base.value else v) + n.gain, gain);
  }

  lemma {:induction false} ApplyConcat(c: Counters, a: seq<Op>, b: seq<Op>)
    requires ValidLog(a) && ValidLog(b)
    ensures ValidLog(a + b) && ApplyAll(c, a + b) == ApplyAll(ApplyAll(c, a), b)
    decreases |b|
  {
    if b == [] {
      assert a + b == a;
    } else {
      var front := b[..|b| - 1];
      ApplyConcat(c, a, front);
      assert (a + b)[..|a + b| - 1] == a + front;
    }
  }

  lemma {:induction false} ApplyOneMore(c: Counters, log: seq<Op>, op: Op)
    requires ValidLog(log) && ValidOp(op)
    ensures ValidLog(log + [op]) && ApplyAll(c, log + [op]) == ApplyOp(ApplyAll(c, log), op)
  {
    assert (log + [op])[..|log|] == log;
  }

  // ----- stale snapshots -----------------------------------------------------------------------------

  // A counter of value v is the same after the operations: they add a multiple of 2^32 to it, or set it
  // and add what takes it back to v.
  predicate Unmoved(n: Net, v: Word) {
    if n.base.None? then n.gain % WORD_MOD == 0 else Wrap(n.base.value + n.gain) == v
  }

  lemma UnmovedKeeps(n: Net, v: Word)
    ensures Unmoved(n, v) <==> NetValue(n, v) == v
  {
    WrapAdd(n.gain, v);
    WrapCancels(n.gain, v);
  }

  lemma WrapCancels(g: nat, v: Word)
    ensures Wrap(v + g) == v <==> g % WORD_MOD == 0
  {
  }

  lemma WrapIsInjective(a: Word, b: Word, g: nat)
    requires Wrap(a + g) == Wrap(b + g)
    ensures a == b
  {
  }

  // The operation does not care about the operations written since it read its snapshot: each of them
  // leaves the counters that it does not set itself.
  predicate Harmless(op: Op, snapshot: Counters, since: seq<Op>) {
    forall k :: 0 <= k < STATS_END ==> Sets(op, k) || Unmoved(NetOf(since, k), snapshot[k])
  }

  // Applied to a snapshot and to the counters after the operations since, an operation gives the same
  // exactly when they are harmless.
  lemma {:induction false} StaleOutcome(op: Op, snapshot: Counters, since: seq<Op>)
    requires ValidOp(op) && ValidLog(since)
    ensures ApplyOp(snapshot, op) == ApplyOp(ApplyAll(snapshot, since), op) <==> Harmless(op, snapshot, since)
  {
    var now := ApplyAll(snapshot, since);
    var a, b := ApplyOp(snapshot, op), ApplyOp(now, op);
    forall k | 0 <= k < STATS_END
      ensures a[k] == b[k] <==> Sets(op, k) || Unmoved(NetOf(since, k), snapshot[k])
    {
      OneCounter(snapshot, op, k);
      OneCounter(now, op, k);
      CounterAfter(snapshot, since, k);
      UnmovedKeeps(NetOf(since, k), snapshot[k]);
      if !Sets(op, k) && a[k] == b[k] {
        WrapIsInjective(snapshot[k], now[k], Gain(op, k));
      }
    }
    if Harmless(op, snapshot, since) {
      assert a == b;
    }
  }

  predicate OnlyUpdates(log: seq<Op>) { forall i :: 0 <= i < |log| ==> log[i].Update? }

  function Gained(log: seq<Op>, k: nat): nat {
    if log == [] then 0 else Gained(log[..|log| - 1], k) + Gain(log[|log| - 1], k)
  }

  lemma {:induction false} NetOfUpdates(log: seq<Op>, k: nat)
    requires OnlyUpdates(log)
    ensures NetOf(log, k) == Net(None, Gained(log, k))
  {
    if log != [] {
      NetOfUpdates(log[..|log| - 1], k);
    }
  }

  predicate NothingGained(op: Op, since: seq<Op>) {
    forall k :: 0 <= k < STATS_END && !Sets(op, k) ==> Gained(since, k) % WORD_MOD == 0
  }

  // Among updates only: what they add to the counters that the operation does not set is a multiple of
  // 2^32.
  lemma {:induction false} HarmlessUpdates(op: Op, snapshot: Counters, since: seq<Op>)
    requires OnlyUpdates(since)
    ensures Harmless(op, snapshot, since)
       <==> NothingGained(op, since)
  {
    forall k | 0 <= k < STATS_END
      ensures NetOf(since, k) == Net(None, Gained(since, k))
    {
      NetOfUpdates(since, k);
    }
  }

  // ----- the invariant -----------------------------------------------------------------------------

  predicate InStep(c0: Counters, s: State) { ValidLog(s.log) && ReadBack(s.file) == ApplyAll(c0, s.log) }

  // Every snapshot is what the operations written by then had made.
  predicate Snapshots(c0: Counters, s: State) {
    ValidLog(s.log)
    && (forall p :: 0 <= p < |s.procs| && !s.procs[p].Idle? ==> ValidOp(s.procs[p].op))
    && (forall p :: 0 <= p < |s.procs| && s.procs[p].HasRead? ==>
          s.procs[p].at <= |s.log| && s.procs[p].snapshot == ApplyAll(c0, s.log[..s.procs[p].at]))
  }

  predicate HarmlessWrite(s: State, p: nat)
    requires Enabled(s, Write(p))
  {
    var pc := s.procs[p];
    pc.at <= |s.log| && Harmless(pc.op, pc.snapshot, s.log[pc.at..])
  }

  // A write keeps the file in step with the operations exactly when those written since its snapshot
  // are harmless to it.
  lemma {:induction false} WriteInStep(c0: Counters, s: State, p: nat)
    requires InStep(c0, s) && Snapshots(c0, s) && Enabled(s, Write(p))
    ensures InStep(c0, Do(s, Write(p))) <==> HarmlessWrite(s, p)
  {
    var pc := s.procs[p];
    var past, since := s.log[..pc.at], s.log[pc.at..];
    assert ValidOp(pc.op) && past + since == s.log;
    ApplyConcat(c0, past, since);
    StaleOutcome(pc.op, pc.snapshot, since);
    RoundTrip(ApplyOp(pc.snapshot, pc.op), s.file);
    ApplyOneMore(c0, s.log, pc.op);
  }

  lemma {:induction false} StepKeepsSnapshots(c0: Counters, s: State, t: Step)
    requires InStep(c0, s) && Snapshots(c0, s) && Enabled(s, t)
    ensures Snapshots(c0, Do(s, t)) && (!t.Write? ==> InStep(c0, Do(s, t)))
  {
    var s' := Do(s, t);
    if t.Write? {
      forall p | 0 <= p < |s'.procs| && s'.procs[p].HasRead?
        ensures s'.procs[p].at <= |s'.log| && s'.procs[p].snapshot == ApplyAll(c0, s'.log[..s'.procs[p].at])
      {
        assert s'.log[..s'.procs[p].at] == s.log[..s'.procs[p].at];
      }
    } else if t.Read? {
      assert s.log[..|s.log|] == s.log;
    }
  }

  predicate AlwaysInStep(c0: Counters, s: State, steps: seq<Step>)
    requires Run(s, steps)
    decreases |steps|
  {
    InStep(c0, s) && (steps == [] || AlwaysInStep(c0, Do(s, steps[0]), steps[1..]))
  }

  predicate WritesHarmless(s: State, steps: seq<Step>)
    requires Run(s, steps)
    decreases |steps|
  {
    steps == []
    || ((steps[0].Write? ==> HarmlessWrite(s, steps[0].p)) && WritesHarmless(Do(s, steps[0]), steps[1..]))
  }

  lemma {:induction false} RunInStep(c0: Counters, s: State, steps: seq<Step>)
    requires InStep(c0, s) && Snapshots(c0, s) && Run(s, steps)
    ensures AlwaysInStep(c0, s, steps) <==> WritesHarmless(s, steps)
    decreases |steps|
  {
    if steps != [] {
      var t, s' := steps[0], Do(s, steps[0]);
      StepKeepsSnapshots(c0, s, t);
      if t.Write? {
        WriteInStep(c0, s, t.p);
      }
      if InStep(c0, s') {
        RunInStep(c0, s', steps[1..]);
      }
    }
  }

  // With or without locks: throughout a run the file holds what the operations written so far make of
  // the initial counters one after the other, exactly when every write is harmless.
  lemma {:induction false} InStepExactlyWhenHarmless(s: State, steps: seq<Step>)
    requires Initial(s) && Run(s, steps)
    ensures AlwaysInStep(ReadBack(s.file), s, steps) <==> WritesHarmless(s, steps)
  {
    RunInStep(ReadBack(s.file), s, steps);
  }

  // ----- no lost updates -----------------------------------------------------------------------------

  // No other operation writes between the read of an operation and its write.
  predicate Undisturbed(s: State, steps: seq<Step>)
    requires Run(s, steps)
    decreases |steps|
  {
    steps == []
    || ((steps[0].Write? ==> s.procs[steps[0].p].at == |s.log|) && Undisturbed(Do(s, steps[0]), steps[1..]))
  }

  lemma {:induction false} UndisturbedIsHarmless(s: State, steps: seq<Step>)
    requires Run(s, steps) && Undisturbed(s, steps)
    ensures WritesHarmless(s, steps)
    decreases |steps|
  {
    if steps != [] {
      UndisturbedIsHarmless(Do(s, steps[0]), steps[1..]);
      if steps[0].Write? {
        assert s.log[|s.log|..] == [];
      }
    }
  }

  lemma {:induction false} InStepAtEnd(c0: Counters, s: State, steps: seq<Step>)
    requires Run(s, steps) && AlwaysInStep(c0, s, steps)
    ensures InStep(c0, End(s, steps))
    decreases |steps|
  {
    if steps != [] {
      InStepAtEnd(c0, Do(s, steps[0]), steps[1..]);
    }
  }

  // In every interleaving in which no operation writes between another's read and write, the file holds
  // in the end what the completed operations make of the initial counters one after the other.
  lemma {:induction false} NoLostUpdates(s: State, steps: seq<Step>)
    requires Initial(s) && Run(s, steps) && Undisturbed(s, steps)
    ensures InStep(ReadBack(s.file), End(s, steps))
  {
    UndisturbedIsHarmless(s, steps);
    InStepExactlyWhenHarmless(s, steps);
    InStepAtEnd(ReadBack(s.file), s, steps);
  }

  // ----- the lock --------------------------------------------------------------------------------------

  predicate Inside(pc: Pc) { pc.Entered? || pc.HasRead? || pc.Wrote? }

  // Only the holder is inside, and nobody has written since it read.
  predicate Guarded(s: State) {
    forall p :: 0 <= p < |s.procs| ==>
      (Inside(s.procs[p]) ==> s.holder == Some(p)) && (s.procs[p].HasRead? ==> s.procs[p].at == |s.log|)
  }

  lemma {:induction false} StepKeepsGuarded(s: State, t: Step)
    requires Guarded(s) && Enabled(s, t) && Locked(s) && Locked(Do(s, t))
    ensures Guarded(Do(s, t))
  {
    if t.Write? {
      assert Inside(s.procs[t.p]);
      assert forall q :: 0 <= q < |s.procs| && Inside(s.procs[q]) ==> q == t.p;
    }
  }

  lemma {:induction false} RunKeepsGuarded(s: State, steps: seq<Step>)
    requires Guarded(s) && Run(s, steps) && AlwaysLocked(s, steps)
    ensures Guarded(End(s, steps)) && Undisturbed(s, steps)
    decreases |steps|
  {
    if steps != [] {
      StepKeepsGuarded(s, steps[0]);
      RunKeepsGuarded(Do(s, steps[0]), steps[1..]);
    }
  }

  // When no operation goes on without the lock, none disturbs another.
  lemma {:induction false} LocksPreventDisturbance(s: State, steps: seq<Step>)
    requires Initial(s) && Run(s, steps) && AlwaysLocked(s, steps)
    ensures Undisturbed(s, steps)
  {
    RunKeepsGuarded(s, steps);
  }

  // A process that is inside with the lock is the holder, whatever the others do.
  predicate HoldsLock(pc: Pc) { Inside(pc) && pc.locked }

  predicate Excluding(s: State) { forall p :: 0 <= p < |s.procs| && HoldsLock(s.procs[p]) ==> s.holder == Some(p) }

  lemma {:induction false} StepKeepsExcluding(s: State, t: Step)
    requires Excluding(s) && Enabled(s, t)
    ensures Excluding(Do(s, t))
  {
    if t.Close? {
      assert s.procs[t.p].locked ==> HoldsLock(s.procs[t.p]);
    }
    if t.Read? || t.Write? {
      assert s.procs[t.p].locked ==> HoldsLock(s.procs[t.p]);
    }
  }

  lemma {:induction false} RunKeepsExcluding(s: State, steps: seq<Step>)
    requires Excluding(s) && Run(s, steps)
    ensures Excluding(End(s, steps))
    decreases |steps|
  {
    if steps != [] {
      StepKeepsExcluding(s, steps[0]);
      RunKeepsExcluding(Do(s, steps[0]), steps[1..]);
    }
  }

  // Mutual exclusion, in every interleaving, of those that hold the lock.
  lemma {:induction false} OneHolderAtATime(s: State, steps: seq<Step>, p: nat, q: nat)
    requires Initial(s) && Run(s, steps) && p < |End(s, steps).procs| && q < |End(s, steps).procs|
    requires HoldsLock(End(s, steps).procs[p]) && HoldsLock(End(s, steps).procs[q])
    ensures p == q
  {
    RunKeepsExcluding(s, steps);
  }

  // When no operation goes on without the lock, of all that are inside.
  lemma {:induction false} OneAtATime(s: State, steps: seq<Step>, p: nat, q: nat)
    requires Initial(s) && Run(s, steps) && AlwaysLocked(s, steps)
    requires p < |End(s, steps).procs| && q < |End(s, steps).procs|
    requires Inside(End(s, steps).procs[p]) && Inside(End(s, steps).procs[q])
    ensures p == q
  {
    LockedAtEnd(s, steps);
    OneHolderAtATime(s, steps, p, q);
  }

  lemma {:induction false} LockedAtEnd(s: State, steps: seq<Step>)
    requires Run(s, steps) && AlwaysLocked(s, steps)
    ensures Locked(End(s, steps))
    decreases |steps|
  {
    if steps != [] {
      LockedAtEnd(Do(s, steps[0]), steps[1..]);
    }
  }

  // ----- what the log says about single counters ---------------------------------------------------

  predicate IsEvent(k: nat) { k < STATS_END && (k == 0 || !Kept(k)) }

  // The updates of counter k, and those since the last zeroing.
  function Updates(log: seq<Op>, k: nat): nat {
    if log == [] then 0
    else Updates(log[..|log| - 1], k) + (if log[|log| - 1].Update? && log[|log| - 1].stat == k then 1 else 0)
  }

  function UpdatesSince(log: seq<Op>, k: nat): nat {
    if log == [] || (log[|log| - 1].ZeroStats? && !Kept(k)) then 0
    else UpdatesSince(log[..|log| - 1], k) + (if log[|log| - 1].Update? && log[|log| - 1].stat == k then 1 else 0)
  }

  // Each event counter is its initial value, or 0 when it was zeroed, plus the number of its updates
  // completed since, modulo 2^32.
  lemma {:induction false} EventCounter(c: Counters, log: seq<Op>, k: nat)
    requires ValidLog(log) && IsEvent(k)
    ensures ApplyAll(c, log)[k] == Wrap((if ZeroStats in log && !Kept(k) then 0 else c[k]) + UpdatesSince(log, k))
  {
    CounterAfter(c, log, k);
    NetOfEvent(log, k);
  }

  lemma {:induction false} NetOfEvent(log: seq<Op>, k: nat)
    requires IsEvent(k)
    ensures NetOf(log, k) == Net(if ZeroStats in log && !Kept(k) then Some(0) else None, UpdatesSince(log, k))
  {
    if log != [] {
      NetOfEvent(log[..|log| - 1], k);
      assert log == log[..|log| - 1] + [log[|log| - 1]];
    }
  }

  // The limits are the ones set last.
  function LastLimits(c: Counters, log: seq<Op>): (Word, Word) {
    if log == [] then (c[STATS_MAXFILES], c[STATS_MAXSIZE])
    else
      var (f, s) := LastLimits(c, log[..|log| - 1]);
      var op := log[|log| - 1];
      if op.SetLimits? then
        (NewLimit(op.maxfiles, f), NewLimit(op.maxsize, s))
      else (f, s)
  }

  predicate UpdatesEventsOnly(log: seq<Op>) {
    forall i :: 0 <= i < |log| && log[i].Update? ==> IsEvent(log[i].stat)
  }

  lemma {:induction false} LimitsAreTheLastSet(c: Counters, log: seq<Op>)
    requires ValidLog(log) && UpdatesEventsOnly(log)
    ensures var r := ApplyAll(c, log); (r[STATS_MAXFILES], r[STATS_MAXSIZE]) == LastLimits(c, log)
  {
    if log != [] {
      LimitsAreTheLastSet(c, log[..|log| - 1]);
    }
  }

  // Files and size: the values set last, plus what was cached since.
  function Stored(c: Counters, log: seq<Op>): (nat, nat) {
    if log == [] then (c[STATS_NUMFILES], c[STATS_TOTALSIZE])
    else
      var (n, t) := Stored(c, log[..|log| - 1]);
      var op := log[|log| - 1];
      if op.SetSizes? then (op.numFiles, op.totalSize)
      else if op.Update? && op.stat == STATS_TOCACHE then (n + op.numfiles, t + op.size)
      else (n, t)
  }

  lemma {:induction false} SizesAreTheStored(c: Counters, log: seq<Op>)
    requires ValidLog(log) && UpdatesEventsOnly(log)
    ensures var r := ApplyAll(c, log);
      (r[STATS_NUMFILES], r[STATS_TOTALSIZE]) == (Wrap(Stored(c, log).0), Wrap(Stored(c, log).1))
  {
    if log != [] {
      var front, op := log[..|log| - 1], log[|log| - 1];
      SizesAreTheStored(c, front);
      if op.Update? && op.stat == STATS_TOCACHE {
        WrapAdd(Stored(c, front).0, op.numfiles);
        WrapAdd(Stored(c, front).1, op.size);
      }
    }
  }

  // ----- without the lock ----------------------------------------------------------------------------

  // The updates are of event counters.
  predicate EventUpdates(log: seq<Op>) {
    forall i :: 0 <= i < |log| ==> log[i].Update? && ValidOp(log[i]) && IsEvent(log[i].stat)
  }

  // What updates add: one each to an event counter, files and kilobytes to the sizes, nothing to the limits.
  lemma {:induction false} GainedByUpdates(log: seq<Op>, k: nat)
    requires EventUpdates(log) && k < STATS_END
    ensures IsEvent(k) ==> Gained(log, k) == Updates(log, k)
    ensures k == STATS_MAXFILES || k == STATS_MAXSIZE ==> Gained(log, k) == 0
  {
    if log != [] {
      GainedByUpdates(log[..|log| - 1], k);
    }
  }

  predicate EventsUnmoved(since: seq<Op>) {
    forall k :: 0 <= k < STATS_END && IsEvent(k) ==> Updates(since, k) % WORD_MOD == 0
  }

  predicate SizesUnmoved(since: seq<Op>) {
    Gained(since, STATS_NUMFILES) % WORD_MOD == 0 && Gained(since, STATS_TOTALSIZE) % WORD_MOD == 0
  }

  lemma {:induction false} EventsAreGained(since: seq<Op>)
    requires EventUpdates(since)
    ensures forall k :: 0 <= k < STATS_END && IsEvent(k) ==> Gained(since, k) == Updates(since, k)
    ensures Gained(since, STATS_MAXFILES) == 0 && Gained(since, STATS_MAXSIZE) == 0
  {
    forall k | 0 <= k < STATS_END && IsEvent(k)
      ensures Gained(since, k) == Updates(since, k)
    {
      GainedByUpdates(since, k);
    }
    GainedByUpdates(since, STATS_MAXFILES);
    GainedByUpdates(since, STATS_MAXSIZE);
  }

  lemma {:induction false} GainsUnmoved(op: Op, since: seq<Op>)
    requires EventUpdates(since)
    ensures op.SetSizes? ==> (NothingGained(op, since) <==> EventsUnmoved(since))
    ensures op.SetLimits? ==> (NothingGained(op, since) <==> EventsUnmoved(since) && SizesUnmoved(since))
    ensures op.ZeroStats? ==> (NothingGained(op, since) <==> Updates(since, 0) % WORD_MOD == 0 && SizesUnmoved(since))
  {
    EventsAreGained(since);
    if NothingGained(op, since) {
      assert !op.SetSizes? ==> !Sets(op, STATS_NUMFILES) && !Sets(op, STATS_TOTALSIZE);
      assert !Sets(op, 0);
      forall k | 0 <= k < STATS_END && IsEvent(k) && !op.ZeroStats? && !op.Update?
        ensures Updates(since, k) % WORD_MOD == 0
      {
        assert !Sets(op, k);
      }
    } else {
      var k :| 0 <= k < STATS_END && !Sets(op, k) && Gained(since, k) % WORD_MOD != 0;
      assert IsEvent(k) || k == STATS_NUMFILES || k == STATS_TOTALSIZE || k == STATS_MAXFILES || k == STATS_MAXSIZE;
    }
  }

  // stats_set_sizes, stats_set_limits and stats_zero go on when the lock call fails. With updates written
  // between their read and their write, each loses none exactly when what it does not set has not moved:
  // for the sizes, every event counter was updated a multiple of 2^32 times;
  lemma {:induction false} StaleSizes(op: Op, snapshot: Counters, since: seq<Op>)
    requires op.SetSizes? && EventUpdates(since)
    ensures Harmless(op, snapshot, since) <==> EventsUnmoved(since)
  {
    HarmlessUpdates(op, snapshot, since);
    EventsAreGained(since);
    GainsUnmoved(op, since);
  }

  // for the limits, also files and kilobytes grew by multiples of 2^32;
  lemma {:induction false} StaleLimits(op: Op, snapshot: Counters, since: seq<Op>)
    requires op.SetLimits? && EventUpdates(since)
    ensures Harmless(op, snapshot, since) <==> EventsUnmoved(since) && SizesUnmoved(since)
  {
    HarmlessUpdates(op, snapshot, since);
    EventsAreGained(since);
    GainsUnmoved(op, since);
  }

  // for the zeroing, the sizes and the unlisted counter 0 did.
  lemma {:induction false} StaleZeroing(snapshot: Counters, since: seq<Op>)
    requires EventUpdates(since)
    ensures Harmless(ZeroStats, snapshot, since) <==> Updates(since, 0) % WORD_MOD == 0 && SizesUnmoved(since)
  {
    HarmlessUpdates(ZeroStats, snapshot, since);
    EventsAreGained(since);
    GainsUnmoved(ZeroStats, since);
  }

  // stats_set_sizes goes on when the lock call fails; then it can undo an update that was completed
  // under the lock, whatever the file holds at first.
  function LosingRun(sizes: Op, up: Op): seq<Step> {
    [Begin(0, sizes), LockFails(0), Read(0), Begin(1, up), Lock(1), Read(1), Write(1), Close(1), Write(0)]
  }

  function LosingStates(file: seq<Byte>, c: seq<Word>, sizes: Op, up: Op, file1: seq<Byte>, file2: seq<Byte>): seq<State> {
    [State(file, None, [Idle, Idle], []),
     State(file, None, [Opened(sizes), Idle], []),
     State(file, None, [Entered(sizes, false), Idle], []),
     State(file, None, [HasRead(sizes, false, c, 0), Idle], []),
     State(file, None, [HasRead(sizes, false, c, 0), Opened(up)], []),
     State(file, Some(1), [HasRead(sizes, false, c, 0), Entered(up, true)], []),
     State(file, Some(1), [HasRead(sizes, false, c, 0), HasRead(up, true, c, 0)], []),
     State(file1, Some(1), [HasRead(sizes, false, c, 0), Wrote(up, true)], [up]),
     State(file1, None, [HasRead(sizes, false, c, 0), Idle], [up]),
     State(file2, None, [Wrote(sizes, false), Idle], [up, sizes])]
  }

  lemma {:induction false} LosingQuietStep(file: seq<Byte>, c: seq<Word>, sizes: Op, up: Op, file1: seq<Byte>, file2: seq<Byte>, i: nat)
    requires sizes.SetSizes? && up.Update? && ValidOp(up) && (i == 0 || i == 1 || i == 3 || i == 4 || i == 7)
    ensures var states, steps := LosingStates(file, c, sizes, up, file1, file2), LosingRun(sizes, up);
      Enabled(states[i], steps[i]) && Do(states[i], steps[i]) == states[i + 1]
  {
    var states, steps := LosingStates(file, c, sizes, up, file1, file2), LosingRun(sizes, up);
    assert Do(states[i], steps[i]).procs == states[i + 1].procs;
  }

  lemma {:induction false} LosingRead(file: seq<Byte>, c: seq<Word>, sizes: Op, up: Op, file1: seq<Byte>, file2: seq<Byte>, i: nat)
    requires sizes.SetSizes? && up.Update? && ValidOp(up) && (i == 2 || i == 5) && c == ReadBack(file)
    ensures var states, steps := LosingStates(file, c, sizes, up, file1, file2), LosingRun(sizes, up);
      Enabled(states[i], steps[i]) && Do(states[i], steps[i]) == states[i + 1]
  {
    var states, steps := LosingStates(file, c, sizes, up, file1, file2), LosingRun(sizes, up);
    assert Do(states[i], steps[i]).procs == states[i + 1].procs;
  }

  lemma {:induction false} LosingWrite(file: seq<Byte>, c: seq<Word>, sizes: Op, up: Op, file1: seq<Byte>, file2: seq<Byte>, i: nat)
    requires sizes.SetSizes? && up.Update? && ValidOp(up) && (i == 6 || i == 8) && |c| == STATS_END
    requires file1 == Overwritten(file, StatsText(ApplyOp(c, up)))
    requires file2 == Overwritten(file1, StatsText(ApplyOp(c, sizes)))
    ensures var states, steps := LosingStates(file, c, sizes, up, file1, file2), LosingRun(sizes, up);
      Enabled(states[i], steps[i]) && Do(states[i], steps[i]) == states[i + 1]
  {
    var states, steps := LosingStates(file, c, sizes, up, file1, file2), LosingRun(sizes, up);
    assert Do(states[i], steps[i]).procs == states[i + 1].procs;
    assert Do(states[i], steps[i]).log == states[i + 1].log;
  }

  lemma {:induction false} LosingSteps(file: seq<Byte>, c: seq<Word>, sizes: Op, up: Op, file1: seq<Byte>, file2: seq<Byte>)
    requires sizes.SetSizes? && up.Update? && ValidOp(up)
    requires c == ReadBack(file) && |c| == STATS_END
    requires file1 == Overwritten(file, StatsText(ApplyOp(c, up)))
    requires file2 == Overwritten(file1, StatsText(ApplyOp(c, sizes)))
    ensures Follows(LosingStates(file, c, sizes, up, file1, file2), LosingRun(sizes, up)) == true
  {
    var states, steps := LosingStates(file, c, sizes, up, file1, file2), LosingRun(sizes, up);
    forall i | 0 <= i < |steps|
      ensures Enabled(states[i], steps[i]) && Do(states[i], steps[i]) == states[i + 1]
    {
      if i == 2 || i == 5 {
        LosingRead(file, c, sizes, up, file1, file2, i);
      } else if i == 6 || i == 8 {
        LosingWrite(file, c, sizes, up, file1, file2, i);
      } else {
        LosingQuietStep(file, c, sizes, up, file1, file2, i);
      }
    }
  }

  lemma {:induction false} LosingEnds(file: seq<Byte>, c: seq<Word>, sizes: Op, up: Op, file1: seq<Byte>, file2: seq<Byte>)
    requires sizes.SetSizes? && up.Update? && ValidOp(up)
    requires c == ReadBack(file) && |c| == STATS_END
    requires file1 == Overwritten(file, StatsText(ApplyOp(c, up)))
    requires file2 == Overwritten(file1, StatsText(ApplyOp(c, sizes)))
    ensures var s, steps := State(file, None, [Idle, Idle], []), LosingRun(sizes, up);
      Run(s, steps) && End(s, steps) == State(file2, None, [Wrote(sizes, false), Idle], [up, sizes])
  {
    LosingSteps(file, c, sizes, up, file1, file2);
    EndOfSteps(State(file, None, [Idle, Idle], []), LosingRun(sizes, up), LosingStates(file, c, sizes, up, file1, file2));
  }

  lemma {:induction false} IgnoredLockFailureLosesAnUpdate(file: seq<Byte>, sizes: Op, up: Op)
    requires sizes.SetSizes? && up.Update? && up.stat == STATS_TOCACHE
    ensures var s, steps := State(file, None, [Idle, Idle], []), LosingRun(sizes, up);
      Initial(s) && Run(s, steps) && End(s, steps).log == [up, sizes]
      && ReadBack(End(s, steps).file)[STATS_TOCACHE] == ReadBack(file)[STATS_TOCACHE]
  {
    var c := ReadBack(file);
    var file1 := Overwritten(file, StatsText(ApplyOp(c, up)));
    var d := ApplyOp(c, sizes);
    LosingEnds(file, c, sizes, up, file1, Overwritten(file1, StatsText(d)));
    RoundTrip(d, file1);
    OneCounter(c, sizes, STATS_TOCACHE);
  }

  // A run given state by state.
  predicate Follows(states: seq<State>, steps: seq<Step>) {
    |states| == |steps| + 1
    && forall i :: 0 <= i < |steps| ==> Enabled(states[i], steps[i]) && Do(states[i], steps[i]) == states[i + 1]
  }

  lemma {:induction false} EndOfSteps(s: State, steps: seq<Step>, states: seq<State>)
    requires Follows(states, steps) == true && states[0] == s
    ensures Run(s, steps) && End(s, steps) == states[|steps|]
    decreases |steps|
  {
    if steps != [] {
      assert Enabled(states[0], steps[0]) && Do(states[0], steps[0]) == states[1];
      EndOfSteps(states[1], steps[1..], states[1..]);
    }
  }
}
