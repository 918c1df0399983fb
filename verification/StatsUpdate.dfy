// The operations on the statistics file as the code performs them: read, change, write.
module StatsUpdate {
  import opened Common
  import opened Bytes
  import opened Stats
  import opened StatsProtocol
  import Cleanup

  // The file now reads as what the operation makes of what it read as before.
  ghost predicate Applied(before: seq<Byte>, after: seq<Byte>, op: Op)
    requires ValidOp(op)
  {
    forall k {:trigger Look(k)} :: Look(k) ==>
      var c := ApplyOp(ReadBack(before), op);
      after == Overwritten(before, StatsText(c)) && ReadBack(after) == c
  }

  // memset and stats_read_fd
  method Load(f: StatsFile) returns (counters: array<Word>)
    ensures fresh(counters) && counters.Length == STATS_END && counters[..] == ReadBack(f.content)
  {
    counters := new Word[STATS_END](_ => 0);
    assert counters[..] == Zero();
    f.ReadFd(counters);
  }

  // write_stats, for the counters that op makes of those read.
  method Store(f: StatsFile, counters: array<Word>, ghost op: Op)
    requires counters.Length == STATS_END && ValidOp(op) && counters[..] == ApplyOp(ReadBack(f.content), op)
    modifies f
    ensures Applied(old(f.content), f.content, op)
  {
    RoundTrip(counters[..], f.content);
    var _ := f.WriteStats(counters);
  }

  method Add(counters: array<Word>, k: nat, n: nat)
    requires counters.Length == STATS_END && k < STATS_END
    modifies counters
    ensures counters[..] == AddTo(old(counters[..]), k, n)
  {
    counters[k] := Wrap(counters[k] + n);
  }

  // stats_update_size. Without the lock the file is left alone. A cleanup is asked for with the limits
  // when one of them is exceeded.
  method UpdateSize(f: StatsFile, locked: bool, stat: nat, size: nat, numfiles: nat) returns (cleanup: Option<(Word, Word)>)
    requires stat < STATS_END
    modifies f
    ensures !locked ==> f.content == old(f.content) && cleanup == None
    ensures locked ==> Applied(old(f.content), f.content, Update(stat, size, numfiles))
    ensures locked ==> var c := ReadBack(f.content);
      cleanup == if Cleanup.FilesTrigger(c) || Cleanup.SizeTrigger(c) then Some((c[STATS_MAXFILES], c[STATS_MAXSIZE])) else None
  {
    if !locked { return None; }
    var counters := Load(f);
    Add(counters, stat, 1);
    if stat == STATS_TOCACHE {
      Add(counters, STATS_NUMFILES, numfiles);
      Add(counters, STATS_TOTALSIZE, size);
    }
    Store(f, counters, Update(stat, size, numfiles));
    ghost var c := ReadBack(f.content);
    assert Look(0);
    assert c == counters[..];
    var needCleanup := false;
    if counters[STATS_MAXFILES] != 0 && counters[STATS_NUMFILES] > counters[STATS_MAXFILES] {
      needCleanup := true;
    }
    if counters[STATS_MAXSIZE] != 0 && counters[STATS_TOTALSIZE] > counters[STATS_MAXSIZE] {
      needCleanup := true;
    }
    cleanup := if needCleanup then Some((counters[STATS_MAXFILES], counters[STATS_MAXSIZE])) else None;
  }

  // stats_tocache: the size in kilobytes.
  method ToCache(f: StatsFile, locked: bool, bytes: nat, numfiles: nat) returns (cleanup: Option<(Word, Word)>)
    modifies f
    ensures !locked ==> f.content == old(f.content) && cleanup == None
    ensures locked ==> Applied(old(f.content), f.content, Update(STATS_TOCACHE, bytes / 1024, numfiles))
    ensures locked ==> var c := ReadBack(f.content);
      cleanup == if Cleanup.FilesTrigger(c) || Cleanup.SizeTrigger(c) then Some((c[STATS_MAXFILES], c[STATS_MAXSIZE])) else None
  {
    cleanup := UpdateSize(f, locked, STATS_TOCACHE, bytes / 1024, numfiles);
  }

  // stats_set_sizes, which goes on without the lock.
  method SetSizesOf(f: StatsFile, numFiles: nat, totalSize: nat)
    modifies f
    ensures Applied(old(f.content), f.content, SetSizes(numFiles, totalSize))
  {
    var counters := Load(f);
    counters[STATS_NUMFILES] := Wrap(numFiles);
    counters[STATS_TOTALSIZE] := Wrap(totalSize);
    Store(f, counters, SetSizes(numFiles, totalSize));
  }

  // The body of the loop of stats_set_limits for one directory; both arguments have been divided.
  method SetLimitsOf(f: StatsFile, maxfiles: int, maxsize: int, ghost op: Op)
    requires op.SetLimits? && maxfiles == Share(op.maxfiles) && maxsize == Share(op.maxsize)
    modifies f
    ensures Applied(old(f.content), f.content, op) == true
  {
    var counters := Load(f);
    if maxfiles != -1 {
      counters[STATS_MAXFILES] := maxfiles % WORD_MOD;
    }
    if maxsize != -1 {
      counters[STATS_MAXSIZE] := maxsize % WORD_MOD;
    }
    Store(f, counters, op);
  }

  // stats_set_limits over the files of the directories.
  method SetAllLimits(files: seq<StatsFile>, maxfiles: int, maxsize: int)
    requires forall i, j :: 0 <= i < j < |files| ==> files[i] != files[j]
    modifies files
    ensures forall i :: 0 <= i < |files| ==> Applied(old(files[i].content), files[i].content, SetLimits(maxfiles, maxsize)) == true
  {
    var f, s := maxfiles, maxsize;
    if f != -1 {
      f := Share(f);
    }
    if s != -1 {
      s := Share(s);
    }
    SetEach(files, f, s, SetLimits(maxfiles, maxsize));
  }

  method SetEach(files: seq<StatsFile>, f: int, s: int, ghost op: Op)
    requires op.SetLimits? && f == Share(op.maxfiles) && s == Share(op.maxsize)
    requires forall i, j :: 0 <= i < j < |files| ==> files[i] != files[j]
    modifies files
    ensures forall i :: 0 <= i < |files| ==> Applied(old(files[i].content), files[i].content, op) == true
  {
    var dir := 0;
    while dir < |files|
      invariant 0 <= dir <= |files|
      invariant forall i :: 0 <= i < dir ==> Applied(old(files[i].content), files[i].content, op) == true
      invariant forall i :: dir <= i < |files| ==> files[i].content == old(files[i].content)
    {
      var file := files[dir];
      ghost var before := file.content;
      assert before == old(files[dir].content);
      SetLimitsOf(file, f, s, op);
      assert Applied(before, file.content, op) == true;
      assert forall i :: 0 <= i < |files| && i != dir ==> files[i] != file;
      dir := dir + 1;
    }
  }

  // The counters listed in stats_info, each with its flag against zeroing.
  const INFO_COUNT: nat := 22

  function Info(i: nat): (r: (nat, bool))
    requires i < INFO_COUNT
    ensures 0 < r.0 < STATS_END
  {
    match i
    case 0 => (8, false) case 1 => (4, false) case 2 => (10, false) case 3 => (19, false) case 4 => (1, false)
    case 5 => (2, false) case 6 => (3, false) case 7 => (5, false) case 8 => (6, false) case 9 => (7, false)
    case 10 => (9, false) case 11 => (15, false) case 12 => (20, false) case 13 => (21, false) case 14 => (22, false)
    case 15 => (16, false) case 16 => (17, false) case 17 => (18, false)
    case 18 => (STATS_NUMFILES, true) case 19 => (STATS_TOTALSIZE, true) case 20 => (STATS_MAXFILES, true) case _ => (STATS_MAXSIZE, true)
  }

  // Is counter k zeroed by the first n entries?
  predicate Zeroed(k: nat, n: nat)
    requires n <= INFO_COUNT
    decreases n
  {
    n > 0 && (Info(n - 1) == (k, false) || Zeroed(k, n - 1))
  }

  // The table lists every counter but number 0, so exactly the flagged ones and number 0 are kept.
  lemma {:induction false} TableIsComplete(k: nat)
    requires k < STATS_END
    ensures Zeroed(k, INFO_COUNT) <==> !Kept(k)
  {
    assert Zeroed(k, 5) <==> k == 8 || k == 4 || k == 10 || k == 19 || k == 1;
    assert Zeroed(k, 10) <==> Zeroed(k, 5) || k == 2 || k == 3 || k == 5 || k == 6 || k == 7;
    assert Zeroed(k, 15) <==> Zeroed(k, 10) || k == 9 || k == 15 || k == 20 || k == 21 || k == 22;
    assert Zeroed(k, 18) <==> Zeroed(k, 15) || k == 16 || k == 17 || k == 18;
    assert Zeroed(k, 22) <==> Zeroed(k, 18);
  }

  // stats_zero for one directory.
  method ZeroStatsOf(f: StatsFile)
    modifies f
    ensures Applied(old(f.content), f.content, ZeroStats)
  {
    var counters := Load(f);
    ghost var c := counters[..];
    for i := 0 to INFO_COUNT
      invariant f.content == old(f.content)
      invariant forall k :: 0 <= k < STATS_END ==> counters[k] == if Zeroed(k, i) then 0 else c[k]
    {
      var (stat, noZero) := Info(i);
      if !noZero {
        counters[stat] := 0;
      }
    }
    forall k | 0 <= k < STATS_END
      ensures counters[k] == if Kept(k) then c[k] else 0
    {
      TableIsComplete(k);
    }
    assert counters[..] == ApplyOp(c, ZeroStats);
    Store(f, counters, ZeroStats);
  }
}
