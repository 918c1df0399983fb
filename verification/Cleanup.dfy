// Eviction: the cached files of a directory, oldest first, are removed until both thresholds are met.
module Cleanup {
  import opened Common
  import opened Bytes
  import opened Stats
  import opened StatsProtocol

  // ----- the order of the files --------------------------------------------------------------------

  // A C string without its terminator.
  type Name = s: seq<Byte> | '\0' !in s

  datatype File = File(fname: Name, mtime: int, size: nat)

  function First(s: Name): int { if s == [] then 0 else s[0] as int }

  function Strcmp(a: Name, b: Name): int
    decreases |a|
  {
    if First(a) != First(b) then First(a) - First(b)
    else if a == [] then 0
    else Strcmp(a[1..], b[1..])
  }

  function FilesCompare(f1: File, f2: File): int {
    if f2.mtime == f1.mtime then Strcmp(f2.fname, f1.fname)
    else if f2.mtime > f1.mtime then -1
    else 1
  }

  lemma {:induction false} NamesAreOrdered(a: Name, b: Name)
    ensures Strcmp(a, b) == 0 <==> a == b
    ensures Strcmp(a, b) == -Strcmp(b, a)
    decreases |a|
  {
    if First(a) == First(b) && a != [] {
      NamesAreOrdered(a[1..], b[1..]);
      assert a == [a[0]] + a[1..] && b == [b[0]] + b[1..];
    }
  }

  lemma {:induction false} NamesAreTransitive(a: Name, b: Name, c: Name)
    requires Strcmp(a, b) <= 0 && Strcmp(b, c) <= 0
    ensures Strcmp(a, c) <= 0
    decreases |a|
  {
    if First(a) == First(b) == First(c) && a != [] {
      NamesAreTransitive(a[1..], b[1..], c[1..]);
    }
  }

  // qsort gets a total order: nothing is compared equal but files with the same time and name.
  lemma {:induction false} FilesAreTotallyOrdered(f: File, g: File, h: File)
    ensures FilesCompare(f, g) == 0 <==> f.mtime == g.mtime && f.fname == g.fname
    ensures FilesCompare(f, g) < 0 <==> FilesCompare(g, f) > 0
    ensures FilesCompare(f, g) <= 0 && FilesCompare(g, h) <= 0 ==> FilesCompare(f, h) <= 0
  {
    NamesAreOrdered(f.fname, g.fname);
    if f.mtime == g.mtime == h.mtime && FilesCompare(f, g) <= 0 && FilesCompare(g, h) <= 0 {
      NamesAreTransitive(h.fname, g.fname, f.fname);
    }
  }

  // Names as C compares them: by the first byte in which they differ, and a name before its continuations.
  lemma {:induction false} NamesByFirstDifference(a: Name, b: Name, i: nat)
    requires i <= |a| && i < |b| && a[..i] == b[..i] && (i < |a| ==> a[i] < b[i])
    ensures Strcmp(a, b) < 0
    decreases i
  {
    if i > 0 {
      assert a[0] == a[..i][0] == b[..i][0] == b[0];
      assert a[1..][..i - 1] == a[..i][1..] && b[1..][..i - 1] == b[..i][1..];
      NamesByFirstDifference(a[1..], b[1..], i - 1);
    } else {
      assert b[0] != '\0';
    }
  }

  // The older of two files goes first, and of two files of the same time the one whose name comes later.
  lemma {:induction false} OlderGoesFirst(f: File, g: File, i: nat)
    requires f.mtime < g.mtime
      || (f.mtime == g.mtime && i <= |g.fname| && i < |f.fname| && g.fname[..i] == f.fname[..i]
          && (i < |g.fname| ==> g.fname[i] < f.fname[i]))
    ensures FilesCompare(f, g) < 0
  {
    if f.mtime == g.mtime {
      NamesByFirstDifference(g.fname, f.fname, i);
    }
  }

  predicate InOrder(s: seq<File>) {
    forall i, j :: 0 <= i < j < |s| ==> FilesCompare(s[i], s[j]) <= 0
  }

  // Where qsort would put one more file.
  function Place(f: File, s: seq<File>): (r: seq<File>) {
    if s == [] || FilesCompare(f, s[0]) <= 0 then [f] + s else [s[0]] + Place(f, s[1..])
  }

  // A sort of the files; SortIsQsort says what qsort promises of it, OneOrderOnly that every other
  // sort gives the same.
  function Sorted(s: seq<File>): (r: seq<File>) {
    if s == [] then [] else Place(s[0], Sorted(s[1..]))
  }

  lemma {:induction false} PlaceKeepsOrder(f: File, s: seq<File>)
    requires InOrder(s)
    ensures InOrder(Place(f, s)) && multiset(Place(f, s)) == multiset(s) + multiset{f}
  {
    if s == [] {
    } else if FilesCompare(f, s[0]) <= 0 {
      forall j | 0 <= j < |s|
        ensures FilesCompare(f, s[j]) <= 0
      {
        FilesAreTotallyOrdered(f, s[0], s[j]);
      }
    } else {
      PlaceKeepsOrder(f, s[1..]);
      FilesAreTotallyOrdered(f, s[0], f);
      assert s == [s[0]] + s[1..];
      LeastFirst(s[0], f, s[1..], Place(f, s[1..]));
    }
  }

  lemma {:induction false} LeastFirst(first: File, f: File, s: seq<File>, r: seq<File>)
    requires multiset(r) == multiset(s) + multiset{f} && InOrder(r)
    requires FilesCompare(first, f) <= 0 && forall g :: g in s ==> FilesCompare(first, g) <= 0
    ensures InOrder([first] + r)
  {
    forall j | 0 <= j < |r|
      ensures FilesCompare(first, r[j]) <= 0
    {
      assert r[j] in multiset(r);
      assert r[j] == f || r[j] in s;
    }
  }

  lemma {:induction false} SortIsQsort(s: seq<File>)
    ensures InOrder(Sorted(s)) && multiset(Sorted(s)) == multiset(s)
  {
    if s != [] {
      SortIsQsort(s[1..]);
      PlaceKeepsOrder(s[0], Sorted(s[1..]));
      assert s == [s[0]] + s[1..];
    }
  }

  predicate NamesDiffer(s: seq<File>) {
    forall f, g :: f in s && g in s && f.fname == g.fname ==> f == g
  }

  lemma {:induction false} FirstIsLeast(s: seq<File>, f: File)
    requires InOrder(s) && s != [] && f in multiset(s)
    ensures FilesCompare(s[0], f) <= 0
  {
    FilesAreTotallyOrdered(f, f, f);
    assert f in s;
  }

  lemma WithoutFirst(s: seq<File>)
    requires s != []
    ensures multiset(s[1..]) == multiset(s) - multiset{s[0]}
  {
    assert s == [s[0]] + s[1..];
  }

  lemma {:induction false} SameFirst(s: seq<File>, t: seq<File>)
    requires multiset(s) == multiset(t) && InOrder(s) && InOrder(t) && NamesDiffer(s) && s != [] && t != []
    ensures s[0] == t[0]
  {
    assert s[0] in multiset(s) && t[0] in multiset(t);
    FirstIsLeast(s, t[0]);
    FirstIsLeast(t, s[0]);
    FilesAreTotallyOrdered(s[0], t[0], s[0]);
    assert s[0] in s && t[0] in s;
  }

  // Of the files of a directory there is only one order that qsort can leave.
  lemma {:induction false} OneOrderOnly(s: seq<File>, t: seq<File>)
    requires multiset(s) == multiset(t) && InOrder(s) && InOrder(t) && NamesDiffer(s)
    ensures s == t
  {
    assert |multiset(s)| == |s| && |multiset(t)| == |t|;
    if s != [] {
      SameFirst(s, t);
      WithoutFirst(s);
      WithoutFirst(t);
      OneOrderOnly(s[1..], t[1..]);
      assert s == [s[0]] + s[1..] && t == [t[0]] + t[1..];
    }
  }

  // ----- sizes ---------------------------------------------------------------------------------------

  function Size(s: seq<File>): nat { if s == [] then 0 else s[0].size + Size(s[1..]) }

  lemma {:induction false} SizeConcat(s: seq<File>, t: seq<File>)
    ensures Size(s + t) == Size(s) + Size(t)
  {
    if s == [] {
      assert s + t == t;
    } else {
      SizeConcat(s[1..], t);
      assert (s + t)[1..] == s[1..] + t;
    }
  }

  lemma {:induction false} SizeOfOneMore(s: seq<File>, f: File)
    ensures Size(s + [f]) == Size(s) + f.size
  {
    SizeConcat(s, [f]);
  }

  lemma {:induction false} PlaceAddsItsSize(f: File, s: seq<File>)
    ensures Size(Place(f, s)) == Size(s) + f.size
  {
    if s != [] && FilesCompare(f, s[0]) > 0 {
      PlaceAddsItsSize(f, s[1..]);
    } else {
      SizeConcat([f], s);
    }
  }

  lemma {:induction false} SortKeepsSize(s: seq<File>)
    ensures Size(Sorted(s)) == Size(s)
  {
    if s != [] {
      SortKeepsSize(s[1..]);
      PlaceAddsItsSize(s[0], Sorted(s[1..]));
    }
  }

  // ----- what survives -------------------------------------------------------------------------------

  // The files of s whose removal is refused.
  function Refused(s: seq<File>, blocked: set<Name>): (r: seq<File>)
    ensures |r| <= |s|
  {
    if s == [] then []
    else
      var f := s[|s| - 1];
      Refused(s[..|s| - 1], blocked) + (if f.fname in blocked then [f] else [])
  }

  // What is left once the removal of the first j files has been attempted.
  function Survivors(s: seq<File>, j: nat, blocked: set<Name>): seq<File>
    requires j <= |s|
  {
    Refused(s[..j], blocked) + s[j..]
  }

  lemma {:induction false} NoneRefused(s: seq<File>)
    ensures Refused(s, {}) == []
  {
    if s != [] {
      NoneRefused(s[..|s| - 1]);
    }
  }

  lemma {:induction false} OneMoreAttempt(s: seq<File>, j: nat, blocked: set<Name>)
    requires j < |s|
    ensures Size(Survivors(s, j, blocked))
         == Size(Survivors(s, j + 1, blocked)) + (if s[j].fname in blocked then 0 else s[j].size)
  {
    var kept := Refused(s[..j], blocked);
    assert s[..j + 1][..j] == s[..j] && s[j..] == [s[j]] + s[j + 1..] && kept + [] == kept;
    SizeConcat(kept, s[j..]);
    SizeConcat(kept, s[j + 1..]);
    SizeConcat(kept + [s[j]], s[j + 1..]);
    SizeOfOneMore(kept, s[j]);
    SizeConcat([s[j]], s[j + 1..]);
  }

  // total_files counts the attempts, so it is the number of files left exactly when none of them failed.
  lemma {:induction false} CountIsOfSurvivors(s: seq<File>, j: nat, blocked: set<Name>)
    requires j <= |s|
    ensures |Survivors(s, j, blocked)| == |s| - j <==> forall i :: 0 <= i < j ==> s[i].fname !in blocked
  {
    RefusedIsEmpty(s[..j], blocked);
    forall i | 0 <= i < j
      ensures s[..j][i].fname in blocked <==> s[i].fname in blocked
    {
    }
    if forall i :: 0 <= i < j ==> s[i].fname !in blocked {
      assert forall i :: 0 <= i < |s[..j]| ==> s[..j][i].fname !in blocked;
    }
  }

  // After a failed removal it is not.
  lemma {:induction false} FailedRemovalIsNotCounted(f: File)
    ensures StopsAt([f], 1, {f.fname}, Goal(0, 1, 0)) && Survivors([f], 1, {f.fname}) == [f]
  {
    assert [f][..1] == [f] && [f][1..] == [] && [f][..0] == [];
    assert Refused([], {f.fname}) == [] && Refused([f], {f.fname}) == [f];
  }

  lemma {:induction false} RefusedIsEmpty(s: seq<File>, blocked: set<Name>)
    ensures Refused(s, blocked) == [] <==> forall i :: 0 <= i < |s| ==> s[i].fname !in blocked
  {
    if s != [] {
      RefusedIsEmpty(s[..|s| - 1], blocked);
      var front := s[..|s| - 1];
      assert forall i :: 0 <= i < |front| ==> front[i] == s[i];
    }
  }

  // ----- where the removal stops -----------------------------------------------------------------------

  // How many files just before s[k] have the time t.
  function Ties(s: seq<File>, k: nat, t: int): (n: nat)
    requires k <= |s|
    ensures n <= k
  {
    if k > 0 && s[k - 1].mtime == t then 1 + Ties(s, k - 1, t) else 0
  }

  function Adjusted(s: seq<File>, minfiles: nat): nat {
    if 0 < minfiles < |s| then minfiles + Ties(s, |s| - minfiles, s[|s| - minfiles].mtime) else minfiles
  }

  datatype Goal = Goal(sizeThreshold: nat, filesThreshold: nat, minfiles: nat)

  predicate Met(g: Goal, size: nat, count: nat) {
    (g.sizeThreshold == 0 || size < g.sizeThreshold) && (g.filesThreshold == 0 || count < g.filesThreshold)
  }

  predicate Done(s: seq<File>, j: nat, blocked: set<Name>, g: Goal)
    requires j <= |s|
  {
    j == |s|
    || Met(g, Size(Survivors(s, j, blocked)), |s| - j)
    || (Adjusted(s, g.minfiles) != 0 && |s| - j <= Adjusted(s, g.minfiles))
  }

  ghost predicate GoesOn(s: seq<File>, stop: nat, blocked: set<Name>, g: Goal)
    requires stop <= |s|
  {
    forall j {:trigger Look(j)} :: Look(j) && 0 <= j < stop ==> !Done(s, j, blocked, g)
  }

  lemma StillGoesOn(s: seq<File>, j: nat, blocked: set<Name>, g: Goal)
    requires j < |s| && GoesOn(s, j, blocked, g) == true && !(Done(s, j, blocked, g) == true)
    ensures GoesOn(s, j + 1, blocked, g) == true
  {
  }

  ghost predicate StopsAt(s: seq<File>, stop: nat, blocked: set<Name>, g: Goal) {
    stop <= |s| && Done(s, stop, blocked, g) && GoesOn(s, stop, blocked, g)
  }

  lemma Stops(s: seq<File>, stop: nat, blocked: set<Name>, g: Goal)
    requires stop <= |s| && GoesOn(s, stop, blocked, g) == true && (stop == |s| || Done(s, stop, blocked, g) == true)
    ensures StopsAt(s, stop, blocked, g) == true
  {
  }

  // At least as new as the minfiles-th newest file.
  predicate Protected(s: seq<File>, minfiles: nat, f: File) {
    minfiles != 0 && (minfiles >= |s| || f.mtime >= s[|s| - minfiles].mtime)
  }

  lemma {:induction false} TiesAreTheEqual(s: seq<File>, k: nat, t: int, i: nat)
    requires InOrder(s) && i < k <= |s| && (forall j :: 0 <= j < k ==> s[j].mtime <= t)
    ensures s[i].mtime == t <==> i >= k - Ties(s, k, t)
    decreases k
  {
    if s[k - 1].mtime == t {
      if i < k - 1 {
        TiesAreTheEqual(s, k - 1, t, i);
      }
    } else if i < k - 1 {
      assert FilesCompare(s[i], s[k - 1]) <= 0;
    }
  }

  // The adjusted minimum covers the protected files and no others.
  lemma {:induction false} ProtectedAreTheLast(s: seq<File>, minfiles: nat, i: nat)
    requires InOrder(s) && i < |s| && minfiles != 0
    ensures Protected(s, minfiles, s[i]) <==> i >= |s| - Adjusted(s, minfiles)
  {
    if minfiles < |s| {
      var k := |s| - minfiles;
      var t := s[k].mtime;
      if i < k {
        forall j | 0 <= j < k
          ensures s[j].mtime <= t
        {
          assert FilesCompare(s[j], s[k]) <= 0;
        }
        assert s[i].mtime <= t;
        TiesAreTheEqual(s, k, t, i);
      } else if i > k {
        assert FilesCompare(s[k], s[i]) <= 0;
      }
    }
  }

  lemma {:induction false} UnblockedRemoval(s: seq<File>, j: nat, g: Goal)
    requires j <= |s|
    ensures Survivors(s, j, {}) == s[j..]
    ensures Done(s, j, {}, g) <==>
      j == |s| || Met(g, Size(s[j..]), |s| - j) || (Adjusted(s, g.minfiles) != 0 && |s| - j <= Adjusted(s, g.minfiles))
  {
    NoneRefused(s[..j]);
  }

  lemma {:induction false} ProtectedAreAdjusted(s: seq<File>, minfiles: nat)
    requires InOrder(s)
    ensures forall i :: 0 <= i < |s| ==>
      (Protected(s, minfiles, s[i]) <==> Adjusted(s, minfiles) != 0 && i >= |s| - Adjusted(s, minfiles))
  {
    forall i | 0 <= i < |s|
      ensures Protected(s, minfiles, s[i]) <==> Adjusted(s, minfiles) != 0 && i >= |s| - Adjusted(s, minfiles)
    {
      if minfiles != 0 {
        ProtectedAreTheLast(s, minfiles, i);
      }
    }
  }

  // The policy, whatever removals are refused: attempts are made on the oldest files only, never on a
  // protected one, as long as what is left does not meet both thresholds, until it does or only
  // protected files have not been tried.
  lemma {:induction false} EvictionUnderFailures(s: seq<File>, stop: nat, blocked: set<Name>, g: Goal)
    requires InOrder(s) && StopsAt(s, stop, blocked, g)
    ensures forall i, j :: 0 <= i < stop <= j < |s| ==> FilesCompare(s[i], s[j]) <= 0
    ensures forall i :: 0 <= i < |s| && Protected(s, g.minfiles, s[i]) ==> i >= stop
    ensures forall j :: 0 <= j < stop ==> !Met(g, Size(Survivors(s, j, blocked)), |s| - j)
    ensures Met(g, Size(Survivors(s, stop, blocked)), |s| - stop)
         || forall i :: stop <= i < |s| ==> Protected(s, g.minfiles, s[i])
  {
    ProtectedAreAdjusted(s, g.minfiles);
    if stop > 0 {
      assert Look(stop - 1);
      assert !Done(s, stop - 1, blocked, g);
    }
    forall j | 0 <= j < stop
      ensures !Met(g, Size(Survivors(s, j, blocked)), |s| - j)
    {
      assert Look(j);
    }
  }

  // The policy when no removal fails: the oldest files go, the protected ones stay, and no more go than
  // have to, until both thresholds are met or only protected files are left.
  lemma {:induction false} EvictionPolicy(s: seq<File>, stop: nat, g: Goal)
    requires InOrder(s) && StopsAt(s, stop, {}, g)
    ensures Survivors(s, stop, {}) == s[stop..]
    ensures forall i, j :: 0 <= i < stop <= j < |s| ==> FilesCompare(s[i], s[j]) <= 0
    ensures forall i :: 0 <= i < |s| && Protected(s, g.minfiles, s[i]) ==> i >= stop
    ensures forall j :: 0 <= j < stop ==> !Met(g, Size(s[j..]), |s| - j)
    ensures Met(g, Size(s[stop..]), |s| - stop) || forall i :: stop <= i < |s| ==> Protected(s, g.minfiles, s[i])
  {
    EvictionUnderFailures(s, stop, {}, g);
    UnblockedRemoval(s, stop, g);
    forall j | 0 <= j < stop
      ensures !Met(g, Size(s[j..]), |s| - j)
    {
      UnblockedRemoval(s, j, g);
    }
  }

  // ----- the code ------------------------------------------------------------------------------------

  datatype Outcome = Removed | NoEntry | Failed

  // The file system below one cache directory: the names there are, and those unlink cannot remove.
  class Directory {
    var present: set<Name>
    const stuck: set<Name>

    constructor (present: set<Name>, stuck: set<Name>)
      ensures this.present == present && this.stuck == stuck
    {
      this.present, this.stuck := present, stuck;
    }

    function Blocked(): set<Name> reads this { present * stuck }

    method Unlink(fname: Name) returns (r: Outcome)
      modifies this
      ensures r == if fname !in old(present) then NoEntry else if fname in stuck then Failed else Removed
      ensures present == if r == Removed then old(present) - {fname} else old(present)
      ensures Blocked() == old(Blocked())
    {
      if fname !in present {
        r := NoEntry;
      } else if fname in stuck {
        r := Failed;
      } else {
        present := present - {fname};
        r := Removed;
      }
    }
  }

  // A directory entry as the traversal reports it, with its size in bytes.
  datatype Entry = Entry(fname: Name, regular: bool, mtime: int, bytes: nat)

  function Basename(s: Name): Name
    decreases |s|
  {
    if '/' in s then Basename(s[1..]) else s
  }

  function Listed(e: Entry): bool { e.regular && Basename(e.fname) != "stats" }

  // The files among the entries, with their sizes in kilobytes.
  function FilesOf(entries: seq<Entry>): seq<File> {
    if entries == [] then []
    else
      var e := entries[|entries| - 1];
      FilesOf(entries[..|entries| - 1]) + (if Listed(e) then [File(e.fname, e.mtime, e.bytes / 1024)] else [])
  }

  // ----- what is listed --------------------------------------------------------------------------------

  lemma {:induction false} BasenameOfPath(d: Name, b: Name)
    requires '/' !in b
    ensures Basename(b) == b && Basename(d + ['/'] + b) == b
    decreases |d|
  {
    var path := d + ['/'] + b;
    assert path[|d|] == '/';
    if d == [] {
      assert path[1..] == b;
    } else {
      assert path[1..] == d[1..] + ['/'] + b;
      BasenameOfPath(d[1..], b);
    }
  }

  // The name of a statistics file, with or without a directory in front.
  predicate IsStats(s: Name) { s == "stats" || (|s| >= 6 && s[|s| - 6..] == "/stats") }

  lemma {:induction false} LastSlash(s: Name) returns (d: Name, b: Name)
    requires '/' in s
    ensures s == d + ['/'] + b && '/' !in b
  {
    var n := |s| - 1;
    if s[n] == '/' {
      d, b := s[..n], [];
    } else {
      var front: Name := s[..n];
      assert s == front + [s[n]];
      assert '/' in front;
      var d', b' := LastSlash(front);
      d, b := d', b' + [s[n]];
    }
  }

  lemma {:induction false} EndsInStats(d: Name)
    ensures IsStats(d + ['/'] + "stats") && Basename(d + ['/'] + "stats") == "stats"
  {
    var s := d + ['/'] + "stats";
    assert s[|s| - 6..] == ['/'] + "stats" == "/stats";
    BasenameOfPath(d, "stats");
  }

  lemma {:induction false} StatsByBasename(s: Name)
    ensures Basename(s) == "stats" <==> IsStats(s)
  {
    if Basename(s) == "stats" {
      BasenameIsLast(s);
    }
    if IsStats(s) {
      StatsIsBasename(s);
    }
  }

  lemma {:induction false} BasenameIsLast(s: Name)
    requires Basename(s) == "stats"
    ensures IsStats(s)
  {
    if '/' in s {
      var d, b := LastSlash(s);
      BasenameOfPath(d, b);
      EndsInStats(d);
    }
  }

  lemma {:induction false} StatsIsBasename(s: Name)
    requires IsStats(s)
    ensures Basename(s) == "stats"
  {
    if s != "stats" {
      var d: Name, last := s[..|s| - 6], s[|s| - 6..];
      assert last == ['/'] + "stats" && s == d + last;
      EndsInStats(d);
      Associates(d, ['/'], "stats");
    }
  }

  lemma Associates(a: seq<Byte>, b: seq<Byte>, c: seq<Byte>)
    ensures a + (b + c) == a + b + c
  {
  }

  // Every regular entry but the statistics file is listed, with its size in kilobytes; nothing else is.
  lemma {:induction false} OneEntry(e: Entry)
    ensures FilesOf([e]) == if e.regular && !IsStats(e.fname) then [File(e.fname, e.mtime, e.bytes / 1024)] else []
  {
    StatsByBasename(e.fname);
    assert [e][..0] == [] && FilesOf([]) == [];
  }

  lemma {:induction false} MoreEntries(a: seq<Entry>, b: seq<Entry>)
    ensures FilesOf(a + b) == FilesOf(a) + FilesOf(b)
  {
    if b == [] {
      assert a + b == a;
    } else {
      var front := b[..|b| - 1];
      MoreEntries(a, front);
      assert (a + b)[..|a + b| - 1] == a + front && (a + b)[|a + b| - 1] == b[|b| - 1];
    }
  }

  lemma {:induction false} NoStatsListed(entries: seq<Entry>, f: File)
    requires f in FilesOf(entries)
    ensures !IsStats(f.fname)
  {
    var front, e := entries[..|entries| - 1], entries[|entries| - 1];
    if f in FilesOf(front) {
      NoStatsListed(front, f);
    } else {
      StatsByBasename(e.fname);
    }
  }

  // No cleanup removes a statistics file.
  lemma {:induction false} StatsAreLeft(entries: seq<Entry>, first: set<Name>, n: nat, stuck: set<Name>)
    requires n <= |Sorted(FilesOf(entries))|
    ensures forall s: Name :: s in first && IsStats(s) ==> s in Left(first, Sorted(FilesOf(entries))[..n], stuck)
  {
    var files, sorted := FilesOf(entries), Sorted(FilesOf(entries));
    SortIsQsort(files);
    forall f | f in sorted[..n]
      ensures !IsStats(f.fname)
    {
      assert f in multiset(sorted) && f in multiset(files);
      NoStatsListed(entries, f);
    }
  }

  function Names(s: seq<File>): set<Name> { set f | f in s :: f.fname }

  // The names left of those there were at first, after an attempt on each of the files.
  function Left(first: set<Name>, s: seq<File>, stuck: set<Name>): set<Name> { first - (Names(s) - stuck) }

  lemma OneMoreName(first: set<Name>, s: seq<File>, i: nat, stuck: set<Name>)
    requires i < |s|
    ensures Left(first, s[..i + 1], stuck) == Left(first, s[..i], stuck) - ({s[i].fname} - stuck)
  {
    assert s[..i + 1] == s[..i] + [s[i]];
  }

  lemma AtFirst(first: set<Name>, s: seq<File>, blocked: set<Name>, stuck: set<Name>)
    ensures Survivors(s, 0, blocked) == s && Left(first, s[..0], stuck) == first
  {
  }

  class Cleaner {
    var files: seq<File>
    var totalSize: nat
    var totalFiles: nat
    var sizeThreshold: nat
    var filesThreshold: nat
    const dir: Directory

    constructor (dir: Directory)
      ensures this.dir == dir
    {
      this.dir := dir;
    }

    function GoalOf(minfiles: nat): Goal reads this { Goal(sizeThreshold, filesThreshold, minfiles) }

    method TraverseFn(e: Entry)
      requires totalSize == Size(files)
      modifies this`files, this`totalSize
      ensures files == if Listed(e) then old(files) + [File(e.fname, e.mtime, e.bytes / 1024)] else old(files)
      ensures totalSize == Size(files)
    {
      if !e.regular { return; }
      if Basename(e.fname) == "stats" { return; }
      var f := File(e.fname, e.mtime, e.bytes / 1024);
      SizeOfOneMore(files, f);
      files := files + [f];
      totalSize := totalSize + f.size;
    }

    // The files counted as kept: the adjusted minimum.
    method AdjustMinfiles(minfiles: nat) returns (adjusted: nat)
      ensures adjusted == Adjusted(files, minfiles)
    {
      adjusted := minfiles;
      if minfiles != 0 && minfiles < |files| {
        var k := |files| - minfiles;
        var t := files[k].mtime;
        var i := 1;
        while i <= k
          invariant 1 <= i <= k + 1
          invariant adjusted == minfiles + i - 1
          invariant Ties(files, k, t) == i - 1 + Ties(files, k - (i - 1), t)
        {
          if files[k - i].mtime == t {
            adjusted := adjusted + 1;
          } else {
            break;
          }
          i := i + 1;
        }
      }
    }

    // After attempts on the first i files: the total is that of the files not removed, and the
    // directory has lost the names of those removed.
    ghost predicate Tried(i: nat, first: set<Name>, blocked: set<Name>)
      reads this, dir
    {
      forall k {:trigger Look(k)} :: Look(k) ==>
        i <= |files| && dir.Blocked() == blocked
        && totalSize == Size(Survivors(files, i, blocked)) && dir.present == Left(first, files[..i], dir.stuck)
    }

    // One turn of the deletion loop.
    method DeleteOne(i: nat, ghost first: set<Name>, ghost blocked: set<Name>)
      requires i < |files| && Tried(i, first, blocked) == true
      modifies this`totalSize, dir
      ensures Tried(i + 1, first, blocked) == true
    {
      assert Look(0);
      OneMoreName(first, files, i, dir.stuck);
      OneMoreAttempt(files, i, blocked);
      var r := dir.Unlink(files[i].fname);
      if r != Failed {
        totalSize := totalSize - files[i].size;
      }
    }

    // The two tests of the loop.
    method Enough(i: nat, ghost minfiles: nat, adjusted: nat, ghost first: set<Name>, ghost blocked: set<Name>, ghost g: Goal)
      returns (enough: bool)
      requires i < |files| && Tried(i, first, blocked) == true
      requires adjusted == Adjusted(files, minfiles) && g == GoalOf(minfiles)
      ensures enough <==> Done(files, i, blocked, g) == true
    {
      assert Look(0);
      if (sizeThreshold == 0 || totalSize < sizeThreshold) && (filesThreshold == 0 || |files| - i < filesThreshold) {
        return true;
      }
      if adjusted != 0 && |files| - i <= adjusted {
        return true;
      }
      return false;
    }

    // The deletion loop.
    method DeleteLoop(minfiles: nat, adjusted: nat, ghost first: set<Name>, ghost blocked: set<Name>, ghost g: Goal)
      returns (i: nat)
      requires Tried(0, first, blocked) == true && adjusted == Adjusted(files, minfiles) && g == GoalOf(minfiles)
      modifies this`totalSize, dir
      ensures Tried(i, first, blocked) == true && StopsAt(files, i, blocked, g) == true
    {
      i := 0;
      while i < |files|
        invariant 0 <= i <= |files| && Tried(i, first, blocked) == true
        invariant GoesOn(files, i, blocked, g) == true
      {
        var enough := Enough(i, minfiles, adjusted, first, blocked, g);
        if enough { break; }
        StillGoesOn(files, i, blocked, g);
        DeleteOne(i, first, blocked);
        i := i + 1;
      }
      Stops(files, i, blocked, g);
    }

    method DeleteOldest(minfiles: nat, adjusted: nat) returns (i: nat)
      requires totalSize == Size(files) && adjusted == Adjusted(files, minfiles)
      modifies this`totalSize, dir
      ensures StopsAt(files, i, old(dir.Blocked()), GoalOf(minfiles)) == true
      ensures totalSize == Size(Survivors(files, i, old(dir.Blocked())))
      ensures dir.present == Left(old(dir.present), files[..i], dir.stuck)
    {
      ghost var first, blocked := dir.present, dir.Blocked();
      AtFirst(first, files, blocked, dir.stuck);
      i := DeleteLoop(minfiles, adjusted, first, blocked, GoalOf(minfiles));
      assert Look(0);
    }

    method SortFiles()
      requires totalSize == Size(files)
      modifies this`files
      ensures files == Sorted(old(files)) && totalSize == Size(files)
    {
      SortKeepsSize(files);
      if |files| > 1 {
        files := Sorted(files);
      } else {
        SortOfOne(files);
      }
    }

    method SortAndClean(minfiles: nat)
      requires totalSize == Size(files)
      modifies this`files, this`totalSize, this`totalFiles, dir
      ensures files == Sorted(old(files)) && totalFiles <= |files|
      ensures StopsAt(files, |files| - totalFiles, old(dir.Blocked()), GoalOf(minfiles)) == true
      ensures totalSize == Size(Survivors(files, |files| - totalFiles, old(dir.Blocked())))
      ensures dir.present == Left(old(dir.present), files[..|files| - totalFiles], dir.stuck)
    {
      SortFiles();
      var adjusted := AdjustMinfiles(minfiles);
      var i := DeleteOldest(minfiles, adjusted);
      totalFiles := |files| - i;
    }

    // The call of traverse, which reports the entries one by one.
    method Traverse(entries: seq<Entry>)
      requires files == [] && totalSize == 0
      modifies this`files, this`totalSize
      ensures files == FilesOf(entries) && totalSize == Size(files)
    {
      var i := 0;
      while i < |entries|
        invariant 0 <= i <= |entries|
        invariant files == FilesOf(entries[..i]) && totalSize == Size(files)
      {
        assert entries[..i + 1][..i] == entries[..i];
        TraverseFn(entries[i]);
        i := i + 1;
      }
      assert entries[..i] == entries;
    }

    // One cache directory: collect, clean, and hand over the counts to be stored.
    method CleanupDir(maxfiles: nat, maxsize: nat, minfiles: nat, entries: seq<Entry>) returns (store: Op)
      modifies this, dir
      ensures store.SetSizes?
      ensures var s := Sorted(FilesOf(entries));
        store.numFiles <= |s|
        && StopsAt(s, |s| - store.numFiles, old(dir.Blocked()), Goal(Threshold(maxsize), Threshold(maxfiles), minfiles)) == true
        && store.totalSize == Size(Survivors(s, |s| - store.numFiles, old(dir.Blocked())))
        && dir.present == Left(old(dir.present), s[..|s| - store.numFiles], dir.stuck)
      ensures forall name: Name :: name in old(dir.present) && IsStats(name) ==> name in dir.present
    {
      sizeThreshold := Threshold(maxsize);
      filesThreshold := Threshold(maxfiles);
      files, totalSize := [], 0;
      Traverse(entries);
      SortAndClean(minfiles);
      StatsAreLeft(entries, old(dir.present), |files| - totalFiles, dir.stuck);
      store := SetSizes(totalFiles, totalSize);
      files, totalSize := [], 0;
    }
  }

  lemma SortOfOne(s: seq<File>)
    requires |s| <= 1
    ensures Sorted(s) == s
  {
    if |s| == 1 {
      assert s[1..] == [] && Sorted([]) == [];
    }
  }

  // ----- thresholds and hysteresis ---------------------------------------------------------------------

  // 0.8 times the limit, rounded down.
  function Threshold(max: nat): nat { 4 * max / 5 }

  lemma ThresholdIsFourFifths(max: nat)
    ensures 5 * Threshold(max) <= 4 * max < 5 * Threshold(max) + 5
  {
  }

  // What the files and sizes added by a series of updates come to.
  function Cached(log: seq<Op>): (nat, nat) {
    if log == [] then (0, 0)
    else
      var (n, t) := Cached(log[..|log| - 1]);
      var op := log[|log| - 1];
      if op.Update? && op.stat == STATS_TOCACHE then (n + op.numfiles, t + op.size) else (n, t)
  }

  // After an update: too many files, too many kilobytes.
  predicate FilesTrigger(c: Counters) { c[STATS_MAXFILES] != 0 && c[STATS_NUMFILES] > c[STATS_MAXFILES] }
  predicate SizeTrigger(c: Counters) { c[STATS_MAXSIZE] != 0 && c[STATS_TOTALSIZE] > c[STATS_MAXSIZE] }

  lemma {:induction false} StoredIsCached(c: Counters, log: seq<Op>)
    requires EventUpdates(log)
    ensures Stored(c, log) == (c[STATS_NUMFILES] + Cached(log).0, c[STATS_TOTALSIZE] + Cached(log).1)
    ensures LastLimits(c, log) == (c[STATS_MAXFILES], c[STATS_MAXSIZE])
  {
    if log != [] {
      StoredIsCached(c, log[..|log| - 1]);
    }
  }

  lemma WrapIsBelow(n: nat)
    ensures Wrap(n) <= n && (n < WORD_MOD ==> Wrap(n) == n)
  {
  }

  lemma {:induction false} EndsBelowThresholds(s: seq<File>, stop: nat, g: Goal)
    requires StopsAt(s, stop, {}, g) && (Adjusted(s, g.minfiles) == 0 || |s| - stop > Adjusted(s, g.minfiles))
    ensures g.filesThreshold != 0 ==> |s| - stop < g.filesThreshold
    ensures g.sizeThreshold != 0 ==> Size(s[stop..]) < g.sizeThreshold
  {
    UnblockedRemoval(s, stop, g);
    assert stop == |s| ==> s[stop..] == [];
  }

  // A limit triggers only if what was stored and what was cached since come to more.
  lemma {:induction false} TriggersOnlyAbove(c: Counters, log: seq<Op>)
    requires EventUpdates(log)
    ensures FilesTrigger(ApplyAll(c, log)) ==> c[STATS_NUMFILES] + Cached(log).0 > c[STATS_MAXFILES]
    ensures SizeTrigger(ApplyAll(c, log)) ==> c[STATS_TOTALSIZE] + Cached(log).1 > c[STATS_MAXSIZE]
  {
    SizesAreTheStored(c, log);
    LimitsAreTheLastSet(c, log);
    StoredIsCached(c, log);
    WrapIsBelow(Stored(c, log).0);
    WrapIsBelow(Stored(c, log).1);
  }

  // And it does, unless the counter has wrapped around, exactly when there is a limit and they do.
  lemma {:induction false} TriggersExactlyAbove(c: Counters, log: seq<Op>)
    requires EventUpdates(log)
    ensures FilesTrigger(ApplyAll(c, log)) <==>
      c[STATS_MAXFILES] != 0 && (c[STATS_NUMFILES] + Cached(log).0) % WORD_MOD > c[STATS_MAXFILES]
    ensures SizeTrigger(ApplyAll(c, log)) <==>
      c[STATS_MAXSIZE] != 0 && (c[STATS_TOTALSIZE] + Cached(log).1) % WORD_MOD > c[STATS_MAXSIZE]
  {
    SizesAreTheStored(c, log);
    LimitsAreTheLastSet(c, log);
    StoredIsCached(c, log);
  }

  // From a cleanup to the next: c0 are the counters when the cleanup stored its result, log the updates
  // after it. A limit can trigger again only after more was cached than lies between the threshold and
  // the limit.
  lemma {:induction false} Hysteresis(s: seq<File>, stop: nat, minfiles: nat, c0: Counters, log: seq<Op>)
    requires EventUpdates(log)
    requires StopsAt(s, stop, {}, Goal(Threshold(c0[STATS_MAXSIZE]), Threshold(c0[STATS_MAXFILES]), minfiles))
    requires Adjusted(s, minfiles) == 0 || |s| - stop > Adjusted(s, minfiles)
    ensures var c := ApplyOp(c0, SetSizes(|s| - stop, Size(s[stop..])));
      (c0[STATS_MAXFILES] >= 2 ==>
        |s| - stop < Threshold(c0[STATS_MAXFILES])
        && (FilesTrigger(ApplyAll(c, log)) ==> Cached(log).0 >= c0[STATS_MAXFILES] - Threshold(c0[STATS_MAXFILES]) + 2))
      && (c0[STATS_MAXSIZE] >= 2 ==>
        Size(s[stop..]) < Threshold(c0[STATS_MAXSIZE])
        && (SizeTrigger(ApplyAll(c, log)) ==> Cached(log).1 >= c0[STATS_MAXSIZE] - Threshold(c0[STATS_MAXSIZE]) + 2))
  {
    EndsBelowThresholds(s, stop, Goal(Threshold(c0[STATS_MAXSIZE]), Threshold(c0[STATS_MAXFILES]), minfiles));
    var c := ApplyOp(c0, SetSizes(|s| - stop, Size(s[stop..])));
    TriggersOnlyAbove(c, log);
    WrapIsBelow(|s| - stop);
    WrapIsBelow(Size(s[stop..]));
  }

  // A limit of 1 makes a threshold of 0, which counts as no limit: such a cleanup removes nothing.
  lemma {:induction false} ThresholdsVanish(max: nat)
    ensures Threshold(max) == 0 <==> max <= 1
    ensures max >= 2 ==> Threshold(max) < max
  {
  }

  lemma {:induction false} LimitsOfOneRemoveNothing(s: seq<File>, stop: nat, blocked: set<Name>, maxfiles: nat, maxsize: nat, minfiles: nat)
    requires StopsAt(s, stop, blocked, Goal(Threshold(maxsize), Threshold(maxfiles), minfiles))
    requires maxfiles <= 1 && maxsize <= 1
    ensures stop == 0
  {
    assert Look(0) && Done(s, 0, blocked, Goal(Threshold(maxsize), Threshold(maxfiles), minfiles));
  }
}
