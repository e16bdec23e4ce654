/**
 Backup retention: the greedy daily/monthly rule run after every backup, and what it amounts to over
 a whole history.
 */
module BackupRetention {
  import opened Prelude
  import Text

  const ARCHIVE_PREFIX := "crewday-backup-"
  const ARCHIVE_SUFFIX := ".tar.zst"

  function RemovePrefix(s: string, prefix: string): string {
    if prefix <= s then s[|prefix|..] else s
  }

  function RemoveSuffix(s: string, suffix: string): string {
    if |suffix| <= |s| && s[|s| - |suffix|..] == suffix then s[..|s| - |suffix|] else s
  }

  function Stamp(name: string): string {
    RemoveSuffix(RemovePrefix(name, ARCHIVE_PREFIX), ARCHIVE_SUFFIX)
  }

  /** Archives are grouped by the first eight and by the first six characters of their stamp. */
  datatype Period = Day | Month

  function Label(period: Period, name: string): string {
    Text.Prefix(Stamp(name), if period.Day? then 8 else 6)
  }

  function Newer(archives: set<string>, p: string): set<string> {
    set q | q in archives && Text.Less(p, q)
  }

  function Labels(period: Period, archives: set<string>): set<string> {
    set q | q in archives :: Label(period, q)
  }

  // ---------------------------------------------------------------------------------------------
  // The rule, stated without a scan
  // ---------------------------------------------------------------------------------------------

  /** `p` is the newest archive of its period, and fewer than `keep` periods have a newer archive. */
  predicate KeptFor(period: Period, keep: nat, archives: set<string>, p: string) {
    var newer := Labels(period, Newer(archives, p));
    Label(period, p) !in newer && |newer| < keep
  }

  predicate Keeps(archives: set<string>, keepDaily: nat, keepMonthly: nat, p: string) {
    KeptFor(Day, keepDaily, archives, p) || KeptFor(Month, keepMonthly, archives, p)
  }

  function Kept(archives: set<string>, keepDaily: nat, keepMonthly: nat): set<string> {
    KeptAmong(archives, archives, keepDaily, keepMonthly)
  }

  function KeptAmong(passed: set<string>, archives: set<string>, keepDaily: nat, keepMonthly: nat): set<string> {
    set p | p in passed && Keeps(archives, keepDaily, keepMonthly, p)
  }

  // ---------------------------------------------------------------------------------------------
  // The scan
  // ---------------------------------------------------------------------------------------------

  ghost predicate Descending(names: seq<string>) {
    forall i, j :: 0 <= i < j < |names| ==> Text.Less(names[j], names[i])
  }

  lemma {:induction false} NewestOf(archives: set<string>) returns (newest: string)
    requires archives != {}
    ensures newest in archives && forall q :: q in archives && q != newest ==> Text.Less(q, newest)
  {
    newest :| newest in archives;
    var rest := archives - {newest};
    assert forall q :: q in archives ==> q == newest || q in rest;
    if rest != {} {
      var other := NewestOf(rest);
      Text.LessIsTotal(newest, other);
      if Text.Less(newest, other) {
        newest := other;
      } else {
        forall q | q in rest && q != other ensures Text.Less(q, newest) {
          Text.LessIsTransitive(q, other, newest);
        }
      }
    }
  }

  lemma {:induction false} OldestOf(archives: set<string>) returns (oldest: string)
    requires archives != {}
    ensures oldest in archives && forall q :: q in archives && q != oldest ==> Text.Less(oldest, q)
  {
    oldest :| oldest in archives;
    var rest := archives - {oldest};
    assert forall q :: q in archives ==> q == oldest || q in rest;
    if rest != {} {
      var other := OldestOf(rest);
      Text.LessIsTotal(oldest, other);
      if Text.Less(other, oldest) {
        oldest := other;
      } else {
        forall q | q in rest && q != other ensures Text.Less(oldest, q) {
          Text.LessIsTransitive(oldest, other, q);
        }
      }
    }
  }

  /** What the scan has to remember of a period: the labels seen, capped at `keep` of them. */
  ghost predicate Remembers(period: Period, keep: nat, passed: set<string>, seen: set<string>) {
    if |Labels(period, passed)| <= keep then seen == Labels(period, passed) else |seen| == keep
  }

  lemma NewerIsPassed(names: seq<string>, i: nat)
    requires Descending(names) && i < |names|
    ensures Newer(Members(names), names[i]) == Members(names[..i])
  {
    forall q ensures q in Newer(Members(names), names[i]) <==> q in Members(names[..i]) {
      if q in Newer(Members(names), names[i]) {
        var j :| 0 <= j < |names| && names[j] == q;
        Text.LessIsAsymmetric(names[i], q);
        assert j < i && names[..i][j] == q;
      }
      if q in Members(names[..i]) {
        var j :| 0 <= j < i && names[..i][j] == q;
        assert names[j] == q;
      }
    }
  }

  lemma RememberNext(period: Period, keep: nat, passed: set<string>, seen: set<string>, p: string)
    requires Remembers(period, keep, passed, seen)
    ensures var keeps := |seen| < keep && Label(period, p) !in seen;
      && (keeps <==> Label(period, p) !in Labels(period, passed) && |Labels(period, passed)| < keep)
      && Remembers(period, keep, passed + {p}, if keeps then seen + {Label(period, p)} else seen)
  {
    var labels, l := Labels(period, passed), Label(period, p);
    assert Labels(period, passed + {p}) == labels + {l};
    if l in labels {
      assert labels + {l} == labels;
    } else {
      assert |labels + {l}| == |labels| + 1;
    }
  }

  lemma MembersStep(names: seq<string>, i: nat)
    requires i < |names|
    ensures Members(names[..i + 1]) == Members(names[..i]) + {names[i]}
  {
  }

  lemma MembersAppend(names: seq<string>, p: string)
    ensures Members(names + [p]) == Members(names) + {p}
  {
  }

  /** One archive of the scan: both periods, the archive newer ones having been passed already. */
  lemma ScanStep(names: seq<string>, i: nat, keepDaily: nat, keepMonthly: nat, seenDays: set<string>, seenMonths: set<string>)
    requires Descending(names) && i < |names|
    requires Remembers(Day, keepDaily, Members(names[..i]), seenDays)
    requires Remembers(Month, keepMonthly, Members(names[..i]), seenMonths)
    ensures var p := names[i];
      var daily, monthly := |seenDays| < keepDaily && Label(Day, p) !in seenDays, |seenMonths| < keepMonthly && Label(Month, p) !in seenMonths;
      && (daily || monthly <==> Keeps(Members(names), keepDaily, keepMonthly, p))
      && Remembers(Day, keepDaily, Members(names[..i + 1]), if daily then seenDays + {Label(Day, p)} else seenDays)
      && Remembers(Month, keepMonthly, Members(names[..i + 1]), if monthly then seenMonths + {Label(Month, p)} else seenMonths)
  {
    NewerIsPassed(names, i);
    MembersStep(names, i);
    RememberNext(Day, keepDaily, Members(names[..i]), seenDays, names[i]);
    RememberNext(Month, keepMonthly, Members(names[..i]), seenMonths, names[i]);
  }

  lemma KeptAmongStep(names: seq<string>, i: nat, keepDaily: nat, keepMonthly: nat)
    requires i < |names|
    ensures var before := KeptAmong(Members(names[..i]), Members(names), keepDaily, keepMonthly);
      KeptAmong(Members(names[..i + 1]), Members(names), keepDaily, keepMonthly)
      == if Keeps(Members(names), keepDaily, keepMonthly, names[i]) then before + {names[i]} else before
  {
    MembersStep(names, i);
  }

  lemma {:induction false} AppendKeepsDescending(names: seq<string>, p: string, todo: set<string>)
    requires Descending(names) && p in todo && forall i, q :: 0 <= i < |names| && q in todo ==> Text.Less(q, names[i])
    requires forall q :: q in todo && q != p ==> Text.Less(q, p)
    ensures Descending(names + [p])
    ensures forall i, q :: 0 <= i < |names + [p]| && q in todo - {p} ==> Text.Less(q, (names + [p])[i])
  {
  }

  class BackupDirectory {
    var archives: set<string>

    constructor ()
      ensures archives == {}
    {
      archives := {};
    }

    /** `sorted(..., reverse=True)` */
    method SortedNewestFirst() returns (names: seq<string>)
      ensures Descending(names) && Members(names) == archives
    {
      names := [];
      var todo := archives;
      while todo != {}
        invariant todo <= archives && Members(names) == archives - todo && Descending(names)
        invariant forall i, q :: 0 <= i < |names| && q in todo ==> Text.Less(q, names[i])
        decreases |todo|
      {
        ghost var newest := NewestOf(todo);
        var p :| p in todo && forall q :: q in todo && q != p ==> Text.Less(q, p);
        MembersAppend(names, p);
        AppendKeepsDescending(names, p, todo);
        names := names + [p];
        todo := todo - {p};
      }
    }

    method RotateBackups(keepDaily: int, keepMonthly: int) returns (pruned: Option<seq<string>>)
      modifies this
      ensures pruned.None? <==> keepDaily < 0 || keepMonthly < 0
      ensures pruned.None? ==> archives == old(archives)
      ensures pruned.Some? ==>
        && archives == Kept(old(archives), keepDaily, keepMonthly)
        && Members(pruned.value) == old(archives) - archives && Descending(pruned.value)
    {
      if keepDaily < 0 || keepMonthly < 0 {
        return None;
      }
      var names := SortedNewestFirst();
      var keep := Choose(names, keepDaily, keepMonthly);
      var removed: seq<string> := [];
      assert Members(names[..0]) == {} && Members(removed) == {};
      for i := 0 to |names|
        invariant archives == old(archives) - Members(removed)
        invariant Members(removed) == Members(names[..i]) - keep
        invariant Descending(removed) && forall j, k :: 0 <= j < |removed| && i <= k < |names| ==> Text.Less(names[k], removed[j])
      {
        MembersStep(names, i);
        if names[i] !in keep {
          MembersAppend(removed, names[i]);
          archives := archives - {names[i]};
          removed := removed + [names[i]];
        }
      }
      assert names[..|names|] == names;
      return Some(removed);
    }
  }

  /** One period's test in the scan: keep the archive if the period still has room and is new. */
  method Visit(keep: set<string>, seen: set<string>, limit: nat, path: string, period: string)
    returns (keep': set<string>, seen': set<string>)
    ensures var keeps := |seen| < limit && period !in seen;
      && keep' == (if keeps then keep + {path} else keep)
      && seen' == (if keeps then seen + {period} else seen)
  {
    keep', seen' := keep, seen;
    if |seen| < limit && period !in seen {
      keep', seen' := keep + {path}, seen + {period};
    }
  }

  /** The first loop: newest first, one archive for each of the first `keepDaily` days and `keepMonthly` months. */
  method Choose(names: seq<string>, keepDaily: nat, keepMonthly: nat) returns (keep: set<string>)
    requires Descending(names)
    ensures keep == Kept(Members(names), keepDaily, keepMonthly)
  {
    keep := {};
    var seenDays, seenMonths := {}, {};
    assert Members(names[..0]) == {};
    for i := 0 to |names|
      invariant Remembers(Day, keepDaily, Members(names[..i]), seenDays)
      invariant Remembers(Month, keepMonthly, Members(names[..i]), seenMonths)
      invariant keep == KeptAmong(Members(names[..i]), Members(names), keepDaily, keepMonthly)
    {
      var path := names[i];
      ScanStep(names, i, keepDaily, keepMonthly, seenDays, seenMonths);
      KeptAmongStep(names, i, keepDaily, keepMonthly);
      keep, seenDays := Visit(keep, seenDays, keepDaily, path, Label(Day, path));
      keep, seenMonths := Visit(keep, seenMonths, keepMonthly, path, Label(Month, path));
    }
    assert names[..|names|] == names;
  }

  // ---------------------------------------------------------------------------------------------
  // Pruning as you go
  // ---------------------------------------------------------------------------------------------

  /** Down to its `keep`-th newest period, pruning loses sight of no period. */
  lemma PruningKeepsPeriods(period: Period, keep: nat, archives: set<string>, kept: set<string>, p: string)
    requires kept <= archives && (forall q :: q in archives && KeptFor(period, keep, archives, q) ==> q in kept)
    requires |Labels(period, Newer(archives, p))| <= keep
    ensures Labels(period, Newer(kept, p)) == Labels(period, Newer(archives, p))
  {
    forall x | x in Labels(period, Newer(archives, p)) ensures x in Labels(period, Newer(kept, p)) {
      var sharing := set q | q in Newer(archives, p) && Label(period, q) == x;
      var q :| q in Newer(archives, p) && Label(period, q) == x;
      assert q in sharing;
      var newest := NewestOf(sharing);
      NewestOfItsPeriod(period, archives, p, newest, sharing);
      var above, all := Labels(period, Newer(archives, newest)), Labels(period, Newer(archives, p));
      assert above <= all - {x};
      SubsetSize(above, all - {x});
      assert KeptFor(period, keep, archives, newest);
      assert newest in Newer(kept, p);
    }
  }

  /** The newest archive newer than `p` that shares a label: everything newer still has other labels. */
  lemma {:induction false} NewestOfItsPeriod(period: Period, archives: set<string>, p: string, newest: string, sharing: set<string>)
    requires sharing == set q | q in Newer(archives, p) && Label(period, q) == Label(period, newest)
    requires newest in sharing && forall q :: q in sharing && q != newest ==> Text.Less(q, newest)
    ensures Labels(period, Newer(archives, newest)) <= Labels(period, Newer(archives, p)) - {Label(period, newest)}
  {
    forall q | q in Newer(archives, newest) ensures q in Newer(archives, p) && Label(period, q) != Label(period, newest) {
      Text.LessIsTransitive(p, newest, q);
      Text.LessIsAsymmetric(newest, q);
    }
  }

  /** Below its `keep`-th newest period, pruning leaves at least `keep` periods above. */
  lemma PruningLeavesEnough(period: Period, keep: nat, archives: set<string>, kept: set<string>, p: string)
    requires kept <= archives && (forall q :: q in archives && KeptFor(period, keep, archives, q) ==> q in kept)
    requires |Labels(period, Newer(archives, p))| >= keep
    ensures |Labels(period, Newer(kept, p))| >= keep
    decreases |Newer(archives, p)|
  {
    var newer := Newer(archives, p);
    if |Labels(period, newer)| == keep {
      PruningKeepsPeriods(period, keep, archives, kept, p);
    } else {
      assert Labels(period, {}) == {};
      var next := OldestOf(newer);
      assert Newer(archives, next) == newer - {next} by { NewerThanOldest(archives, p, next); }
      assert Labels(period, newer) == Labels(period, newer - {next}) + {Label(period, next)} by {
        assert newer == (newer - {next}) + {next};
      }
      PruningLeavesEnough(period, keep, archives, kept, next);
      forall q | q in Newer(kept, next) ensures q in Newer(kept, p) {
        Text.LessIsTransitive(p, next, q);
      }
      SubsetSize(Labels(period, Newer(kept, next)), Labels(period, Newer(kept, p)));
    }
  }

  lemma {:induction false} NewerThanOldest(archives: set<string>, p: string, next: string)
    requires next in Newer(archives, p) && forall q :: q in Newer(archives, p) && q != next ==> Text.Less(next, q)
    ensures Newer(archives, next) == Newer(archives, p) - {next}
  {
    forall q ensures q in Newer(archives, next) <==> q in Newer(archives, p) - {next} {
      if q in Newer(archives, next) {
        Text.LessIsTransitive(p, next, q);
        Text.LessIsAsymmetric(next, q);
      }
    }
  }

  /** Adding a newest archive: only its own label joins those above an older one. */
  lemma {:induction false} LabelsAboveWithNewest(period: Period, archives: set<string>, a: string, p: string)
    requires p in archives && forall q :: q in archives ==> Text.Less(q, a)
    ensures Labels(period, Newer(archives + {a}, p)) == Labels(period, Newer(archives, p)) + {Label(period, a)}
    ensures Newer(archives + {a}, a) == {}
  {
    assert Newer(archives + {a}, p) == Newer(archives, p) + {a};
    forall q | q in archives + {a} ensures !Text.Less(a, q) {
      if q in archives { Text.LessIsAsymmetric(q, a); } else if Text.Less(a, a) { Text.LessIsAsymmetric(a, a); }
    }
  }

  /** For an archive that survived the last pruning, the next verdict is the one the full history gives. */
  lemma {:induction false} SameVerdict(period: Period, keep: nat, archives: set<string>, kept: set<string>, a: string, p: string)
    requires kept <= archives && (forall q :: q in archives && KeptFor(period, keep, archives, q) ==> q in kept)
    requires p in kept && forall q :: q in archives ==> Text.Less(q, a)
    ensures KeptFor(period, keep, archives + {a}, p) <==> KeptFor(period, keep, kept + {a}, p)
  {
    LabelsAboveWithNewest(period, archives, a, p);
    LabelsAboveWithNewest(period, kept, a, p);
    var all, some := Labels(period, Newer(archives, p)), Labels(period, Newer(kept, p));
    if |all| <= keep {
      PruningKeepsPeriods(period, keep, archives, kept, p);
    } else {
      PruningLeavesEnough(period, keep, archives, kept, p);
      SubsetSize(all, all + {Label(period, a)});
      SubsetSize(some, some + {Label(period, a)});
    }
  }

  /** An archive that the full history would still keep has survived the last pruning. */
  lemma {:induction false} StillKept(period: Period, keep: nat, archives: set<string>, a: string, p: string)
    requires p in archives && forall q :: q in archives ==> Text.Less(q, a)
    requires KeptFor(period, keep, archives + {a}, p)
    ensures KeptFor(period, keep, archives, p)
  {
    LabelsAboveWithNewest(period, archives, a, p);
    SubsetSize(Labels(period, Newer(archives, p)), Labels(period, Newer(archives, p)) + {Label(period, a)});
  }

  /** Pruning, adding a newer archive and pruning again is pruning everything once. */
  lemma {:induction false} PruneIsIncremental(archives: set<string>, a: string, keepDaily: nat, keepMonthly: nat)
    requires forall q :: q in archives ==> Text.Less(q, a)
    ensures Kept(Kept(archives, keepDaily, keepMonthly) + {a}, keepDaily, keepMonthly)
         == Kept(archives + {a}, keepDaily, keepMonthly)
  {
    var kept := Kept(archives, keepDaily, keepMonthly);
    forall p ensures p in Kept(kept + {a}, keepDaily, keepMonthly) <==> p in Kept(archives + {a}, keepDaily, keepMonthly) {
      if p == a {
        assert Newer(kept + {a}, a) == {} == Newer(archives + {a}, a) by {
          forall q | q in archives + {a} ensures !Text.Less(a, q) {
            if q in archives { Text.LessIsAsymmetric(q, a); } else if Text.Less(a, a) { Text.LessIsAsymmetric(a, a); }
          }
        }
      } else if p in kept {
        SameVerdict(Day, keepDaily, archives, kept, a, p);
        SameVerdict(Month, keepMonthly, archives, kept, a, p);
      } else if p in archives {
        if KeptFor(Day, keepDaily, archives + {a}, p) { StillKept(Day, keepDaily, archives, a, p); }
        if KeptFor(Month, keepMonthly, archives + {a}, p) { StillKept(Month, keepMonthly, archives, a, p); }
      }
    }
  }

  /** A directory pruned after every backup. */
  function PrunedAsYouGo(history: seq<string>, keepDaily: nat, keepMonthly: nat): set<string> {
    if history == [] then {}
    else
      var n := |history| - 1;
      Kept(PrunedAsYouGo(history[..n], keepDaily, keepMonthly) + {history[n]}, keepDaily, keepMonthly)
  }

  ghost predicate Ascending(history: seq<string>) {
    forall i, j :: 0 <= i < j < |history| ==> Text.Less(history[i], history[j])
  }

  /** Nothing is lost by pruning after every backup instead of once at the end. */
  lemma {:induction false} PruningAsYouGoIsPruningOnce(history: seq<string>, keepDaily: nat, keepMonthly: nat)
    requires Ascending(history)
    ensures PrunedAsYouGo(history, keepDaily, keepMonthly) == Kept(Members(history), keepDaily, keepMonthly)
  {
    if history != [] {
      var n := |history| - 1;
      PruningAsYouGoIsPruningOnce(history[..n], keepDaily, keepMonthly);
      forall q | q in Members(history[..n]) ensures Text.Less(q, history[n]) {
        var i :| 0 <= i < n && history[..n][i] == q;
        assert history[i] == q;
      }
      PruneIsIncremental(Members(history[..n]), history[n], keepDaily, keepMonthly);
      MembersStep(history, n);
      assert history[..n + 1] == history;
    }
  }

  // ---------------------------------------------------------------------------------------------
  // The calendar reading
  // ---------------------------------------------------------------------------------------------

  /** A name as the backup command writes it: a stamp of at least eight characters between prefix and suffix. */
  predicate IsArchiveName(name: string) {
    && ARCHIVE_PREFIX <= name && |ARCHIVE_PREFIX| + 8 + |ARCHIVE_SUFFIX| <= |name|
    && name[|name| - |ARCHIVE_SUFFIX|..] == ARCHIVE_SUFFIX
  }

  lemma {:induction false} LessBehindCommonPrefix(a: string, b: string, n: nat)
    requires n <= |a| && n <= |b| && (forall i :: 0 <= i < n ==> a[i] == b[i]) && Text.Less(a, b)
    ensures Text.Less(a[n..], b[n..])
  {
    if n == 0 {
      assert a[0..] == a && b[0..] == b;
    } else {
      LessBehindCommonPrefix(a[1..], b[1..], n - 1);
      assert a[1..][n - 1..] == a[n..] && b[1..][n - 1..] == b[n..];
    }
  }

  lemma LabelOfArchive(period: Period, name: string)
    requires IsArchiveName(name)
    ensures Label(period, name) == Text.Prefix(name[|ARCHIVE_PREFIX|..], if period.Day? then 8 else 6)
  {
    var rest := name[|ARCHIVE_PREFIX|..];
    assert rest[|rest| - |ARCHIVE_SUFFIX|..] == name[|name| - |ARCHIVE_SUFFIX|..];
    var n := if period.Day? then 8 else 6;
    assert Stamp(name) == rest[..|rest| - |ARCHIVE_SUFFIX|];
    assert Stamp(name)[..n] == rest[..n];
  }

  lemma {:induction false} LabelsFollowNames(period: Period, p: string, q: string)
    requires IsArchiveName(p) && IsArchiveName(q) && Text.Less(p, q)
    ensures Label(period, p) == Label(period, q) || Text.Less(Label(period, p), Label(period, q))
  {
    LabelOfArchive(period, p);
    LabelOfArchive(period, q);
    forall i | 0 <= i < |ARCHIVE_PREFIX| ensures p[i] == q[i] {
      assert p[i] == ARCHIVE_PREFIX[i];
    }
    LessBehindCommonPrefix(p, q, |ARCHIVE_PREFIX|);
    Text.PrefixIsMonotone(p[|ARCHIVE_PREFIX|..], q[|ARCHIVE_PREFIX|..], if period.Day? then 8 else 6);
  }

  /** The days or months of the directory that come after a given one. */
  function LaterLabels(period: Period, archives: set<string>, from: string): set<string> {
    set x | x in Labels(period, archives) && Text.Less(from, x)
  }

  /** The calendar reading: the newest archive of one of the latest `keep` days or months. */
  predicate KeptByCalendar(period: Period, keep: nat, archives: set<string>, p: string) {
    && (forall q :: q in archives && Label(period, q) == Label(period, p) && q != p ==> Text.Less(q, p))
    && |LaterLabels(period, archives, Label(period, p))| < keep
  }

  predicate IsNewest(period: Period, archives: set<string>, p: string) {
    p in archives && Label(period, p) !in Labels(period, Newer(archives, p))
  }

  /** The newest archives of the periods are in the order of their periods. */
  ghost predicate InCalendarOrder(period: Period, archives: set<string>) {
    forall p, q :: IsNewest(period, archives, p) && IsNewest(period, archives, q) && Text.Less(p, q) ==>
      Text.Less(Label(period, p), Label(period, q))
  }

  lemma {:induction false} NewestIff(period: Period, archives: set<string>, p: string)
    requires p in archives
    ensures IsNewest(period, archives, p)
       <==> forall q :: q in archives && Label(period, q) == Label(period, p) && q != p ==> Text.Less(q, p)
  {
    forall q | q in archives && q != p ensures Text.Less(q, p) <==> q !in Newer(archives, p) {
      Text.LessIsTotal(p, q);
      if Text.Less(q, p) { Text.LessIsAsymmetric(q, p); }
    }
    if !IsNewest(period, archives, p) {
      var q :| q in Newer(archives, p) && Label(period, q) == Label(period, p);
      Text.LessIsAsymmetric(p, q);
    }
  }

  /** Each period in the directory has a newest archive, and no other archive of the period is newer. */
  lemma NewestOfLabel(period: Period, archives: set<string>, x: string) returns (newest: string)
    requires x in Labels(period, archives)
    ensures IsNewest(period, archives, newest) && Label(period, newest) == x
    ensures forall q :: q in archives && Label(period, q) == x && q != newest ==> Text.Less(q, newest)
  {
    var sharing := set q | q in archives && Label(period, q) == x;
    var some :| some in archives && Label(period, some) == x;
    assert some in sharing;
    newest := NewestOf(sharing);
    NewestIff(period, archives, newest);
  }

  lemma LaterThanNewest(period: Period, archives: set<string>, p: string, x: string)
    requires IsNewest(period, archives, p) && InCalendarOrder(period, archives)
    ensures x in Labels(period, Newer(archives, p)) <==> x in LaterLabels(period, archives, Label(period, p))
  {
    if x in Labels(period, archives) {
      var newest := NewestOfLabel(period, archives, x);
      if x in Labels(period, Newer(archives, p)) {
        var q :| q in Newer(archives, p) && Label(period, q) == x;
        if q != newest { Text.LessIsTransitive(p, q, newest); }
      }
      if x in LaterLabels(period, archives, Label(period, p)) {
        Text.LessIsAsymmetric(Label(period, p), x);
        Text.LessIsTotal(p, newest);
        if Text.Less(newest, p) { assert Text.Less(x, Label(period, p)); }
        assert newest in Newer(archives, p);
      }
    }
  }

  /** In calendar order, what is kept is the newest archive of each of the latest days, and of each of the latest months. */
  lemma KeptAreNewestOfLatestPeriods(period: Period, keep: nat, archives: set<string>, p: string)
    requires InCalendarOrder(period, archives) && p in archives
    ensures KeptFor(period, keep, archives, p) <==> KeptByCalendar(period, keep, archives, p)
  {
    NewestIff(period, archives, p);
    if IsNewest(period, archives, p) {
      forall x ensures x in Labels(period, Newer(archives, p)) <==> x in LaterLabels(period, archives, Label(period, p)) {
        LaterThanNewest(period, archives, p, x);
      }
      assert Labels(period, Newer(archives, p)) == LaterLabels(period, archives, Label(period, p));
    }
  }

  lemma ProperSubsetSize(a: set<string>, b: set<string>, x: string)
    requires a <= b && x in b && x !in a
    ensures |a| < |b|
  {
    SubsetSize(a, b - {x});
  }

  /** How many periods come after `p`'s, by the names of their archives and by the calendar. */
  lemma RanksAgree(period: Period, archives: set<string>, p: string)
    requires IsNewest(period, archives, p)
    requires forall keep: nat :: KeptFor(period, keep, archives, p) <==> KeptByCalendar(period, keep, archives, p)
    ensures |Labels(period, Newer(archives, p))| == |LaterLabels(period, archives, Label(period, p))|
  {
    NewestIff(period, archives, p);
    var byName, byCalendar := |Labels(period, Newer(archives, p))|, |LaterLabels(period, archives, Label(period, p))|;
    assert KeptFor(period, byName + 1, archives, p) && KeptByCalendar(period, byCalendar + 1, archives, p);
    assert KeptFor(period, byCalendar + 1, archives, p) && KeptByCalendar(period, byName + 1, archives, p);
  }

  lemma {:induction false} NewerHasFewer(period: Period, archives: set<string>, p: string, q: string)
    requires p in archives && IsNewest(period, archives, q) && Text.Less(p, q)
    ensures |Labels(period, Newer(archives, q))| < |Labels(period, Newer(archives, p))|
  {
    forall r | r in Newer(archives, q) ensures r in Newer(archives, p) {
      Text.LessIsTransitive(p, q, r);
    }
    assert q in Newer(archives, p);
    ProperSubsetSize(Labels(period, Newer(archives, q)), Labels(period, Newer(archives, p)), Label(period, q));
  }

  lemma {:induction false} LaterHasFewer(period: Period, archives: set<string>, from: string, to: string)
    requires to in Labels(period, archives) && Text.Less(from, to)
    ensures |LaterLabels(period, archives, to)| < |LaterLabels(period, archives, from)|
  {
    forall x | x in LaterLabels(period, archives, to) ensures x in LaterLabels(period, archives, from) {
      Text.LessIsTransitive(from, to, x);
    }
    if to in LaterLabels(period, archives, to) { Text.LessIsAsymmetric(to, to); }
    ProperSubsetSize(LaterLabels(period, archives, to), LaterLabels(period, archives, from), to);
  }

  /** The calendar reading is right for every archive and setting exactly when the directory is in calendar order. */
  lemma CalendarReadingIff(period: Period, archives: set<string>)
    ensures (forall keep: nat, p :: p in archives ==>
               (KeptFor(period, keep, archives, p) <==> KeptByCalendar(period, keep, archives, p)))
       <==> InCalendarOrder(period, archives)
  {
    if InCalendarOrder(period, archives) {
      forall keep: nat, p | p in archives
        ensures KeptFor(period, keep, archives, p) <==> KeptByCalendar(period, keep, archives, p)
      {
        KeptAreNewestOfLatestPeriods(period, keep, archives, p);
      }
    } else {
      var p, q :| IsNewest(period, archives, p) && IsNewest(period, archives, q) && Text.Less(p, q)
        && !Text.Less(Label(period, p), Label(period, q));
      DisorderShows(period, archives, p, q);
    }
  }

  lemma {:induction false} DisorderShows(period: Period, archives: set<string>, p: string, q: string)
    requires IsNewest(period, archives, p) && IsNewest(period, archives, q) && Text.Less(p, q)
    requires !Text.Less(Label(period, p), Label(period, q))
    ensures exists keep: nat, r :: r in archives && (KeptFor(period, keep, archives, r) != KeptByCalendar(period, keep, archives, r))
  {
    NewerHasFewer(period, archives, p, q);
    assert q in Newer(archives, p);
    Text.LessIsTotal(Label(period, p), Label(period, q));
    LaterHasFewer(period, archives, Label(period, q), Label(period, p));
    if forall keep: nat, r :: r in archives ==> (KeptFor(period, keep, archives, r) <==> KeptByCalendar(period, keep, archives, r)) {
      RanksAgree(period, archives, p);
      RanksAgree(period, archives, q);
    }
  }

  /** Archives named as the backup command names them are in calendar order. */
  lemma ArchiveNamesAreInOrder(period: Period, archives: set<string>)
    requires forall q :: q in archives ==> IsArchiveName(q)
    ensures InCalendarOrder(period, archives)
  {
    forall p, q | IsNewest(period, archives, p) && IsNewest(period, archives, q) && Text.Less(p, q)
      ensures Text.Less(Label(period, p), Label(period, q))
    {
      LabelsFollowNames(period, p, q);
      assert q in Newer(archives, p);
    }
  }

  function ArchiveName(stamp: string): string {
    ARCHIVE_PREFIX + stamp + ARCHIVE_SUFFIX
  }

  lemma ShortLabel(stamp: string)
    requires |stamp| <= 8
    ensures Label(Day, ArchiveName(stamp)) == stamp
  {
    assert ArchiveName(stamp)[|ARCHIVE_PREFIX|..] == stamp + ARCHIVE_SUFFIX;
  }

  lemma {:induction false} LessBehindPrefix(prefix: string, a: string, b: string)
    requires Text.Less(a, b)
    ensures Text.Less(prefix + a, prefix + b)
  {
    if prefix == "" {
      assert prefix + a == a && prefix + b == b;
    } else {
      LessBehindPrefix(prefix[1..], a, b);
      assert (prefix + a)[1..] == prefix[1..] + a && (prefix + b)[1..] == prefix[1..] + b;
    }
  }

  lemma {:induction false} NotLessThanOwnPrefix(a: string, b: string)
    requires a <= b
    ensures !Text.Less(b, a)
  {
    if a != "" { NotLessThanOwnPrefix(a[1..], b[1..]); }
  }

  /** Short stamps need not be: the archive of a year sorts above that of one of its months, since '-' sorts below '.'. */
  lemma ShortStampsOutOfOrder()
    ensures !InCalendarOrder(Day, {ArchiveName("2024"), ArchiveName("2024-01")})
  {
    var year, month := ArchiveName("2024"), ArchiveName("2024-01");
    ShortLabel("2024");
    ShortLabel("2024-01");
    var behind := ARCHIVE_PREFIX + "2024";
    assert year == behind + ARCHIVE_SUFFIX && month == behind + ("-01" + ARCHIVE_SUFFIX);
    LessBehindPrefix(behind, "-01" + ARCHIVE_SUFFIX, ARCHIVE_SUFFIX);
    NotLessThanOwnPrefix("2024", "2024-01");
    PairOutOfOrder(Day, month, year);
    assert {month, year} == {year, month};
  }

  lemma {:induction false} PairOutOfOrder(period: Period, p: string, q: string)
    requires Text.Less(p, q) && Label(period, p) != Label(period, q) && !Text.Less(Label(period, p), Label(period, q))
    ensures !InCalendarOrder(period, {p, q})
  {
    var pair := {p, q};
    Text.LessIsAsymmetric(p, q);
    if Text.Less(p, p) { Text.LessIsAsymmetric(p, p); }
    if Text.Less(q, q) { Text.LessIsAsymmetric(q, q); }
    assert Newer(pair, q) == {} && Newer(pair, p) == {q};
    assert Labels(period, Newer(pair, p)) == {Label(period, q)};
    assert IsNewest(period, pair, p) && IsNewest(period, pair, q);
  }

  /** An archive's day is the first eight characters behind the prefix, its month the first six. */
  lemma LabelsOfStamp(stamp: string)
    requires |stamp| >= 8
    ensures Label(Day, "crewday-backup-" + stamp + ".tar.zst") == stamp[..8]
    ensures Label(Month, "crewday-backup-" + stamp + ".tar.zst") == stamp[..6]
  {
    var name := ArchiveName(stamp);
    assert name == "crewday-backup-" + stamp + ".tar.zst";
    assert name[|ARCHIVE_PREFIX|..] == stamp + ARCHIVE_SUFFIX;
    var rest := stamp + ARCHIVE_SUFFIX;
    assert rest[|rest| - |ARCHIVE_SUFFIX|..] == ARCHIVE_SUFFIX && rest[..|rest| - |ARCHIVE_SUFFIX|] == stamp;
  }

  /** What a rotation leaves of archives in calendar order: the newest of each of the latest days, and of the latest months. */
  lemma KeptIsDailyAndMonthly(archives: set<string>, keepDaily: nat, keepMonthly: nat, p: string)
    requires InCalendarOrder(Day, archives) && InCalendarOrder(Month, archives)
    ensures p in Kept(archives, keepDaily, keepMonthly)
       <==> p in archives && (KeptByCalendar(Day, keepDaily, archives, p) || KeptByCalendar(Month, keepMonthly, archives, p))
  {
    if p in archives {
      KeptAreNewestOfLatestPeriods(Day, keepDaily, archives, p);
      KeptAreNewestOfLatestPeriods(Month, keepMonthly, archives, p);
    }
  }
}
