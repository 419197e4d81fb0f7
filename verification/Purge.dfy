/** Disk pressure and the purging of uploaded files (app/domain/shipper/disk.go),
    and the usage it is computed from (app/storage/disk/disk.go). */
module Purge {
  import opened Text

  datatype Pressure = NoPressure | Low | Medium | High | Critical
  {
    function Rank(): nat {
      match this case NoPressure => 0 case Low => 1 case Medium => 2 case High => 3 case Critical => 4
    }
  }

  datatype Thresholds = Thresholds(critical: real, high: real, medium: real, low: real)

  function GetThresholds(memoryBacked: bool): Thresholds {
    if memoryBacked then Thresholds(80.0, 60.0, 40.0, 20.0) else Thresholds(95.0, 85.0, 70.0, 50.0)
  }

  function CalculatePressureLevel(percentUsed: real, memoryBacked: bool): Pressure {
    var t := GetThresholds(memoryBacked);
    if percentUsed >= t.critical then Critical
    else if percentUsed >= t.high then High
    else if percentUsed >= t.medium then Medium
    else if percentUsed >= t.low then Low
    else NoPressure
  }

  function GetCleanupPercentage(pressure: Pressure, memoryBacked: bool): int {
    match pressure
    case Critical => if memoryBacked then 70 else 50
    case High => if memoryBacked then 50 else 25
    case _ => if memoryBacked then 30 else 10
  }

  // ---------------------------------------------------------------- usage

  /** Statistics of the file system under the storage path. */
  datatype Usage = Usage(total: nat, used: nat, available: nat, percentUsed: real)

  /** GetUsage's scaling to a configured limit below the physical size. */
  function Limited(u: Usage, limit: nat): Usage {
    if 0 < limit < u.total then
      var used := if u.used >= limit then limit else u.used;
      Usage(limit, used, limit - used, used as real / limit as real * 100.0)
    else u
  }

  /** A limit in force accounts for every byte of it, and reports at most full. */
  lemma LimitedUsageAddsUp(u: Usage, limit: nat)
    requires 0 < limit < u.total
    ensures var l := Limited(u, limit);
            && l.total == limit && l.used + l.available == limit
            && l.used == (if u.used < limit then u.used else limit)
            && l.percentUsed * limit as real == l.used as real * 100.0
            && 0.0 <= l.percentUsed <= 100.0
            && (l.percentUsed == 100.0 <==> u.used >= limit)
  {
    var used := if u.used >= limit then limit else u.used;
    RatioBounds(used as real, limit as real);
  }

  lemma SignOfProduct(x: real, b: real)
    requires b > 0.0
    ensures x * b <= 0.0 <==> x <= 0.0
    ensures x * b == 0.0 <==> x == 0.0
  {
    if x > 0.0 { assert x * b > 0.0; }
    if x < 0.0 { assert x * b < 0.0; }
  }

  lemma RatioBounds(a: real, b: real)
    requires 0.0 <= a <= b && b > 0.0
    ensures 0.0 <= a / b * 100.0 <= 100.0
    ensures a / b * 100.0 == 100.0 <==> a == b
  {
    var t := a / b;
    assert t * b == a;
    assert (t - 1.0) * b == a - b;
    SignOfProduct(t - 1.0, b);
    assert (-t) * b == -a;
    SignOfProduct(-t, b);
  }

  /** Freeing bytes does not raise the reported percentage. Only where no limit is in
      force is the percentage the file system's own. */
  lemma LimitedUsageIsMonotone(u: Usage, v: Usage, limit: nat)
    requires v.total == u.total && v.used <= u.used
    requires 0 < limit < u.total || v.percentUsed <= u.percentUsed
    ensures Limited(v, limit).percentUsed <= Limited(u, limit).percentUsed
  {
    if 0 < limit < u.total {
      RatioMonotone(Limited(v, limit).used as real, Limited(u, limit).used as real, limit as real);
    }
  }

  lemma RatioMonotone(a: real, b: real, c: real)
    requires 0.0 <= a <= b && c > 0.0
    ensures a / c * 100.0 <= b / c * 100.0
  {
    var x, y := a / c, b / c;
    assert x * c == a && y * c == b;
    assert (x - y) * c == a - b;
    SignOfProduct(x - y, c);
  }

  // -------------------------------------------------------------- pressure

  /** More usage never means less pressure; memory-backed storage is never under
      less pressure, nor cleaned up less, than disk-backed storage. */
  lemma PressureIsMonotone(p: real, q: real, memoryBacked: bool)
    requires p <= q
    ensures CalculatePressureLevel(p, memoryBacked).Rank() <= CalculatePressureLevel(q, memoryBacked).Rank()
    ensures CalculatePressureLevel(p, false).Rank() <= CalculatePressureLevel(p, true).Rank()
    ensures GetCleanupPercentage(CalculatePressureLevel(p, false), false)
            <= GetCleanupPercentage(CalculatePressureLevel(q, true), true)
  {
  }

  // ---------------------------------------------------------------- purging

  datatype FileInfo = FileInfo(path: string, modTime: int)

  /** `listed` is the walk of the uploaded directory: every file in it, once. */
  ghost predicate Lists(files: map<string, int>, listed: seq<FileInfo>) {
    && (forall f :: f in listed ==> f.path in files && files[f.path] == f.modTime)
    && (forall path :: path in files ==> FileInfo(path, files[path]) in listed)
    && (forall i, j :: 0 <= i < j < |listed| ==> listed[i].path != listed[j].path)
  }

  predicate SortedByTime(listed: seq<FileInfo>) {
    forall i, j :: 0 <= i < j < |listed| ==> listed[i].modTime <= listed[j].modTime
  }

  function NumToRemove(n: nat, percent: nat): nat {
    var k := n * percent / 100;
    if k == 0 && percent > 0 then 1 else k
  }

  /** The number of files to remove: that share of them, rounded down but for a
      last one, and never more than there are. */
  lemma NumToRemoveIsShare(n: nat, percent: nat)
    requires 0 < n && percent <= 100
    ensures var k := NumToRemove(n, percent);
            && k <= n
            && (percent == 0 <==> k == 0)
            && (percent == 100 ==> k == n)
            && (100 * k <= n * percent || (k == 1 && n * percent < 100))
            && n * percent < 100 * (k + 1)
  {
    var x := n * percent;
    assert x <= n * 100 by { MulMonotone(n, percent, 100); }
    assert percent > 0 ==> x > 0 by { if percent > 0 { MulMonotone(n, 1, percent); } }
  }

  lemma MulMonotone(n: nat, a: nat, b: nat)
    requires a <= b
    ensures n * a <= n * b
  {
  }

  /** The files of `listed` that could be removed. */
  function Removable(listed: seq<FileInfo>, removeOk: string -> bool): set<string> {
    set f | f in listed && removeOk(f.path) :: f.path
  }

  lemma RemovableNext(listed: seq<FileInfo>, i: nat, removeOk: string -> bool)
    requires i < |listed|
    requires forall j, k :: 0 <= j < k < |listed| ==> listed[j].path != listed[k].path
    ensures Removable(listed[..i + 1], removeOk)
            == Removable(listed[..i], removeOk) + if removeOk(listed[i].path) then {listed[i].path} else {}
    ensures listed[i].path !in Removable(listed[..i], removeOk)
  {
    assert listed[..i + 1] == listed[..i] + [listed[i]];
  }

  lemma MinusOneMore(files: map<string, int>, gone: set<string>, path: string)
    requires path !in gone
    ensures files - gone - {path} == files - (gone + {path})
    ensures |gone + {path}| == |gone| + 1
  {
  }

  predicate Stale(f: FileInfo, before: int) {
    f.modTime < before
  }

  method StaleFiles(listed: seq<FileInfo>, before: int) returns (stale: seq<FileInfo>)
    requires forall j, k :: 0 <= j < k < |listed| ==> listed[j].path != listed[k].path
    ensures forall f :: f in stale <==> f in listed && Stale(f, before)
    ensures forall j, k :: 0 <= j < k < |stale| ==> stale[j].path != stale[k].path
  {
    stale := [];
    for i := 0 to |listed|
      invariant forall f :: f in stale <==> f in listed[..i] && Stale(f, before)
      invariant forall j, k :: 0 <= j < k < |stale| ==> stale[j].path != stale[k].path
    {
      assert listed[..i + 1] == listed[..i] + [listed[i]];
      if listed[i].modTime < before {
        assert forall j :: 0 <= j < |stale| ==> stale[j] in listed[..i];
        stale := stale + [listed[i]];
      }
    }
    assert listed[..|listed|] == listed;
  }

  /** What time-based purging leaves of `files`. */
  function Since(files: map<string, int>, before: int, removeOk: string -> bool): map<string, int> {
    map path | path in files && (files[path] >= before || !removeOk(path)) :: files[path]
  }

  datatype Result = Result(filesRemoved: int, before: Pressure, after: Pressure)

  /** How the walks and the readings of the used percentage during a cleanup turn out. */
  datatype Readings = Readings(firstWalk: bool, usage: Option<real>, secondWalk: bool, finalUsage: Option<real>)

  /** After the time-based step the pressure is still high or critical. */
  predicate StillHigh(read: Readings, memoryBacked: bool) {
    read.usage.Some? && CalculatePressureLevel(read.usage.value, memoryBacked).Rank() >= High.Rank()
  }

  /** The share of the files that goes with the pressure then. */
  function SharePercent(read: Readings, memoryBacked: bool): int
    requires read.usage.Some?
  {
    GetCleanupPercentage(CalculatePressureLevel(read.usage.value, memoryBacked), memoryBacked)
  }

  /** A walk or a reading that a step needs fails. */
  predicate SecondStepFails(read: Readings, memoryBacked: bool) {
    read.usage.None? || (StillHigh(read, memoryBacked) && (!read.secondWalk || read.finalUsage.None?))
  }

  predicate CleanupFails(initial: Pressure, read: Readings, memoryBacked: bool) {
    (initial.Rank() >= Medium.Rank() && !read.firstWalk) || SecondStepFails(read, memoryBacked)
  }

  /** `after` is what `before` becomes when the oldest `percent` per cent of its files
      are removed, but for those that cannot be: nothing that could be removed and
      stayed is older than what went, and no more go than the share, just as many when
      all could. */
  ghost predicate OldestGone(
      before: map<string, int>, after: map<string, int>, percent: int, removeOk: string -> bool)
  {
    var gone := before.Keys - after.Keys;
    && 0 <= percent <= 100
    && after.Keys <= before.Keys
    && (forall path :: path in after ==> after[path] == before[path])
    && (forall path :: path in gone ==> removeOk(path))
    && (forall path, kept :: path in gone && kept in after && removeOk(kept) ==> before[path] <= before[kept])
    && |gone| <= NumToRemove(|before|, percent)
    && ((forall path :: path in before ==> removeOk(path)) ==>
          |gone| == if |before| == 0 then 0 else NumToRemove(|before|, percent))
  }

  function AfterFirstStep(
      files: map<string, int>, initial: Pressure, cutoff: int, removeOk: string -> bool): map<string, int>
  {
    if initial.Rank() >= Medium.Rank() then Since(files, cutoff, removeOk) else files
  }

  /** The second step fails before it removes anything. */
  predicate MeasuresTooLittle(read: Readings, memoryBacked: bool) {
    read.usage.None? || (StillHigh(read, memoryBacked) && !read.secondWalk)
  }

  ghost predicate IsSecondStep(
      between: map<string, int>, after: map<string, int>, read: Readings, memoryBacked: bool, removeOk: string -> bool)
  {
    if StillHigh(read, memoryBacked) then OldestGone(between, after, SharePercent(read, memoryBacked), removeOk)
    else after == between
  }

  /** What a whole cleanup makes of the directory. */
  ghost predicate IsCleanedUp(
      before: map<string, int>, after: map<string, int>, initial: Pressure, cutoff: int,
      read: Readings, memoryBacked: bool, removeOk: string -> bool)
  {
    IsSecondStep(AfterFirstStep(before, initial, cutoff, removeOk), after, read, memoryBacked, removeOk)
  }

  /** What a cleanup has already done when it fails. */
  ghost predicate IsLeftByFailure(
      before: map<string, int>, after: map<string, int>, initial: Pressure, cutoff: int,
      read: Readings, memoryBacked: bool, removeOk: string -> bool)
  {
    if initial.Rank() >= Medium.Rank() && !read.firstWalk then after == before
    else if MeasuresTooLittle(read, memoryBacked) then after == AfterFirstStep(before, initial, cutoff, removeOk)
    else IsCleanedUp(before, after, initial, cutoff, read, memoryBacked, removeOk)
  }

  /** A walk lists whatever the directory then holds, and is sorted by time. */
  ghost predicate Walks(listing: map<string, int> -> seq<FileInfo>) {
    forall files :: Lists(files, listing(files)) && SortedByTime(listing(files))
  }

  /** The pressure a cleanup reports: that of the last reading it had to take. */
  predicate IsPressureAfter(after: Pressure, read: Readings, memoryBacked: bool) {
    && read.usage.Some?
    && (StillHigh(read, memoryBacked) ==> read.finalUsage.Some?)
    && after == CalculatePressureLevel(
         if StillHigh(read, memoryBacked) then read.finalUsage.value else read.usage.value, memoryBacked)
  }

  class DiskManager {
    const memoryBacked: bool
    var uploaded: map<string, int>    // modification times in the uploaded directory

    constructor (uploaded: map<string, int>, memoryBacked: bool)
      ensures this.uploaded == uploaded && this.memoryBacked == memoryBacked
    {
      this.uploaded, this.memoryBacked := uploaded, memoryBacked;
    }

    /** os.Remove over a list of files; those that fail are skipped. */
    method RemoveAll(listed: seq<FileInfo>, removeOk: string -> bool) returns (removed: nat)
      requires forall i, j :: 0 <= i < j < |listed| ==> listed[i].path != listed[j].path
      modifies this`uploaded
      ensures uploaded == old(uploaded) - Removable(listed, removeOk)
      ensures removed == |Removable(listed, removeOk)|
    {
      removed := 0;
      ghost var gone: set<string> := {};
      ghost var before := uploaded;
      var i := 0;
      while i < |listed|
        invariant i <= |listed| && gone == Removable(listed[..i], removeOk)
        invariant uploaded == before - gone
        invariant removed == |gone|
      {
        RemovableNext(listed, i, removeOk);
        if removeOk(listed[i].path) {
          MinusOneMore(before, gone, listed[i].path);
          uploaded := uploaded - {listed[i].path};
          removed := removed + 1;
          gone := gone + {listed[i].path};
        }
        i := i + 1;
      }
      assert listed[..|listed|] == listed;
    }

    /** Removes every uploaded file last modified before `before` that can be removed. */
    method PurgeFilesBefore(listed: seq<FileInfo>, before: int, removeOk: string -> bool) returns (removed: nat)
      requires Lists(uploaded, listed)
      modifies this`uploaded
      ensures uploaded == Since(old(uploaded), before, removeOk)
      ensures forall path :: path in uploaded <==>
                path in old(uploaded) && (old(uploaded)[path] >= before || !removeOk(path))
      ensures forall path :: path in uploaded ==> uploaded[path] == old(uploaded)[path]
      ensures removed == |old(uploaded).Keys - uploaded.Keys|
    {
      var stale := StaleFiles(listed, before);
      StaleAreRemovable(uploaded, listed, stale, before, removeOk);
      removed := RemoveAll(stale, removeOk);
    }

    /** Removes the oldest `percent` per cent, going by `sorted`: any listing of the
        directory that is in time order, whichever way ties were broken. */
    method PurgeOldestPercentage(sorted: seq<FileInfo>, percent: int, removeOk: string -> bool)
      returns (ok: bool, removed: nat)
      requires Lists(uploaded, sorted) && SortedByTime(sorted)
      modifies this`uploaded
      ensures ok <==> 0 <= percent <= 100
      ensures !ok ==> uploaded == old(uploaded) && removed == 0
      ensures ok ==> OldestGone(old(uploaded), uploaded, percent, removeOk)
      ensures removed == |old(uploaded).Keys - uploaded.Keys|
    {
      if percent < 0 || percent > 100 {
        return false, 0;
      }
      if |sorted| == 0 {
        NothingGone(uploaded, sorted, percent, removeOk);
        return true, 0;
      }
      var numToRemove := |sorted| * percent / 100;
      if numToRemove == 0 && percent > 0 {
        numToRemove := 1;
      }
      NumToRemoveIsShare(|sorted|, percent);
      var oldest := sorted[..numToRemove];
      removed := RemoveAll(oldest, removeOk);
      ok := true;
      OldestAreGone(old(uploaded), sorted, percent, removeOk);
    }

    /** The first step of a cleanup: from medium pressure on, the files before the cutoff go. */
    method PurgeStaleFiles(
        initial: Pressure, cutoff: int, walkOk: bool,
        listing: map<string, int> -> seq<FileInfo>, removeOk: string -> bool)
      returns (ok: bool, removed: nat)
      requires Walks(listing)
      modifies this`uploaded
      ensures ok <==> initial.Rank() < Medium.Rank() || walkOk
      ensures uploaded == if ok then AfterFirstStep(old(uploaded), initial, cutoff, removeOk) else old(uploaded)
      ensures removed == |old(uploaded).Keys - uploaded.Keys|
    {
      ok, removed := true, 0;
      if initial.Rank() >= Medium.Rank() {
        if !walkOk {
          return false, 0;
        }
        removed := PurgeFilesBefore(listing(uploaded), cutoff, removeOk);
      }
    }

    /** The second step: while the pressure is high, the share of files that goes with it. */
    method PurgeShare(read: Readings, listing: map<string, int> -> seq<FileInfo>, removeOk: string -> bool)
      returns (ok: bool, removed: nat, after: Pressure)
      requires Walks(listing)
      modifies this`uploaded
      ensures ok <==> !SecondStepFails(read, memoryBacked)
      ensures if MeasuresTooLittle(read, memoryBacked) then uploaded == old(uploaded)
              else IsSecondStep(old(uploaded), uploaded, read, memoryBacked, removeOk)
      ensures ok ==> removed == |old(uploaded).Keys - uploaded.Keys|
      ensures ok ==> IsPressureAfter(after, read, memoryBacked)
    {
      ok, removed, after := false, 0, NoPressure;
      if read.usage.None? {
        return;
      }
      after := CalculatePressureLevel(read.usage.value, memoryBacked);
      if after.Rank() >= High.Rank() {
        if !read.secondWalk {
          return;
        }
        ok, removed := PurgeOldestPercentage(listing(uploaded), GetCleanupPercentage(after, memoryBacked), removeOk);
        if read.finalUsage.None? {
          return false, removed, after;
        }
        after := CalculatePressureLevel(read.finalUsage.value, memoryBacked);
      }
      ok := true;
    }

    /** Purging with escalating aggression; no result means an error along the way.
        `listing` stands for the sorted walk of whatever the directory then holds. */
    method ExecuteCleanupStrategy(
        initial: Pressure, cutoff: int, read: Readings,
        listing: map<string, int> -> seq<FileInfo>, removeOk: string -> bool)
      returns (result: Option<Result>)
      requires Walks(listing)
      modifies this`uploaded
      ensures result.None? <==> CleanupFails(initial, read, memoryBacked)
      ensures result.None? ==> IsLeftByFailure(old(uploaded), uploaded, initial, cutoff, read, memoryBacked, removeOk)
      ensures result.Some? ==>
                && result.value.before == initial
                && result.value.filesRemoved == |old(uploaded).Keys - uploaded.Keys|
                && IsPressureAfter(result.value.after, read, memoryBacked)
                && IsCleanedUp(old(uploaded), uploaded, initial, cutoff, read, memoryBacked, removeOk)
    {
      var walked, stale := PurgeStaleFiles(initial, cutoff, read.firstWalk, listing, removeOk);
      if !walked {
        return None;
      }
      ghost var between := uploaded;
      var measured, oldest, current := PurgeShare(read, listing, removeOk);
      if !measured {
        return None;
      }
      StepsCleanUp(old(uploaded), between, uploaded, initial, cutoff, read, memoryBacked, removeOk);
      result := Some(Result(stale + oldest, initial, current));
    }
  }

  lemma StepsCleanUp(
      before: map<string, int>, between: map<string, int>, after: map<string, int>, initial: Pressure, cutoff: int,
      read: Readings, memoryBacked: bool, removeOk: string -> bool)
    requires between == AfterFirstStep(before, initial, cutoff, removeOk)
    requires IsSecondStep(between, after, read, memoryBacked, removeOk)
    ensures IsCleanedUp(before, after, initial, cutoff, read, memoryBacked, removeOk)
    ensures |before.Keys - after.Keys| == |before.Keys - between.Keys| + |between.Keys - after.Keys|
  {
    RemovalsAddUp(before.Keys, between.Keys, after.Keys);
  }

  lemma RemovalsAddUp(a: set<string>, b: set<string>, c: set<string>)
    requires c <= b <= a
    ensures |a - c| == |a - b| + |b - c|
  {
    assert a - c == (a - b) + (b - c);
    assert (a - b) * (b - c) == {};
  }

  /** If removing files never raises the used percentage, a cleanup never ends under
      more pressure than it began with. */
  lemma CleanupNeverRaisesPressure(percent: real, result: Result, read: Readings, memoryBacked: bool)
    requires result.before == CalculatePressureLevel(percent, memoryBacked)
    requires IsPressureAfter(result.after, read, memoryBacked)
    requires read.usage.value <= percent
    requires read.finalUsage.Some? ==> read.finalUsage.value <= read.usage.value
    ensures result.after.Rank() <= result.before.Rank()
  {
    PressureIsMonotone(read.usage.value, percent, memoryBacked);
    if read.finalUsage.Some? {
      PressureIsMonotone(read.finalUsage.value, read.usage.value, memoryBacked);
    }
  }

  lemma StaleAreRemovable(
      files: map<string, int>, listed: seq<FileInfo>, stale: seq<FileInfo>, before: int, removeOk: string -> bool)
    requires Lists(files, listed)
    requires forall f :: f in stale <==> f in listed && Stale(f, before)
    ensures files - Removable(stale, removeOk) == Since(files, before, removeOk)
    ensures Removable(stale, removeOk) == files.Keys - Since(files, before, removeOk).Keys
  {
    var gone := Removable(stale, removeOk);
    forall path | path in files
      ensures path in gone <==> files[path] < before && removeOk(path)
    {
      var f := FileInfo(path, files[path]);
      assert f in listed;
      if files[path] < before && removeOk(path) { assert f in stale; }
    }
  }

  lemma {:induction false} PathsCount(listed: seq<FileInfo>, removeOk: string -> bool)
    requires forall i, j :: 0 <= i < j < |listed| ==> listed[i].path != listed[j].path
    requires forall f :: f in listed ==> removeOk(f.path)
    ensures |Removable(listed, removeOk)| == |listed|
  {
    if listed != [] {
      var front, last := listed[..|listed| - 1], listed[|listed| - 1];
      assert listed == front + [last];
      PathsCount(front, removeOk);
      assert Removable(listed, removeOk) == Removable(front, removeOk) + {last.path};
      assert last.path !in Removable(front, removeOk);
    }
  }

  lemma {:induction false} RemovableBounded(listed: seq<FileInfo>, removeOk: string -> bool)
    ensures |Removable(listed, removeOk)| <= |listed|
  {
    if listed != [] {
      var front, last := listed[..|listed| - 1], listed[|listed| - 1];
      assert listed == front + [last];
      RemovableBounded(front, removeOk);
      assert Removable(listed, removeOk)
          == Removable(front, removeOk) + if removeOk(last.path) then {last.path} else {};
    }
  }

  lemma ListingCounts(files: map<string, int>, listed: seq<FileInfo>)
    requires Lists(files, listed)
    ensures |listed| == |files|
  {
    PathsCount(listed, _ => true);
    var paths := Removable(listed, _ => true);
    forall path | path in files.Keys ensures path in paths {
      assert FileInfo(path, files[path]) in listed;
    }
    assert paths == files.Keys;
  }

  /** The removable files of the first `k` in time order are no newer than the
      removable ones that stay, and there are `k` of them when all can be removed. */
  lemma RemovedAreOldest(files: map<string, int>, sorted: seq<FileInfo>, k: nat, removeOk: string -> bool)
    requires Lists(files, sorted) && SortedByTime(sorted) && k <= |sorted|
    ensures var gone := Removable(sorted[..k], removeOk);
            && (forall p :: p in gone ==> p in files && removeOk(p))
            && (forall p, q :: p in gone && q in files && q !in gone && removeOk(q) ==> files[p] <= files[q])
            && ((forall p :: p in files ==> removeOk(p)) ==> |gone| == k)
  {
    var gone := Removable(sorted[..k], removeOk);
    RemovedAreFiles(files, sorted, k, removeOk);
    forall p, q | p in gone && q in files && q !in gone && removeOk(q) ensures files[p] <= files[q] {
      RemovedIsOlder(files, sorted, k, removeOk, p, q);
    }
    if forall p :: p in files ==> removeOk(p) {
      AllAreRemoved(files, sorted, k, removeOk);
    }
  }

  lemma AllAreRemoved(files: map<string, int>, sorted: seq<FileInfo>, k: nat, removeOk: string -> bool)
    requires Lists(files, sorted) && k <= |sorted|
    requires forall p :: p in files ==> removeOk(p)
    ensures |Removable(sorted[..k], removeOk)| == k
  {
    assert forall f :: f in sorted[..k] ==> f in sorted;
    PathsCount(sorted[..k], removeOk);
  }

  lemma GoneAreTheDifference(files: map<string, int>, gone: set<string>)
    requires gone <= files.Keys
    ensures gone == files.Keys - (files - gone).Keys
  {
  }

  lemma RemovedAreFiles(files: map<string, int>, sorted: seq<FileInfo>, k: nat, removeOk: string -> bool)
    requires Lists(files, sorted) && k <= |sorted|
    ensures forall p :: p in Removable(sorted[..k], removeOk) ==> p in files && removeOk(p)
  {
    assert forall f :: f in sorted[..k] ==> f in sorted;
  }

  lemma RemovedIsOlder(
      files: map<string, int>, sorted: seq<FileInfo>, k: nat, removeOk: string -> bool, p: string, q: string)
    requires Lists(files, sorted) && SortedByTime(sorted) && k <= |sorted|
    requires p in Removable(sorted[..k], removeOk)
    requires q in files && q !in Removable(sorted[..k], removeOk) && removeOk(q)
    ensures p in files && files[p] <= files[q]
  {
    assert forall m :: 0 <= m < k ==> sorted[..k][m] == sorted[m] && sorted[m] in sorted[..k];
    var i :| 0 <= i < k && sorted[i].path == p;
    assert sorted[i] in sorted;
    assert FileInfo(q, files[q]) in sorted;
    var j :| 0 <= j < |sorted| && sorted[j] == FileInfo(q, files[q]);
  }

  lemma OldestAreGone(files: map<string, int>, sorted: seq<FileInfo>, percent: nat, removeOk: string -> bool)
    requires Lists(files, sorted) && SortedByTime(sorted) && |sorted| > 0 && percent <= 100
    ensures NumToRemove(|sorted|, percent) <= |sorted|
    ensures var gone := Removable(sorted[..NumToRemove(|sorted|, percent)], removeOk);
            OldestGone(files, files - gone, percent, removeOk) && gone == files.Keys - (files - gone).Keys
  {
    NumToRemoveIsShare(|sorted|, percent);
    var k := NumToRemove(|sorted|, percent);
    RemovedAreOldest(files, sorted, k, removeOk);
    RemovableBounded(sorted[..k], removeOk);
    ListingCounts(files, sorted);
    GoneAreTheDifference(files, Removable(sorted[..k], removeOk));
  }

  lemma NothingGone(files: map<string, int>, listed: seq<FileInfo>, percent: nat, removeOk: string -> bool)
    requires Lists(files, listed) && listed == [] && percent <= 100
    ensures OldestGone(files, files, percent, removeOk)
  {
    ListingCounts(files, listed);
    assert files.Keys - files.Keys == {};
  }

  /** What the first step of a cleanup leaves, going by the used percentage when it starts. */
  lemma FirstStepByUsage(
      percent: real, files: map<string, int>, cutoff: int, memoryBacked: bool, removeOk: string -> bool)
    ensures var between := AfterFirstStep(files, CalculatePressureLevel(percent, memoryBacked), cutoff, removeOk);
            && (forall path :: path in between ==> path in files && between[path] == files[path])
            && (if percent >= (if memoryBacked then 40.0 else 70.0) then
                  forall path :: path in between <==> path in files && (files[path] >= cutoff || !removeOk(path))
                else between == files)
  {
  }

  /** When there is a second step, and what share of the files it removes, going by the
      used percentage measured after the first one. */
  lemma ShareByUsage(usage: real, read: Readings)
    requires read.usage == Some(usage)
    ensures StillHigh(read, true) <==> usage >= 60.0
    ensures StillHigh(read, false) <==> usage >= 85.0
    ensures usage >= 60.0 ==> SharePercent(read, true) == if usage >= 80.0 then 70 else 50
    ensures usage >= 85.0 ==> SharePercent(read, false) == if usage >= 95.0 then 50 else 25
  {
  }

  /** What a whole cleanup of disk-backed storage does. */
  lemma CleanupByUsage(
      initial: Pressure, usage: real, before: map<string, int>, after: map<string, int>, cutoff: int,
      read: Readings, removeOk: string -> bool)
    requires read.usage == Some(usage)
    requires IsCleanedUp(before, after, initial, cutoff, read, false, removeOk)
    ensures var between := AfterFirstStep(before, initial, cutoff, removeOk);
            if usage >= 95.0 then OldestGone(between, after, 50, removeOk)
            else if usage >= 85.0 then OldestGone(between, after, 25, removeOk)
            else after == between
  {
    ShareByUsage(usage, read);
    SecondStepIs(AfterFirstStep(before, initial, cutoff, removeOk), after, read, false, removeOk);
  }

  /** And of memory-backed storage. */
  lemma MemoryCleanupByUsage(
      initial: Pressure, usage: real, before: map<string, int>, after: map<string, int>, cutoff: int,
      read: Readings, removeOk: string -> bool)
    requires read.usage == Some(usage)
    requires IsCleanedUp(before, after, initial, cutoff, read, true, removeOk)
    ensures var between := AfterFirstStep(before, initial, cutoff, removeOk);
            if usage >= 80.0 then OldestGone(between, after, 70, removeOk)
            else if usage >= 60.0 then OldestGone(between, after, 50, removeOk)
            else after == between
  {
    ShareByUsage(usage, read);
    SecondStepIs(AfterFirstStep(before, initial, cutoff, removeOk), after, read, true, removeOk);
  }

  lemma SecondStepIs(
      between: map<string, int>, after: map<string, int>, read: Readings, memoryBacked: bool, removeOk: string -> bool)
    requires IsSecondStep(between, after, read, memoryBacked, removeOk)
    ensures StillHigh(read, memoryBacked) ==> OldestGone(between, after, SharePercent(read, memoryBacked), removeOk)
    ensures !StillHigh(read, memoryBacked) ==> after == between
  {
  }

  /** When a cleanup fails, going by the used percentages. */
  lemma CleanupFailsByUsage(percent: real, read: Readings, memoryBacked: bool)
    ensures CleanupFails(CalculatePressureLevel(percent, memoryBacked), read, memoryBacked) <==>
              || (percent >= (if memoryBacked then 40.0 else 70.0) && !read.firstWalk)
              || read.usage == None
              || (read.usage.value >= (if memoryBacked then 60.0 else 85.0)
                  && (!read.secondWalk || read.finalUsage == None))
  {
  }

  /** The pressure reported afterwards is that of the last usage measured. */
  lemma ReportedPressureIsTheLast(after: Pressure, usage: real, read: Readings, memoryBacked: bool)
    requires IsPressureAfter(after, read, memoryBacked) && read.usage == Some(usage)
    ensures usage < (if memoryBacked then 60.0 else 85.0) ==> after == CalculatePressureLevel(usage, memoryBacked)
    ensures usage >= (if memoryBacked then 60.0 else 85.0) ==>
              read.finalUsage.Some? && after == CalculatePressureLevel(read.finalUsage.value, memoryBacked)
  {
  }
}
