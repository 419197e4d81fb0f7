/** The life of a finalized file on disk: collector, upload workers and purges
    interleaved (app/domain/shipper/shipper.go, app/domain/shipper/upload.go,
    app/domain/shipper/disk.go). */
module FileLifecycle {
  import opened Text
  import Requests
  import DiskStore

  const COST_CONTENT_IDENTIFIER := "metrics"

  datatype Place = Base | Uploaded

  /** The base directory and its "uploaded" subdirectory: content by file name. */
  datatype Dirs = Dirs(base: map<string, string>, uploaded: map<string, string>)
  {
    function At(place: Place): map<string, string> { if place.Base? then base else uploaded }
    function With(place: Place, files: map<string, string>): Dirs {
      if place.Base? then Dirs(files, uploaded) else Dirs(base, files)
    }
  }

  /** An opened file with the id whose upload URL it was given. */
  datatype Handle = Handle(name: string, place: Place, ref: string, content: string, delivered: bool)

  datatype Io = Io(mkdir: bool, rename: bool, remove: bool)

  const ALL_WELL := Io(true, true, true)

  predicate IsFileName(name: string) {
    name != "" && '/' !in name && HasSuffix(name, Requests.METRIC_EXTENSION)
  }

  function RemoteId(name: string): string {
    Before(name, '.') + Requests.REMOTE_EXTENSION
  }

  /** Inside any directory, the id of the path is the id of the name. */
  lemma RemoteIdOfPath(dir: string, name: string)
    requires IsFileName(name)
    ensures Requests.RemoteId(dir + "/" + name) == RemoteId(name)
  {
    var path := dir + "/" + name;
    assert path[|path| - 1] == name[|name| - 1];
    assert HasSuffix(name, Requests.METRIC_EXTENSION) && Requests.METRIC_EXTENSION[7] == 'r';
    assert name[|name| - 1] == name[|name| - 8..][7] == 'r';
    assert TrimSlashes(path) == path;
    Requests.AfterSlash(dir + "/", name);
  }

  /** NewMetricFile: opening a path that has gone creates an empty file there. */
  function Content(d: Dirs, name: string, place: Place): string {
    if name in d.At(place) then d.At(place)[name] else ""
  }

  function Touched(d: Dirs, name: string, place: Place): Dirs {
    d.With(place, d.At(place)[name := Content(d, name, place)])
  }

  predicate IsMetric(name: string) {
    COST_CONTENT_IDENTIFIER <= Before(name, '.')
  }

  /** What a worker does to the directories once its upload has succeeded: cost
      metrics are moved to the uploaded directory, unless their path already names
      it, and everything else is removed. */
  function Released(d: Dirs, h: Handle, io: Io, baseNamesUploaded: bool): Dirs {
    if !IsMetric(h.name) then
      if io.remove then d.With(h.place, d.At(h.place) - {h.name}) else d
    else if io.mkdir && h.place.Base? && !baseNamesUploaded && io.rename && h.name in d.base then
      Dirs(d.base - {h.name}, d.uploaded[h.name := d.base[h.name]])
    else d
  }

  /** The worker's report: only a move that should have happened and did not is an error. */
  predicate ReleaseOk(d: Dirs, h: Handle, io: Io, baseNamesUploaded: bool) {
    || !IsMetric(h.name)
    || (io.mkdir && (h.place.Uploaded? || baseNamesUploaded || (io.rename && h.name in d.base)))
  }

  // -------------------------------------------------------- the shipper's worker

  class Worker {
    const baseNamesUploaded: bool
    var base: map<string, string>
    var uploaded: map<string, string>
    var shippedFiles: nat

    ghost function Abs(): Dirs
      reads this
    {
      Dirs(base, uploaded)
    }

    constructor (base: map<string, string>, uploaded: map<string, string>, baseNamesUploaded: bool)
      ensures Abs() == Dirs(base, uploaded) && shippedFiles == 0
      ensures this.baseNamesUploaded == baseNamesUploaded
    {
      this.base, this.uploaded, shippedFiles := base, uploaded, 0;
      this.baseNamesUploaded := baseNamesUploaded;
    }

    /** Opens a file, or creates it empty where it has gone; `openOk` is the outcome of that call. */
    method NewMetricFile(name: string, place: Place, ref: string, openOk: bool) returns (h: Option<Handle>)
      modifies this
      ensures h == if openOk then Some(Handle(name, place, ref, Content(old(Abs()), name, place), false)) else None
      ensures Abs() == if openOk then Touched(old(Abs()), name, place) else old(Abs())
      ensures name in old(Abs()).At(place) ==>
                Abs() == old(Abs()) && (openOk ==> h.value.content == old(Abs()).At(place)[name])
      ensures openOk && name !in old(Abs()).At(place) ==>
                h.value.content == "" && Abs() == old(Abs()).With(place, old(Abs()).At(place)[name := ""])
      ensures shippedFiles == old(shippedFiles)
    {
      if !openOk {
        return None;
      }
      var content := "";
      if place.Base? {
        if name in base { content := base[name]; } else { base := base[name := ""]; }
        assert base == old(base)[name := content];
      } else {
        if name in uploaded { content := uploaded[name]; } else { uploaded := uploaded[name := ""]; }
        assert uploaded == old(uploaded)[name := content];
      }
      h := Some(Handle(name, place, ref, content, false));
    }

    method MarkFileUploaded(h: Handle, io: Io) returns (ok: bool)
      requires IsMetric(h.name)
      modifies this`base, this`uploaded
      ensures ok == ReleaseOk(old(Abs()), h, io, baseNamesUploaded)
      ensures Abs() == Released(old(Abs()), h, io, baseNamesUploaded)
      ensures ok <==> io.mkdir && (h.place.Uploaded? || baseNamesUploaded || (io.rename && h.name in old(base)))
      ensures ok && h.place.Base? && !baseNamesUploaded ==>
                && h.name in old(base) && base == old(base) - {h.name}
                && uploaded == old(uploaded)[h.name := old(base)[h.name]]
      ensures !ok || h.place.Uploaded? || baseNamesUploaded ==> base == old(base) && uploaded == old(uploaded)
    {
      if !io.mkdir {
        return false;
      }
      if h.place.Uploaded? || baseNamesUploaded {
        return true;
      }
      if !io.rename || h.name !in base {
        return false;
      }
      uploaded := uploaded[h.name := base[h.name]];
      base := base - {h.name};
      ok := true;
    }

    /** The function HandleRequest queues for each request. */
    method Ship(h: Handle, delivered: bool, io: Io) returns (ok: bool)
      modifies this
      ensures ok <==> delivered && ReleaseOk(old(Abs()), h, io, baseNamesUploaded)
      ensures Abs() == if delivered then Released(old(Abs()), h, io, baseNamesUploaded) else old(Abs())
      ensures shippedFiles == old(shippedFiles) + if ok then 1 else 0
    {
      if !delivered {
        return false;
      }
      if !IsMetric(h.name) {
        if io.remove {
          if h.place.Base? {
            base := base - {h.name};
          } else {
            uploaded := uploaded - {h.name};
          }
        }
      } else {
        var marked := MarkFileUploaded(h, io);
        if !marked {
          return false;
        }
      }
      shippedFiles := shippedFiles + 1;
      ok := true;
    }
  }

  // --------------------------------------------------------------- all runs

  datatype Put = Put(ref: string, name: string, content: string)

  /** History: `finalized` is every file the collector ever finalized, `moved` the
      names that ever were in the uploaded directory, `puts` the successful uploads. */
  datatype State = State(
    finalized: map<string, string>, moved: set<string>, puts: set<Put>,
    dirs: Dirs, handles: map<nat, Handle>)

  const INIT := State(map[], {}, {}, Dirs(map[], map[]), map[])

  datatype Step =
    | Finalize(name: string, content: string)
    | Open(w: nat, name: string, place: Place, ref: string)
    | Upload(w: nat, delivered: bool)
    | Release(w: nat, io: Io)
    | Purge(name: string)

  /** The collector finalizes under new names; a worker opens a file listed at
      some time in a directory, for an id whose root its name contains. */
  predicate Enabled(s: State, step: Step) {
    match step
    case Finalize(name, _) => IsFileName(name) && name !in s.finalized
    case Open(w, name, place, ref) =>
      && w !in s.handles && Contains(name, Requests.RootId(ref))
      && (if place.Base? then name in s.finalized else name in s.moved)
    case Upload(w, _) => w in s.handles && !s.handles[w].delivered
    case Release(w, _) => w in s.handles && s.handles[w].delivered
    case Purge(name) => name in s.dirs.uploaded
  }

  function Next(s: State, step: Step, baseNamesUploaded: bool): State
    requires Enabled(s, step)
  {
    match step
    case Finalize(name, content) =>
      s.(finalized := s.finalized[name := content], dirs := s.dirs.(base := s.dirs.base[name := content]))
    case Open(w, name, place, ref) =>
      s.(dirs := Touched(s.dirs, name, place),
         handles := s.handles[w := Handle(name, place, ref, Content(s.dirs, name, place), false)])
    case Upload(w, delivered) =>
      var h := s.handles[w];
      if delivered then
        s.(puts := s.puts + {Put(h.ref, h.name, h.content)}, handles := s.handles[w := h.(delivered := true)])
      else s.(handles := s.handles - {w})
    case Release(w, io) =>
      var d := Released(s.dirs, s.handles[w], io, baseNamesUploaded);
      s.(dirs := d, moved := s.moved + d.uploaded.Keys, handles := s.handles - {w})
    case Purge(name) => s.(dirs := s.dirs.(uploaded := s.dirs.uploaded - {name}))
  }

  predicate IsRun(s: State, steps: seq<Step>, baseNamesUploaded: bool)
    decreases |steps|
  {
    steps == [] ||
    (Enabled(s, steps[0]) && IsRun(Next(s, steps[0], baseNamesUploaded), steps[1..], baseNamesUploaded))
  }

  function After(s: State, steps: seq<Step>, baseNamesUploaded: bool): State
    requires IsRun(s, steps, baseNamesUploaded)
    decreases |steps|
  {
    if steps == [] then s else After(Next(s, steps[0], baseNamesUploaded), steps[1..], baseNamesUploaded)
  }

  predicate InBase(s: State, name: string)
    requires name in s.finalized
  {
    name in s.dirs.base && s.dirs.base[name] == s.finalized[name]
  }

  /** The finalized content of `name` was uploaded, under some id. */
  ghost predicate Delivered(s: State, name: string)
    requires name in s.finalized
  {
    exists ref :: Put(ref, name, s.finalized[name]) in s.puts
  }

  /** Nothing leaves the disk unless it was delivered: a finalized file is in the
      base directory or was uploaded, and the uploaded directory, the only one that
      is purged, holds nothing that was not. */
  ghost predicate Safe(s: State) {
    && (forall name :: name in s.finalized ==> InBase(s, name) || Delivered(s, name))
    && (forall name :: name in s.dirs.uploaded || name in s.moved ==> name in s.finalized && Delivered(s, name))
  }

  /** What a worker has read is the file, or the file had been delivered before. */
  ghost predicate HandlesHold(s: State) {
    forall w :: w in s.handles ==>
      var h := s.handles[w];
      && h.name in s.finalized
      && (h.content == s.finalized[h.name] || Delivered(s, h.name))
      && (h.delivered ==> Put(h.ref, h.name, h.content) in s.puts)
  }

  ghost predicate Inv(s: State) {
    Safe(s) && HandlesHold(s) && s.dirs.base.Keys <= s.finalized.Keys
  }

  lemma DeliveredStays(s: State, step: Step, baseNamesUploaded: bool)
    requires Enabled(s, step)
    ensures var t := Next(s, step, baseNamesUploaded);
            && s.puts <= t.puts
            && forall name :: name in s.finalized && Delivered(s, name) ==>
                 name in t.finalized && t.finalized[name] == s.finalized[name] && Delivered(t, name)
  {
    var t := Next(s, step, baseNamesUploaded);
    forall name | name in s.finalized && Delivered(s, name)
      ensures name in t.finalized && t.finalized[name] == s.finalized[name] && Delivered(t, name)
    {
      var ref :| Put(ref, name, s.finalized[name]) in s.puts;
      assert Put(ref, name, t.finalized[name]) in t.puts;
    }
  }

  lemma ReleasedWasDelivered(s: State, w: nat)
    requires Inv(s) && w in s.handles && s.handles[w].delivered
    ensures s.handles[w].name in s.finalized && Delivered(s, s.handles[w].name)
  {
    var h := s.handles[w];
    if h.content == s.finalized[h.name] {
      assert Put(h.ref, h.name, s.finalized[h.name]) in s.puts;
    }
  }

  lemma UploadKeepsInv(s: State, w: nat, delivered: bool, baseNamesUploaded: bool)
    requires Inv(s) && Enabled(s, Upload(w, delivered))
    ensures Inv(Next(s, Upload(w, delivered), baseNamesUploaded))
  {
    DeliveredStays(s, Upload(w, delivered), baseNamesUploaded);
  }

  lemma ReleaseKeepsInv(s: State, w: nat, io: Io, baseNamesUploaded: bool)
    requires Inv(s) && Enabled(s, Release(w, io))
    ensures Inv(Next(s, Release(w, io), baseNamesUploaded))
  {
    var t := Next(s, Release(w, io), baseNamesUploaded);
    DeliveredStays(s, Release(w, io), baseNamesUploaded);
    ReleaseKeepsSafe(s, w, io, baseNamesUploaded);
    assert forall v :: v in t.handles ==> v in s.handles && t.handles[v] == s.handles[v];
  }

  lemma ReleaseKeepsSafe(s: State, w: nat, io: Io, baseNamesUploaded: bool)
    requires Inv(s) && Enabled(s, Release(w, io))
    ensures Safe(Next(s, Release(w, io), baseNamesUploaded))
    ensures Next(s, Release(w, io), baseNamesUploaded).dirs.base.Keys <= s.finalized.Keys
  {
    var t := Next(s, Release(w, io), baseNamesUploaded);
    DeliveredStays(s, Release(w, io), baseNamesUploaded);
    ReleasedWasDelivered(s, w);
    var h := s.handles[w];
    assert forall name :: name in t.dirs.uploaded ==> name in s.dirs.uploaded || name == h.name;
    assert forall name :: name != h.name && name in s.dirs.base ==>
             name in t.dirs.base && t.dirs.base[name] == s.dirs.base[name];
  }

  lemma StepKeepsInv(s: State, step: Step, baseNamesUploaded: bool)
    requires Inv(s) && Enabled(s, step)
    ensures Inv(Next(s, step, baseNamesUploaded))
  {
    match step
    case Upload(w, delivered) => UploadKeepsInv(s, w, delivered, baseNamesUploaded);
    case Release(w, io) => ReleaseKeepsInv(s, w, io, baseNamesUploaded);
    case _ => DeliveredStays(s, step, baseNamesUploaded);
  }

  lemma {:induction false} RunKeepsInv(s: State, steps: seq<Step>, baseNamesUploaded: bool)
    requires Inv(s) && IsRun(s, steps, baseNamesUploaded)
    ensures Inv(After(s, steps, baseNamesUploaded))
    decreases |steps|
  {
    if steps != [] {
      StepKeepsInv(s, steps[0], baseNamesUploaded);
      RunKeepsInv(Next(s, steps[0], baseNamesUploaded), steps[1..], baseNamesUploaded);
    }
  }

  /** In every run of the collector, any number of workers and any number of
      purges, with every I/O call failing or not: a finalized file that is no longer
      in the base directory was uploaded, and so was every file in the uploaded one. */
  lemma NothingLeavesUndelivered(steps: seq<Step>, baseNamesUploaded: bool)
    requires IsRun(INIT, steps, baseNamesUploaded)
    ensures Safe(After(INIT, steps, baseNamesUploaded))
  {
    RunKeepsInv(INIT, steps, baseNamesUploaded);
  }

  /** A purge removes only files that were uploaded, and leaves the base directory alone. */
  lemma PurgeTakesOnlyDelivered(steps: seq<Step>, baseNamesUploaded: bool, name: string)
    requires IsRun(INIT, steps, baseNamesUploaded)
    requires Enabled(After(INIT, steps, baseNamesUploaded), Purge(name))
    ensures var s := After(INIT, steps, baseNamesUploaded);
            && name in s.finalized && Delivered(s, name)
            && Next(s, Purge(name), baseNamesUploaded).dirs.base == s.dirs.base
  {
    RunKeepsInv(INIT, steps, baseNamesUploaded);
  }

  /** A base path that itself names "uploaded" keeps every cost file where it is. */
  lemma BaseNamingUploadedMovesNothing(s: State, step: Step, name: string)
    requires Enabled(s, step) && IsMetric(name) && name in s.dirs.base
    ensures name in Next(s, step, true).dirs.base
  {
  }

  // ------------------------------------------------- where the files are

  predicate IsPurged(steps: seq<Step>, name: string) {
    exists k :: 0 <= k < |steps| && steps[k] == Purge(name)
  }

  predicate IsOnDisk(s: State, name: string) {
    name in s.dirs.base || name in s.dirs.uploaded
  }

  lemma StepKeepsOnDisk(s: State, step: Step, baseNamesUploaded: bool, name: string)
    requires Enabled(s, step) && IsMetric(name) && IsOnDisk(s, name) && step != Purge(name)
    ensures IsOnDisk(Next(s, step, baseNamesUploaded), name)
  {
  }

  lemma {:induction false} OnDiskUnlessPurged(s: State, steps: seq<Step>, baseNamesUploaded: bool, name: string)
    requires IsRun(s, steps, baseNamesUploaded) && IsMetric(name)
    requires name in s.finalized ==> IsOnDisk(s, name)
    ensures var e := After(s, steps, baseNamesUploaded);
            name in e.finalized ==> IsOnDisk(e, name) || IsPurged(steps, name)
    decreases |steps|
  {
    if steps != [] {
      var t := Next(s, steps[0], baseNamesUploaded);
      if steps[0] != Purge(name) {
        if name in s.finalized { StepKeepsOnDisk(s, steps[0], baseNamesUploaded, name); }
        OnDiskUnlessPurged(t, steps[1..], baseNamesUploaded, name);
        if k :| 0 <= k < |steps[1..]| && steps[1..][k] == Purge(name) {
          assert steps[k + 1] == Purge(name);
        }
      }
    }
  }

  /** In every run a finalized cost file is in the base directory or in the uploaded one,
      unless it has been purged: shipping moves it. */
  lemma CostFilesStayOnDisk(steps: seq<Step>, baseNamesUploaded: bool, name: string)
    requires IsRun(INIT, steps, baseNamesUploaded) && IsMetric(name)
    requires name in After(INIT, steps, baseNamesUploaded).finalized && !IsPurged(steps, name)
    ensures IsOnDisk(After(INIT, steps, baseNamesUploaded), name)
  {
    OnDiskUnlessPurged(INIT, steps, baseNamesUploaded, name);
  }

  /** Releasing a cost file with all I/O succeeding moves just that file, content and all;
      releasing any other file removes just that one. */
  lemma ReleaseMoves(s: State, w: nat)
    requires Enabled(s, Release(w, ALL_WELL))
    ensures var name, place := s.handles[w].name, s.handles[w].place;
            var d, e := s.dirs, Next(s, Release(w, ALL_WELL), false).dirs;
            && (IsMetric(name) && place.Base? && name in d.base ==>
                  name !in e.base && name in e.uploaded && e.uploaded[name] == d.base[name])
            && (IsMetric(name) && place.Uploaded? ==> e == d)
            && (!IsMetric(name) && place.Base? ==> name !in e.base && e.uploaded == d.uploaded)
            && (!IsMetric(name) && place.Uploaded? ==> name !in e.uploaded && e.base == d.base)
            && (forall n :: n != name ==> (n in e.base <==> n in d.base) && (n in e.uploaded <==> n in d.uploaded))
            && (forall n :: n != name && n in d.base ==> e.base[n] == d.base[n])
            && (forall n :: n != name && n in d.uploaded ==> e.uploaded[n] == d.uploaded[n])
  {
  }

  /** What a directory holds under a name is the finalized content, or nothing where the
      file was opened again after it had gone, which only delivered files have. */
  ghost predicate HoldsContent(s: State, files: map<string, string>) {
    forall name :: name in files ==>
      name in s.finalized
      && (files[name] == s.finalized[name] || (files[name] == "" && Delivered(s, name)))
  }

  lemma HoldsContentLater(s: State, step: Step, baseNamesUploaded: bool, files: map<string, string>)
    requires Enabled(s, step) && HoldsContent(s, files)
    ensures HoldsContent(Next(s, step, baseNamesUploaded), files)
  {
    DeliveredStays(s, step, baseNamesUploaded);
    var t := Next(s, step, baseNamesUploaded);
    assert forall name :: name in s.finalized ==> name in t.finalized && t.finalized[name] == s.finalized[name];
  }

  lemma HoldsContentWith(s: State, files: map<string, string>, name: string, content: string)
    requires HoldsContent(s, files) && name in s.finalized
    requires content == s.finalized[name] || (content == "" && Delivered(s, name))
    ensures HoldsContent(s, files[name := content])
  {
  }

  lemma HoldsContentWithout(s: State, files: map<string, string>, names: set<string>)
    requires HoldsContent(s, files)
    ensures HoldsContent(s, files - names)
  {
  }

  lemma OpenKeepsContent(s: State, step: Step, baseNamesUploaded: bool)
    requires Inv(s) && Enabled(s, step) && step.Open?
    requires HoldsContent(s, s.dirs.base) && HoldsContent(s, s.dirs.uploaded)
    ensures var t := Next(s, step, baseNamesUploaded);
            HoldsContent(t, t.dirs.base) && HoldsContent(t, t.dirs.uploaded)
  {
    var t := Next(s, step, baseNamesUploaded);
    var files := s.dirs.At(step.place);
    var content := Content(s.dirs, step.name, step.place);
    assert content == s.finalized[step.name] || (content == "" && Delivered(s, step.name));
    HoldsContentWith(s, files, step.name, content);
    HoldsContentLater(s, step, baseNamesUploaded, t.dirs.base);
    HoldsContentLater(s, step, baseNamesUploaded, t.dirs.uploaded);
  }

  lemma ReleaseKeepsContent(s: State, w: nat, io: Io, baseNamesUploaded: bool)
    requires Enabled(s, Release(w, io)) && HoldsContent(s, s.dirs.base) && HoldsContent(s, s.dirs.uploaded)
    ensures var t := Next(s, Release(w, io), baseNamesUploaded);
            HoldsContent(t, t.dirs.base) && HoldsContent(t, t.dirs.uploaded)
  {
    var t := Next(s, Release(w, io), baseNamesUploaded);
    var name := s.handles[w].name;
    HoldsContentWithout(s, s.dirs.base, {name});
    HoldsContentWithout(s, s.dirs.uploaded, {name});
    if name in s.dirs.base { HoldsContentWith(s, s.dirs.uploaded, name, s.dirs.base[name]); }
    HoldsContentLater(s, Release(w, io), baseNamesUploaded, t.dirs.base);
    HoldsContentLater(s, Release(w, io), baseNamesUploaded, t.dirs.uploaded);
  }

  lemma StepKeepsContent(s: State, step: Step, baseNamesUploaded: bool)
    requires Inv(s) && Enabled(s, step) && HoldsContent(s, s.dirs.base) && HoldsContent(s, s.dirs.uploaded)
    ensures var t := Next(s, step, baseNamesUploaded);
            HoldsContent(t, t.dirs.base) && HoldsContent(t, t.dirs.uploaded)
  {
    match step
    case Open(_, _, _, _) => OpenKeepsContent(s, step, baseNamesUploaded);
    case Release(w, io) => ReleaseKeepsContent(s, w, io, baseNamesUploaded);
    case Finalize(name, content) =>
      HoldsContentLater(s, step, baseNamesUploaded, s.dirs.base);
      HoldsContentLater(s, step, baseNamesUploaded, s.dirs.uploaded);
      HoldsContentWith(Next(s, step, baseNamesUploaded), s.dirs.base, name, content);
    case Purge(name) =>
      HoldsContentWithout(s, s.dirs.uploaded, {name});
      HoldsContentLater(s, step, baseNamesUploaded, s.dirs.base);
      HoldsContentLater(s, step, baseNamesUploaded, s.dirs.uploaded - {name});
    case Upload(_, _) =>
      HoldsContentLater(s, step, baseNamesUploaded, s.dirs.base);
      HoldsContentLater(s, step, baseNamesUploaded, s.dirs.uploaded);
  }

  lemma {:induction false} RunKeepsContent(s: State, steps: seq<Step>, baseNamesUploaded: bool)
    requires Inv(s) && IsRun(s, steps, baseNamesUploaded)
    requires HoldsContent(s, s.dirs.base) && HoldsContent(s, s.dirs.uploaded)
    ensures var e := After(s, steps, baseNamesUploaded);
            HoldsContent(e, e.dirs.base) && HoldsContent(e, e.dirs.uploaded)
    decreases |steps|
  {
    if steps != [] {
      StepKeepsInv(s, steps[0], baseNamesUploaded);
      StepKeepsContent(s, steps[0], baseNamesUploaded);
      RunKeepsContent(Next(s, steps[0], baseNamesUploaded), steps[1..], baseNamesUploaded);
    }
  }

  /** In every run both directories hold finalized content only, but for empty files in
      the place of delivered ones. */
  lemma DirectoriesHoldContent(steps: seq<Step>, baseNamesUploaded: bool)
    requires IsRun(INIT, steps, baseNamesUploaded)
    ensures var e := After(INIT, steps, baseNamesUploaded);
            HoldsContent(e, e.dirs.base) && HoldsContent(e, e.dirs.uploaded)
  {
    RunKeepsContent(INIT, steps, baseNamesUploaded);
  }

  // ------------------------------------------------ one upload per opening

  function Opens(steps: seq<Step>, w: nat): nat {
    if steps == [] then 0 else (if steps[0].Open? && steps[0].w == w then 1 else 0) + Opens(steps[1..], w)
  }

  function Uploads(steps: seq<Step>, w: nat, delivered: bool): nat {
    if steps == [] then 0
    else (if steps[0] == Upload(w, delivered) then 1 else 0) + Uploads(steps[1..], w, delivered)
  }

  function Releases(steps: seq<Step>, w: nat): nat {
    if steps == [] then 0 else (if steps[0].Release? && steps[0].w == w then 1 else 0) + Releases(steps[1..], w)
  }

  function Pending(s: State, w: nat): nat {
    if w in s.handles && !s.handles[w].delivered then 1 else 0
  }

  function Unreleased(s: State, w: nat): nat {
    if w in s.handles && s.handles[w].delivered then 1 else 0
  }

  lemma StepAccounts(s: State, step: Step, baseNamesUploaded: bool, w: nat)
    requires Enabled(s, step)
    ensures var t := Next(s, step, baseNamesUploaded);
            && Pending(s, w) + (if step.Open? && step.w == w then 1 else 0)
               == (if step == Upload(w, true) || step == Upload(w, false) then 1 else 0) + Pending(t, w)
            && Unreleased(s, w) + (if step == Upload(w, true) then 1 else 0)
               == (if step.Release? && step.w == w then 1 else 0) + Unreleased(t, w)
  {
  }

  lemma {:induction false} WorkerAccounts(s: State, steps: seq<Step>, baseNamesUploaded: bool, w: nat)
    requires IsRun(s, steps, baseNamesUploaded)
    ensures var e := After(s, steps, baseNamesUploaded);
            && Pending(s, w) + Opens(steps, w)
               == Uploads(steps, w, true) + Uploads(steps, w, false) + Pending(e, w)
            && Unreleased(s, w) + Uploads(steps, w, true) == Releases(steps, w) + Unreleased(e, w)
    decreases |steps|
  {
    if steps != [] {
      StepAccounts(s, steps[0], baseNamesUploaded, w);
      WorkerAccounts(Next(s, steps[0], baseNamesUploaded), steps[1..], baseNamesUploaded, w);
    }
  }

  /** In every run each opening of a file is followed by at most one upload, and each
      release by just the successful ones: a failed upload ends the worker's turn. */
  lemma EachOpeningIsUploadedOnce(steps: seq<Step>, baseNamesUploaded: bool, w: nat)
    requires IsRun(INIT, steps, baseNamesUploaded)
    ensures var e := After(INIT, steps, baseNamesUploaded);
            && Opens(steps, w) == Uploads(steps, w, true) + Uploads(steps, w, false) + Pending(e, w)
            && Uploads(steps, w, true) == Releases(steps, w) + Unreleased(e, w)
  {
    WorkerAccounts(INIT, steps, baseNamesUploaded, w);
  }

  // -------------------------------------- delivery under the file's own id

  ghost predicate DeliveredUnderOwnId(s: State, name: string)
    requires name in s.finalized
  {
    Put(RemoteId(name), name, s.finalized[name]) in s.puts
  }

  ghost predicate OwnSafe(s: State) {
    forall name :: name in s.finalized ==> InBase(s, name) || DeliveredUnderOwnId(s, name)
  }

  /** Every upload URL is used for the file it was allocated for. */
  predicate AllDirected(steps: seq<Step>) {
    forall k :: 0 <= k < |steps| && steps[k].Open? ==> steps[k].ref == RemoteId(steps[k].name)
  }

  ghost predicate OwnRefs(s: State) {
    && (forall p :: p in s.puts ==> p.ref == RemoteId(p.name))
    && (forall w :: w in s.handles ==> s.handles[w].ref == RemoteId(s.handles[w].name))
  }

  lemma {:induction false} DirectedRunHasOwnRefs(s: State, steps: seq<Step>, baseNamesUploaded: bool)
    requires OwnRefs(s) && IsRun(s, steps, baseNamesUploaded) && AllDirected(steps)
    ensures OwnRefs(After(s, steps, baseNamesUploaded))
    decreases |steps|
  {
    if steps != [] {
      assert forall k :: 0 <= k < |steps[1..]| ==> steps[1..][k] == steps[k + 1];
      DirectedRunHasOwnRefs(Next(s, steps[0], baseNamesUploaded), steps[1..], baseNamesUploaded);
    }
  }

  /** Where every request is for the id of the file it uploads, a finalized file is
      in the base directory or was uploaded under its own id. */
  lemma DirectedRunsDeliverUnderOwnId(steps: seq<Step>, baseNamesUploaded: bool)
    requires IsRun(INIT, steps, baseNamesUploaded) && AllDirected(steps)
    ensures OwnSafe(After(INIT, steps, baseNamesUploaded))
  {
    var s := After(INIT, steps, baseNamesUploaded);
    NothingLeavesUndelivered(steps, baseNamesUploaded);
    DirectedRunHasOwnRefs(INIT, steps, baseNamesUploaded);
    forall name | name in s.finalized && !InBase(s, name) ensures DeliveredUnderOwnId(s, name) {
      var ref :| Put(ref, name, s.finalized[name]) in s.puts;
    }
  }

  /** The run finalizes only `names`, and opens files for their own ids or for `refs`. */
  ghost predicate UsesOnly(steps: seq<Step>, names: iset<string>, refs: iset<string>) {
    forall k :: 0 <= k < |steps| ==>
      && (steps[k].Finalize? ==> steps[k].name in names)
      && (steps[k].Open? ==> steps[k].ref == RemoteId(steps[k].name) || steps[k].ref in refs)
  }

  /** Of the files with these names the search for one of the ids finds only its own. */
  ghost predicate AreUnambiguous(names: iset<string>, refs: iset<string>) {
    forall name, ref :: name in names && ref in refs && IsFileName(name) && Contains(name, Requests.RootId(ref)) ==>
      ref == RemoteId(name)
  }

  lemma {:induction false} UnambiguousIsDirected(
      s: State, steps: seq<Step>, names: iset<string>, refs: iset<string>, baseNamesUploaded: bool)
    requires Inv(s) && IsRun(s, steps, baseNamesUploaded)
    requires AreUnambiguous(names, refs) && UsesOnly(steps, names, refs)
    requires forall name :: name in s.finalized ==> name in names && IsFileName(name)
    ensures AllDirected(steps)
    decreases |steps|
  {
    if steps != [] {
      StepKeepsInv(s, steps[0], baseNamesUploaded);
      assert UsesOnly(steps[1..], names, refs) by {
        assert forall k :: 0 <= k < |steps[1..]| ==> steps[1..][k] == steps[k + 1];
      }
      UnambiguousIsDirected(Next(s, steps[0], baseNamesUploaded), steps[1..], names, refs, baseNamesUploaded);
      assert forall k :: 0 < k < |steps| ==> steps[k] == steps[1..][k - 1];
    }
  }

  /** With unambiguous names and ids every run delivers every file that leaves under its
      own id, replays and their search by substring included. */
  lemma UnambiguousRunsDeliverUnderOwnId(
      steps: seq<Step>, names: iset<string>, refs: iset<string>, baseNamesUploaded: bool)
    requires IsRun(INIT, steps, baseNamesUploaded)
    requires AreUnambiguous(names, refs) && UsesOnly(steps, names, refs)
    ensures OwnSafe(After(INIT, steps, baseNamesUploaded))
  {
    UnambiguousIsDirected(INIT, steps, names, refs, baseNamesUploaded);
    DirectedRunsDeliverUnderOwnId(steps, baseNamesUploaded);
  }

  // ------------------------------------------------- stores and their names

  /** Identifiers none of which ends in another. */
  ghost predicate AreIdentifiers(ids: set<string>) {
    && (forall id :: id in ids ==> Requests.IsIdentifier(id))
    && (forall id, id' :: id in ids && id' in ids && HasSuffix(id', id) ==> id == id')
  }

  ghost predicate IsStoreName(name: string, ids: set<string>, digits: nat) {
    exists id, a, b :: id in ids && |Decimal(b)| == digits && name == DiskStore.FileName(id, a, b)
  }

  ghost predicate IsStoreRef(ref: string, ids: set<string>, digits: nat) {
    exists id, a, b :: id in ids && |Decimal(b)| == digits
      && ref == Requests.StoreFileId(id, a, b) + Requests.REMOTE_EXTENSION
  }

  /** With stop times of one number of digits whatever a search finds is the file it is for. */
  lemma FoundIsSought(name: string, ref: string, ids: set<string>, digits: nat)
    requires AreIdentifiers(ids) && IsStoreName(name, ids, digits) && IsStoreRef(ref, ids, digits)
    requires Contains(name, Requests.RootId(ref))
    ensures ref == RemoteId(name)
  {
    var id', a', b' :| id' in ids && |Decimal(b')| == digits && name == DiskStore.FileName(id', a', b');
    var id, a, b :| id in ids && |Decimal(b)| == digits
                    && ref == Requests.StoreFileId(id, a, b) + Requests.REMOTE_EXTENSION;
    RemoteIdOfStoreFile(id, a, b);
    RemoteIdOfStoreFile(id', a', b');
    Requests.SearchFindsIff(id, a, b, id', a', b');
    assert Decimal(b) == Decimal(b');
  }

  ghost function StoreNames(ids: set<string>, digits: nat): iset<string> {
    iset name | IsStoreName(name, ids, digits)
  }

  /** The ids of a store's files, and those that find none of them. */
  ghost function HarmlessRefs(ids: set<string>, digits: nat): iset<string> {
    iset ref | IsStoreRef(ref, ids, digits)
               || forall name :: IsStoreName(name, ids, digits) ==> !Contains(name, Requests.RootId(ref))
  }

  const AGENT_IDENTIFIERS := {"metrics", "observability"}

  /** The agent's two stores are named so. */
  lemma AgentStoresAreIdentified()
    ensures AreIdentifiers(AGENT_IDENTIFIERS)
  {
    var long, short := "observability", "metrics";
    assert short[6] == 's' && long[12] == 'y';
    assert long[|long| - |short|..][6] == 'y';
  }

  lemma StoresAreUnambiguous(ids: set<string>, digits: nat)
    requires AreIdentifiers(ids)
    ensures AreUnambiguous(StoreNames(ids, digits), HarmlessRefs(ids, digits))
  {
    forall name, ref | name in StoreNames(ids, digits) && ref in HarmlessRefs(ids, digits)
                       && Contains(name, Requests.RootId(ref))
      ensures ref == RemoteId(name)
    {
      FoundIsSought(name, ref, ids, digits);
    }
  }

  /** So every run on a store's files with stop times of one number of digits delivers
      under their own ids, for replays of such files or of none. */
  lemma StoreRunsDeliverUnderOwnId(steps: seq<Step>, ids: set<string>, digits: nat, baseNamesUploaded: bool)
    requires IsRun(INIT, steps, baseNamesUploaded)
    requires AreIdentifiers(ids) && UsesOnly(steps, StoreNames(ids, digits), HarmlessRefs(ids, digits))
    ensures OwnSafe(After(INIT, steps, baseNamesUploaded))
  {
    StoresAreUnambiguous(ids, digits);
    UnambiguousRunsDeliverUnderOwnId(
      steps, StoreNames(ids, digits), HarmlessRefs(ids, digits), baseNamesUploaded);
  }

  // ------------------------------------------------------ one file shipped

  lemma RunCons(s: State, step: Step, tail: seq<Step>, baseNamesUploaded: bool)
    requires Enabled(s, step) && IsRun(Next(s, step, baseNamesUploaded), tail, baseNamesUploaded)
    ensures IsRun(s, [step] + tail, baseNamesUploaded)
    ensures After(s, [step] + tail, baseNamesUploaded)
            == After(Next(s, step, baseNamesUploaded), tail, baseNamesUploaded)
  {
    assert ([step] + tail)[1..] == tail;
  }


  /** A file finalized, then opened, uploaded and released for the id `ref`. */
  function ShippedFor(name: string, content: string, ref: string): seq<Step> {
    [Finalize(name, content)] + ([Open(0, name, Base, ref)] + ([Upload(0, true)] + ([Release(0, ALL_WELL)] + [])))
  }

  /** The opened file `w` is the one that holds `name`, for `ref`. */
  predicate Holds(s: State, w: nat, name: string, ref: string, content: string, delivered: bool) {
    && w in s.handles && s.handles[w] == Handle(name, Base, ref, content, delivered)
    && name in s.finalized && s.finalized[name] == content
  }

  lemma OpenHolds(s: State, name: string, content: string, ref: string)
    requires 0 !in s.handles && name in s.finalized && s.finalized[name] == content && InBase(s, name)
    requires Contains(name, Requests.RootId(ref))
    ensures Enabled(s, Open(0, name, Base, ref))
    ensures Holds(Next(s, Open(0, name, Base, ref), false), 0, name, ref, content, false)
    ensures Next(s, Open(0, name, Base, ref), false).puts == s.puts
    ensures Next(s, Open(0, name, Base, ref), false).finalized == s.finalized
  {
  }

  lemma UploadHolds(s: State, name: string, content: string, ref: string)
    requires Holds(s, 0, name, ref, content, false)
    ensures Enabled(s, Upload(0, true))
    ensures Holds(Next(s, Upload(0, true), false), 0, name, ref, content, true)
    ensures Next(s, Upload(0, true), false).puts == s.puts + {Put(ref, name, content)}
    ensures Next(s, Upload(0, true), false).finalized == s.finalized
  {
  }

  lemma ReleaseLeaves(s: State, name: string, content: string, ref: string)
    requires Holds(s, 0, name, ref, content, true)
    ensures Enabled(s, Release(0, ALL_WELL))
    ensures var t := Next(s, Release(0, ALL_WELL), false);
            name !in t.dirs.base && t.finalized == s.finalized && t.puts == s.puts
  {
  }

  lemma ShippedForLeaves(name: string, content: string, ref: string)
    requires IsFileName(name) && Contains(name, Requests.RootId(ref))
    ensures IsRun(INIT, ShippedFor(name, content, ref), false)
    ensures var s := After(INIT, ShippedFor(name, content, ref), false);
            && s.finalized == map[name := content]
            && name !in s.dirs.base && s.puts == {Put(ref, name, content)}
  {
    assert Enabled(INIT, Finalize(name, content));
    var s1 := Next(INIT, Finalize(name, content), false);
    OpenHolds(s1, name, content, ref);
    var s2 := Next(s1, Open(0, name, Base, ref), false);
    UploadHolds(s2, name, content, ref);
    var s3 := Next(s2, Upload(0, true), false);
    ReleaseLeaves(s3, name, content, ref);
    ShippedForRuns(name, content, ref, s1, s2, s3);
  }

  lemma ShippedForRuns(name: string, content: string, ref: string, s1: State, s2: State, s3: State)
    requires Enabled(INIT, Finalize(name, content)) && s1 == Next(INIT, Finalize(name, content), false)
    requires Enabled(s1, Open(0, name, Base, ref)) && s2 == Next(s1, Open(0, name, Base, ref), false)
    requires Enabled(s2, Upload(0, true)) && s3 == Next(s2, Upload(0, true), false)
    requires Enabled(s3, Release(0, ALL_WELL))
    ensures IsRun(INIT, ShippedFor(name, content, ref), false)
    ensures After(INIT, ShippedFor(name, content, ref), false) == Next(s3, Release(0, ALL_WELL), false)
  {
    var tail4: seq<Step> := [];
    var tail3 := [Release(0, ALL_WELL)] + tail4;
    var tail2 := [Upload(0, true)] + tail3;
    RunCons(s3, Release(0, ALL_WELL), tail4, false);
    RunCons(s2, Upload(0, true), tail3, false);
    RunCons(s1, Open(0, name, Base, ref), tail2, false);
    RunCons(INIT, Finalize(name, content), [Open(0, name, Base, ref)] + tail2, false);
  }

  /** A replay search goes by substring, so the uploader can be asked to send a file
      for another one's id. Doing so takes the file off the disk without its own id
      ever being delivered, exactly when the two ids differ. */
  lemma ReplayMisdeliversIff(name: string, content: string, ref: string)
    requires IsFileName(name) && Contains(name, Requests.RootId(ref))
    ensures IsRun(INIT, ShippedFor(name, content, ref), false)
    ensures !OwnSafe(After(INIT, ShippedFor(name, content, ref), false)) <==> ref != RemoteId(name)
  {
    ShippedForLeaves(name, content, ref);
    OnlyPutDecides(After(INIT, ShippedFor(name, content, ref), false), name, content, ref);
  }

  lemma OnlyPutDecides(s: State, name: string, content: string, ref: string)
    requires s.finalized == map[name := content] && name !in s.dirs.base && s.puts == {Put(ref, name, content)}
    ensures OwnSafe(s) <==> ref == RemoteId(name)
  {
    assert name in s.finalized && s.finalized[name] == content;
    assert DeliveredUnderOwnId(s, name) <==> ref == RemoteId(name);
  }

  /** For any names and any replayed ids: all runs deliver under own ids exactly when of
      these files the search for one of these ids finds only its own. */
  lemma RunsDeliverUnderOwnIdIff(names: iset<string>, refs: iset<string>)
    ensures (forall steps :: IsRun(INIT, steps, false) && UsesOnly(steps, names, refs) ==>
               OwnSafe(After(INIT, steps, false)))
            <==> AreUnambiguous(names, refs)
  {
    if AreUnambiguous(names, refs) {
      forall steps | IsRun(INIT, steps, false) && UsesOnly(steps, names, refs)
        ensures OwnSafe(After(INIT, steps, false))
      {
        UnambiguousRunsDeliverUnderOwnId(steps, names, refs, false);
      }
    } else {
      var name, ref :| name in names && ref in refs && IsFileName(name)
                       && Contains(name, Requests.RootId(ref)) && ref != RemoteId(name);
      ReplayMisdeliversIff(name, "", ref);
      ShippedForUsesOnly(name, "", ref, names, refs);
    }
  }

  lemma ShippedForUsesOnly(name: string, content: string, ref: string, names: iset<string>, refs: iset<string>)
    requires name in names && ref in refs
    ensures UsesOnly(ShippedFor(name, content, ref), names, refs)
  {
  }

  lemma EmptyRoots()
    ensures Requests.RootId("") == "" && Requests.RootId(Requests.REMOTE_EXTENSION) == ""
  {
    Requests.RootOfName("", Requests.REMOTE_EXTENSION);
    assert "" + Requests.REMOTE_EXTENSION == Requests.REMOTE_EXTENSION;
  }

  /** For instance a replay item without an id, or with the extension only: its root is
      empty, every file is found for it, and each is shipped for that one id. */
  lemma EmptyRootShipsEverything(name: string, content: string, ref: string)
    requires IsFileName(name) && Requests.RootId(ref) == "" && ref != RemoteId(name)
    ensures IsRun(INIT, ShippedFor(name, content, ref), false)
    ensures !OwnSafe(After(INIT, ShippedFor(name, content, ref), false))
  {
    Requests.EverythingMatchesNothing(name);
    ReplayMisdeliversIff(name, content, ref);
  }

  lemma StoreFileIdIsPlain(id: string, a: nat, b: nat)
    requires Requests.IsIdentifier(id)
    ensures '/' !in Requests.StoreFileId(id, a, b) && '.' !in Requests.StoreFileId(id, a, b)
  {
    assert IsDigits(Decimal(a)) && IsDigits(Decimal(b));
  }

  /** The remote id of a file the store finalized. */
  lemma RemoteIdOfStoreFile(id: string, a: nat, b: nat)
    requires Requests.IsIdentifier(id)
    ensures RemoteId(DiskStore.FileName(id, a, b)) == Requests.StoreFileId(id, a, b) + Requests.REMOTE_EXTENSION
    ensures Requests.RootId(Requests.StoreFileId(id, a, b) + Requests.REMOTE_EXTENSION)
            == Requests.StoreFileId(id, a, b)
  {
    var short := Requests.StoreFileId(id, a, b);
    StoreFileIdIsPlain(id, a, b);
    assert ".json.br" == ['.'] + "json.br";
    StampedAppend(id, Decimal(a), Decimal(b), ['.'], "json.br");
    BeforeIsPrefix(short, '.', "json.br");
    Requests.RootOfName(short, Requests.REMOTE_EXTENSION);
  }

  lemma StampedAppend(x: string, y: string, z: string, dot: string, tail: string)
    ensures DiskStore.Stamped(x, y, z + (dot + tail)) == DiskStore.Stamped(x, y, z) + dot + tail
  {
  }

  /** A finalized file is found, and misdelivered, by the replay of another one with
      the same identifier exactly when both were opened in the same millisecond and
      the other's stop time, in digits, properly begins its own. */
  lemma ReplayFindsAnotherFileIff(id: string, a: nat, b: nat, a': nat, b': nat)
    requires Requests.IsIdentifier(id)
    ensures var name := DiskStore.FileName(id, a', b');
            var ref := Requests.StoreFileId(id, a, b) + Requests.REMOTE_EXTENSION;
            Contains(name, Requests.RootId(ref)) && ref != RemoteId(name)
            <==> a == a' && Decimal(b) < Decimal(b')
  {
    RemoteIdOfStoreFile(id, a, b);
    RemoteIdOfStoreFile(id, a', b');
    Requests.SearchFindsIff(id, a, b, id, a', b');
    assert HasSuffix(id, id);
    IdsDiffer(id, a, b, a', b');
  }

  lemma IdsDiffer(id: string, a: nat, b: nat, a': nat, b': nat)
    ensures Requests.StoreFileId(id, a, b) + Requests.REMOTE_EXTENSION
            == Requests.StoreFileId(id, a', b') + Requests.REMOTE_EXTENSION
            <==> a == a' && Decimal(b) == Decimal(b')
  {
    var short, short' := Requests.StoreFileId(id, a, b), Requests.StoreFileId(id, a', b');
    if short + Requests.REMOTE_EXTENSION == short' + Requests.REMOTE_EXTENSION {
      DiskStore.StripSuffix(short, short', Requests.REMOTE_EXTENSION);
      DiskStore.StampedInjective(id, Decimal(a), Decimal(b), Decimal(a'), Decimal(b'));
      DecimalInjective(a, a');
    }
  }

  /** For instance a file closed at time 12 by the replay of one closed at time 1. */
  lemma ShortStopTimeIsFound(id: string, start: nat)
    requires Requests.IsIdentifier(id)
    ensures var name := DiskStore.FileName(id, start, 12);
            var ref := Requests.StoreFileId(id, start, 1) + Requests.REMOTE_EXTENSION;
            Contains(name, Requests.RootId(ref)) && ref != RemoteId(name)
  {
    assert Decimal(12) == Decimal(1) + [Digit(2)];
    ReplayFindsAnotherFileIff(id, start, 1, start, 12);
  }
}
