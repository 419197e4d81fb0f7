/** The collector's disk store: rows are buffered in an active file, which is
    finalized under a time-stamped name once it is full or due
    (app/storage/disk/disk.go). */
module DiskStore {
  import opened Text

  /** A finalized file: the store's clock when it was opened and closed, and its rows. */
  datatype File<T> = File(start: nat, stop: nat, rows: seq<T>)

  /** One buffer that has been closed. `acked` are the rows of calls to Put that
      reported success, `unacked` those of the one that reported the closing's error. */
  datatype Buffer<T> = Buffer(acked: seq<T>, unacked: seq<T>, kept: bool)
  {
    function Rows(): seq<T> { acked + unacked }
  }

  /** The I/O calls and clock readings one operation may need: creating a file to
      recover, closing the active one (JSON writer, compressor, file, rename), and
      creating the next. */
  datatype Io = Io(
    recover: bool, recoverAt: nat,
    flush: bool, closeCompressor: bool, closeFile: bool, stopAt: nat, rename: bool,
    create: bool, createAt: nat)
  {
    predicate Closes() { flush && closeCompressor && closeFile && rename }
  }

  /** The store's state. `writing` says there is a writer; `files`, oldest first,
      and `buffers` are history. `dir` is the storage directory. */
  datatype State<T> = State(
    writing: bool, active: seq<T>, startTime: nat,
    dir: map<string, seq<T>>, files: seq<File<T>>, buffers: seq<Buffer<T>>)

  function Stamped(head: string, start: string, tail: string): string {
    head + "_" + (start + "_" + tail)
  }

  function FileName(identifier: string, start: nat, stop: nat): string {
    Stamped(if identifier == "" then "file" else identifier, Decimal(start), Decimal(stop) + ".json.br")
  }

  // ----------------------------------------------------- what one call does

  /** The active buffer is closed: it becomes a file, or is dropped as a whole. */
  function Closed<T>(s: State<T>, id: string, acked: seq<T>, unacked: seq<T>, io: Io): State<T> {
    var rows := acked + unacked;
    if io.Closes() then
      State(false, [], s.startTime, s.dir[FileName(id, s.startTime, io.stopAt) := rows],
            s.files + [File(s.startTime, io.stopAt, rows)], s.buffers + [Buffer(acked, unacked, true)])
    else
      State(false, [], s.startTime, s.dir, s.files, s.buffers + [Buffer(acked, unacked, false)])
  }

  function Opened<T>(s: State<T>, at: nat): State<T> {
    s.(writing := true, active := [], startTime := at)
  }

  predicate PutAccepts<T>(s: State<T>, io: Io) {
    s.writing || io.recover
  }

  predicate PutOk<T>(s: State<T>, rows: seq<T>, io: Io, limit: nat) {
    PutAccepts(s, io) && (|s.active| + |rows| < limit || (io.Closes() && io.create))
  }

  /** Put: refused without a writer; otherwise the rows are buffered, and a full
      buffer is closed. */
  function AfterPut<T>(s: State<T>, rows: seq<T>, io: Io, id: string, limit: nat): State<T> {
    if !PutAccepts(s, io) then s
    else
      var w := if s.writing then s else Opened(s, io.recoverAt);
      if |w.active| + |rows| < limit then w.(active := w.active + rows)
      else if PutOk(s, rows, io, limit) then Opened(Closed(w, id, w.active + rows, [], io), io.createAt)
      else Closed(w, id, w.active, rows, io)
  }

  predicate FlushOk<T>(s: State<T>, io: Io) {
    s.active == [] || (io.Closes() && io.create)
  }

  /** Flush: closes a buffer that is not empty. */
  function AfterFlush<T>(s: State<T>, io: Io, id: string): State<T> {
    if s.active == [] then s
    else if FlushOk(s, io) then Opened(Closed(s, id, s.active, [], io), io.createAt)
    else Closed(s, id, s.active, [], io)
  }

  // ------------------------------------------------------------ the store

  class Store<T> {
    const identifier: string
    const rowLimit: nat
    var writing: bool
    var active: seq<T>       // what has been written to the active file
    var rowCount: nat
    var startTime: nat
    var dir: map<string, seq<T>>
    ghost var files: seq<File<T>>
    ghost var buffers: seq<Buffer<T>>

    ghost predicate Valid()
      reads this
    {
      && rowCount == |active| < rowLimit
      && (active != [] ==> writing)
    }

    ghost function Abs(): State<T>
      reads this
    {
      State(writing, active, startTime, dir, files, buffers)
    }

    /** NewDiskStore with a first file that could be created; zero rows per file
        means the default. */
    constructor (identifier: string, maxRecords: nat, defaultRecords: nat, at: nat)
      requires defaultRecords > 0
      ensures Valid() && Abs() == State(true, [], at, map[], [], [])
      ensures this.identifier == identifier
      ensures rowLimit == if maxRecords == 0 then defaultRecords else maxRecords
    {
      this.identifier := identifier;
      rowLimit := if maxRecords == 0 then defaultRecords else maxRecords;
      writing, active, rowCount, startTime := true, [], 0, at;
      dir, files, buffers := map[], [], [];
    }

    method NewFileWriter(created: bool, at: nat) returns (ok: bool)
      modifies this`writing, this`active, this`rowCount, this`startTime
      ensures ok == created
      ensures if ok then writing && active == [] && rowCount == 0 && startTime == at
              else Abs() == old(Abs()) && rowCount == old(rowCount)
    {
      if !created {
        return false;
      }
      rowCount, startTime, active, writing := 0, at, [], true;
      ok := true;
    }

    method AbandonFile()
      modifies this`writing, this`active, this`rowCount
      ensures !writing && active == [] && rowCount == 0
    {
      writing, active, rowCount := false, [], 0;
    }

    method FlushUnlocked(io: Io, ghost acked: seq<T>, ghost unacked: seq<T>) returns (ok: bool)
      requires writing && active == acked + unacked
      modifies this
      ensures ok == io.Closes()
      ensures Abs() == Closed(old(Abs()), identifier, acked, unacked, io)
      ensures rowCount == 0
    {
      if !io.flush || !io.closeCompressor || !io.closeFile || !io.rename {
        AbandonFile();
        buffers := buffers + [Buffer(acked, unacked, false)];
        return false;
      }
      var name := FileName(identifier, startTime, io.stopAt);
      dir := dir[name := active];
      files := files + [File(startTime, io.stopAt, active)];
      buffers := buffers + [Buffer(acked, unacked, true)];
      writing, active, rowCount := false, [], 0;
      ok := true;
    }

    method Put(metrics: seq<T>, io: Io) returns (ok: bool)
      requires Valid()
      modifies this
      ensures Valid()
      ensures ok == PutOk(old(Abs()), metrics, io, rowLimit)
      ensures Abs() == AfterPut(old(Abs()), metrics, io, identifier, rowLimit)
    {
      if !writing {
        var recovered := NewFileWriter(io.recover, io.recoverAt);
        if !recovered {
          return false;
        }
      }
      ghost var before := active;
      var i := 0;
      while i < |metrics|
        invariant i <= |metrics| && active == before + metrics[..i]
        invariant writing && dir == old(dir) && files == old(files) && buffers == old(buffers)
        invariant rowCount == |before|
        invariant startTime == if old(writing) then old(startTime) else io.recoverAt
      {
        active := active + [metrics[i]];
        i := i + 1;
      }
      assert metrics[..i] == metrics;
      rowCount := rowCount + |metrics|;
      if rowCount >= rowLimit {
        ghost var ok' := io.Closes() && io.create;
        assert before + metrics == before + metrics + [];
        var flushed := FlushUnlocked(io, if ok' then before + metrics else before, if ok' then [] else metrics);
        if !flushed {
          return false;
        }
        var created := NewFileWriter(io.create, io.createAt);
        if !created {
          return false;
        }
      }
      ok := true;
    }

    method Flush(io: Io) returns (ok: bool)
      requires Valid()
      modifies this
      ensures Valid()
      ensures ok == FlushOk(old(Abs()), io)
      ensures Abs() == AfterFlush(old(Abs()), io, identifier)
    {
      if rowCount == 0 {
        return true;
      }
      assert active == active + [];
      var flushed := FlushUnlocked(io, active, []);
      if !flushed {
        return false;
      }
      ok := NewFileWriter(io.create, io.createAt);
    }
  }

  // ----------------------------------------------------------- whole runs

  datatype Op<T> = Put(rows: seq<T>, io: Io) | Flush(io: Io)

  function Step<T>(s: State<T>, op: Op<T>, id: string, limit: nat): State<T> {
    match op
    case Put(rows, io) => AfterPut(s, rows, io, id, limit)
    case Flush(io) => AfterFlush(s, io, id)
  }

  function Run<T>(s: State<T>, ops: seq<Op<T>>, id: string, limit: nat): State<T>
    decreases |ops|
  {
    if ops == [] then s else Step(Run(s, ops[..|ops| - 1], id, limit), ops[|ops| - 1], id, limit)
  }

  /** The rows of the calls to Put that got past recovering the writer. */
  function Accepted<T>(s: State<T>, ops: seq<Op<T>>, id: string, limit: nat): seq<T>
    decreases |ops|
  {
    if ops == [] then []
    else
      var front, op := ops[..|ops| - 1], ops[|ops| - 1];
      Accepted(s, front, id, limit)
      + if op.Put? && PutAccepts(Run(s, front, id, limit), op.io) then op.rows else []
  }

  /** The rows of the calls to Put that reported success. */
  function Acknowledged<T>(s: State<T>, ops: seq<Op<T>>, id: string, limit: nat): seq<T>
    decreases |ops|
  {
    if ops == [] then []
    else
      var front, op := ops[..|ops| - 1], ops[|ops| - 1];
      Acknowledged(s, front, id, limit)
      + if op.Put? && PutOk(Run(s, front, id, limit), op.rows, op.io, limit) then op.rows else []
  }

  function AllRows<T>(buffers: seq<Buffer<T>>): seq<T> {
    if buffers == [] then [] else AllRows(buffers[..|buffers| - 1]) + buffers[|buffers| - 1].Rows()
  }

  function AckedRows<T>(buffers: seq<Buffer<T>>): seq<T> {
    if buffers == [] then [] else AckedRows(buffers[..|buffers| - 1]) + buffers[|buffers| - 1].acked
  }

  function KeptRows<T>(buffers: seq<Buffer<T>>): seq<seq<T>> {
    if buffers == [] then []
    else
      var last := buffers[|buffers| - 1];
      KeptRows(buffers[..|buffers| - 1]) + if last.kept then [last.Rows()] else []
  }

  function RowsOf<T>(files: seq<File<T>>): seq<seq<T>> {
    seq(|files|, i requires 0 <= i < |files| => files[i].rows)
  }

  ghost predicate Inv<T>(s: State<T>, limit: nat) {
    && |s.active| < limit
    && (s.active != [] ==> s.writing)
    && RowsOf(s.files) == KeptRows(s.buffers)
    && (forall f :: f in s.files ==> f.rows != [])
  }

  lemma AppendBuffer<T>(buffers: seq<Buffer<T>>, b: Buffer<T>)
    ensures AllRows(buffers + [b]) == AllRows(buffers) + b.Rows()
    ensures AckedRows(buffers + [b]) == AckedRows(buffers) + b.acked
    ensures KeptRows(buffers + [b]) == KeptRows(buffers) + if b.kept then [b.Rows()] else []
  {
    assert (buffers + [b])[..|buffers|] == buffers;
  }

  lemma ClosedKeeps<T>(s: State<T>, id: string, acked: seq<T>, unacked: seq<T>, io: Io, limit: nat)
    requires Inv(s, limit) && acked + unacked != [] && limit > 0
    ensures Inv(Closed(s, id, acked, unacked, io), limit)
  {
    AppendBuffer(s.buffers, Buffer(acked, unacked, io.Closes()));
    assert RowsOf(Closed(s, id, acked, unacked, io).files)
        == RowsOf(s.files) + if io.Closes() then [acked + unacked] else [];
  }

  lemma StepKeeps<T>(s: State<T>, op: Op<T>, id: string, limit: nat)
    requires Inv(s, limit)
    ensures Inv(Step(s, op, id, limit), limit)
  {
    match op
    case Put(rows, io) =>
      var w := if s.writing then s else Opened(s, io.recoverAt);
      if PutAccepts(s, io) && |w.active| + |rows| >= limit {
        ClosedKeeps(w, id, w.active + rows, [], io, limit);
        ClosedKeeps(w, id, w.active, rows, io, limit);
      }
    case Flush(io) =>
      if s.active != [] {
        ClosedKeeps(s, id, s.active, [], io, limit);
      }
  }

  /** The accounting of every run: what was accepted is, in order, what the closed
      buffers held followed by the active buffer; what was acknowledged likewise;
      and the finalized files are exactly the buffers that were kept. */
  lemma {:induction false} RunAccounts<T>(s: State<T>, ops: seq<Op<T>>, id: string, limit: nat)
    requires Inv(s, limit) && s.active == [] && s.buffers == []
    ensures var e := Run(s, ops, id, limit);
            && Inv(e, limit)
            && Accepted(s, ops, id, limit) == AllRows(e.buffers) + e.active
            && Acknowledged(s, ops, id, limit) == AckedRows(e.buffers) + e.active
    decreases |ops|
  {
    if ops != [] {
      var front, op := ops[..|ops| - 1], ops[|ops| - 1];
      RunAccounts(s, front, id, limit);
      var m := Run(s, front, id, limit);
      StepKeeps(m, op, id, limit);
      StepAccounts(m, op, id, limit);
      var e := Step(m, op, id, limit);
      var more := if op.Put? && PutAccepts(m, op.io) then op.rows else [];
      var acked := if op.Put? && PutOk(m, op.rows, op.io, limit) then op.rows else [];
      assert AllRows(m.buffers) + m.active + more == AllRows(e.buffers) + e.active;
      assert AckedRows(m.buffers) + m.active + acked == AckedRows(e.buffers) + e.active;
    }
  }

  lemma PutAccounts<T>(m: State<T>, rows: seq<T>, io: Io, id: string, limit: nat)
    requires Inv(m, limit) && PutAccepts(m, io)
    ensures var e := AfterPut(m, rows, io, id, limit);
            && AllRows(e.buffers) + e.active == AllRows(m.buffers) + m.active + rows
            && AckedRows(e.buffers) + e.active
               == AckedRows(m.buffers) + m.active + if PutOk(m, rows, io, limit) then rows else []
  {
    if |m.active| + |rows| < limit {
      Reassociate(AllRows(m.buffers), m.active, rows);
      Reassociate(AckedRows(m.buffers), m.active, rows);
    } else {
      var b := if PutOk(m, rows, io, limit) then Buffer(m.active + rows, [], true)
               else Buffer(m.active, rows, io.Closes());
      PutCloses(m, rows, io, id, limit, b);
      AppendBuffer(m.buffers, b);
      Reassociate(AllRows(m.buffers), m.active, rows);
      Reassociate(AckedRows(m.buffers), m.active, rows);
    }
  }

  lemma Reassociate<T>(a: seq<T>, b: seq<T>, c: seq<T>)
    ensures a + (b + c) == a + b + c
    ensures a + b + [] == a + b
  {
  }

  lemma PutCloses<T>(m: State<T>, rows: seq<T>, io: Io, id: string, limit: nat, b: Buffer<T>)
    requires Inv(m, limit) && PutAccepts(m, io) && |m.active| + |rows| >= limit
    requires b == if PutOk(m, rows, io, limit) then Buffer(m.active + rows, [], true)
                  else Buffer(m.active, rows, io.Closes())
    ensures AfterPut(m, rows, io, id, limit).active == []
    ensures AfterPut(m, rows, io, id, limit).buffers == m.buffers + [b]
    ensures b.Rows() == m.active + rows
  {
  }

  lemma StepAccounts<T>(m: State<T>, op: Op<T>, id: string, limit: nat)
    requires Inv(m, limit)
    ensures var e := Step(m, op, id, limit);
            var more := if op.Put? && PutAccepts(m, op.io) then op.rows else [];
            var acked := if op.Put? && PutOk(m, op.rows, op.io, limit) then op.rows else [];
            && AllRows(m.buffers) + m.active + more == AllRows(e.buffers) + e.active
            && AckedRows(m.buffers) + m.active + acked == AckedRows(e.buffers) + e.active
  {
    match op
    case Put(rows, io) =>
      if PutAccepts(m, io) { PutAccounts(m, rows, io, id, limit); }
    case Flush(io) =>
      FlushAccounts(m, io, id);
  }

  lemma FlushAccounts<T>(m: State<T>, io: Io, id: string)
    ensures var e := AfterFlush(m, io, id);
            && AllRows(m.buffers) + m.active + [] == AllRows(e.buffers) + e.active
            && AckedRows(m.buffers) + m.active + [] == AckedRows(e.buffers) + e.active
  {
    if m.active != [] {
      AppendBuffer(m.buffers, Buffer(m.active, [], io.Closes()));
      assert Buffer(m.active, [], io.Closes()).Rows() == m.active;
    }
  }

  // --------------------------------------------- acknowledged rows and failures

  function SurvivingAckedRows<T>(buffers: seq<Buffer<T>>): seq<T> {
    if buffers == [] then []
    else
      var last := buffers[|buffers| - 1];
      SurvivingAckedRows(buffers[..|buffers| - 1]) + if last.kept then last.acked else []
  }

  lemma {:induction false} SurvivingAckedIff<T>(buffers: seq<Buffer<T>>)
    ensures |SurvivingAckedRows(buffers)| <= |AckedRows(buffers)|
    ensures SurvivingAckedRows(buffers) == AckedRows(buffers)
            <==> DropsNoAcked(buffers)
  {
    if buffers != [] {
      var front, last := buffers[..|buffers| - 1], buffers[|buffers| - 1];
      assert buffers == front + [last];
      assert forall b :: b in buffers <==> b in front || b == last;
      SurvivingAckedIff(front);
      if last.kept || last.acked == [] {
        SuffixCancels(SurvivingAckedRows(front), AckedRows(front), last.acked);
      }
    }
  }

  lemma SuffixCancels<T>(a: seq<T>, b: seq<T>, suffix: seq<T>)
    ensures a + suffix == b + suffix <==> a == b
  {
    if a + suffix == b + suffix {
      assert |a| == |b|;
      assert a == (a + suffix)[..|a|] && b == (b + suffix)[..|b|];
    }
  }

  ghost predicate DropsNoAcked<T>(buffers: seq<Buffer<T>>) {
    forall b :: b in buffers && !b.kept ==> b.acked == []
  }

  /** The call finds rows buffered, has to close the buffer, and cannot. */
  predicate LosesAcked<T>(s: State<T>, op: Op<T>, limit: nat) {
    && s.active != []
    && !op.io.Closes()
    && (op.Flush? || (PutAccepts(s, op.io) && |s.active| + |op.rows| >= limit))
  }

  lemma StepDropsIff<T>(s: State<T>, op: Op<T>, id: string, limit: nat)
    requires Inv(s, limit)
    ensures DropsNoAcked(Step(s, op, id, limit).buffers) <==> DropsNoAcked(s.buffers) && !LosesAcked(s, op, limit)
  {
    var e := Step(s, op, id, limit);
    if e.buffers != s.buffers {
      var b := e.buffers[|s.buffers|];
      assert e.buffers == s.buffers + [b];
      assert forall c :: c in e.buffers <==> c in s.buffers || c == b;
    }
  }

  /** Call number k of the run loses acknowledged rows. */
  predicate LosesAt<T>(s: State<T>, ops: seq<Op<T>>, id: string, limit: nat, k: nat)
    requires k < |ops|
  {
    LosesAcked(Run(s, ops[..k], id, limit), ops[k], limit)
  }

  lemma LosesAtFront<T>(s: State<T>, ops: seq<Op<T>>, id: string, limit: nat, k: nat)
    requires k < |ops| - 1
    ensures LosesAt(s, ops[..|ops| - 1], id, limit, k) == LosesAt(s, ops, id, limit, k)
  {
    assert ops[..|ops| - 1][..k] == ops[..k];
  }

  lemma {:induction false} RunDropsIff<T>(s: State<T>, ops: seq<Op<T>>, id: string, limit: nat)
    requires Inv(s, limit) && s.active == [] && s.buffers == []
    ensures DropsNoAcked(Run(s, ops, id, limit).buffers)
            <==> forall k: nat :: k < |ops| ==> !LosesAt(s, ops, id, limit, k)
    decreases |ops|
  {
    if ops != [] {
      var n := |ops| - 1;
      var front := ops[..n];
      RunDropsIff(s, front, id, limit);
      RunAccounts(s, front, id, limit);
      StepDropsIff(Run(s, front, id, limit), ops[n], id, limit);
      forall k: nat | k < n ensures LosesAt(s, front, id, limit, k) == LosesAt(s, ops, id, limit, k) {
        LosesAtFront(s, ops, id, limit, k);
      }
      assert LosesAt(s, ops, id, limit, n) == LosesAcked(Run(s, front, id, limit), ops[n], limit);
    }
  }

  /** All acknowledged rows are in a file or still buffered exactly when no call of the
      run found rows buffered, had to close the buffer, and could not. */
  lemma AcknowledgedSurviveIff<T>(s: State<T>, ops: seq<Op<T>>, id: string, limit: nat)
    requires Inv(s, limit) && s.active == [] && s.buffers == []
    ensures var e := Run(s, ops, id, limit);
            Acknowledged(s, ops, id, limit) == SurvivingAckedRows(e.buffers) + e.active
            <==> forall k: nat :: k < |ops| ==> !LosesAt(s, ops, id, limit, k)
  {
    var e := Run(s, ops, id, limit);
    RunAccounts(s, ops, id, limit);
    SurvivingAckedIff(e.buffers);
    SuffixCancels(SurvivingAckedRows(e.buffers), AckedRows(e.buffers), e.active);
    RunDropsIff(s, ops, id, limit);
  }

  /** A row can be lost although its own Put reported success: the caller whose
      Put fails is told, the earlier one is not. */
  lemma AcknowledgedRowCanBeLost<T>(a: T, b: T, good: Io, bad: Io, id: string)
    requires good.Closes() && good.create && !bad.Closes()
    ensures var s := State(true, [], 0, map[], [], []);
            var ops := [Put([a], good), Put([b], bad)];
            && Acknowledged(s, ops, id, 2) == [a]
            && Run(s, ops, id, 2).active == [] && Run(s, ops, id, 2).dir == map[]
  {
    var s: State<T> := State(true, [], 0, map[], [], []);
    var first := [Put([a], good)];
    var ops := [Put([a], good), Put([b], bad)];
    assert ops[..1] == first && first[..0] == [];
    assert Run(s, first, id, 2) == AfterPut(s, [a], good, id, 2);
    assert Acknowledged(s, first, id, 2) == [a];
  }

  // ------------------------------------------------------------- file names

  lemma FileNameInjective(id: string, a: nat, b: nat, a': nat, b': nat)
    requires FileName(id, a, b) == FileName(id, a', b')
    ensures a == a' && b == b'
  {
    var head := if id == "" then "file" else id;
    StampedInjective(head, Decimal(a), Decimal(b) + ".json.br", Decimal(a'), Decimal(b') + ".json.br");
    StripSuffix(Decimal(b), Decimal(b'), ".json.br");
    DecimalInjective(a, a');
    DecimalInjective(b, b');
  }

  lemma StampedInjective(head: string, a: string, b: string, a': string, b': string)
    requires '_' !in a && '_' !in a'
    requires Stamped(head, a, b) == Stamped(head, a', b')
    ensures a == a' && b == b'
  {
    var x, x' := a + "_" + b, a' + "_" + b';
    assert x == Stamped(head, a, b)[|head| + 1..] && x' == Stamped(head, a', b')[|head| + 1..];
    JoinInjective(a, b, a', b', '_');
  }

  lemma StripSuffix(a: string, b: string, suffix: string)
    requires a + suffix == b + suffix
    ensures a == b
  {
    assert |a| == |b|;
    assert a == (a + suffix)[..|a|] && b == (b + suffix)[..|b|];
  }

  function LastReading<T>(from: nat, ops: seq<Op<T>>): nat {
    if ops == [] then from else ops[|ops| - 1].io.createAt
  }

  /** The clock does not go back between the readings of a run. */
  predicate ClockNeverGoesBack<T>(from: nat, ops: seq<Op<T>>)
    decreases |ops|
  {
    ops == [] ||
    var front, io := ops[..|ops| - 1], ops[|ops| - 1].io;
    ClockNeverGoesBack(from, front) && LastReading(from, front) <= io.recoverAt <= io.stopAt <= io.createAt
  }

  ghost predicate FilesInOrder<T>(files: seq<File<T>>, now: nat) {
    && (forall f :: f in files ==> f.start <= f.stop <= now)
    && (forall i, j :: 0 <= i < j < |files| ==> files[i].stop <= files[j].start)
  }

  function Name<T>(id: string, f: File<T>): string {
    FileName(id, f.start, f.stop)
  }

  /** The directory has an entry under every finalized name, the newest one. */
  ghost predicate DirHolds<T>(dir: map<string, seq<T>>, files: seq<File<T>>, id: string) {
    && (forall name :: name in dir ==> exists f :: f in files && Name(id, f) == name)
    && (forall f :: f in files ==> Name(id, f) in dir)
    && (forall i :: 0 <= i < |files| && IsLastNamed(files, id, i) ==> dir[Name(id, files[i])] == files[i].rows)
  }

  ghost predicate IsLastNamed<T>(files: seq<File<T>>, id: string, i: nat)
    requires i < |files|
  {
    forall j :: i < j < |files| ==> Name(id, files[j]) != Name(id, files[i])
  }

  lemma AddFile<T>(dir: map<string, seq<T>>, files: seq<File<T>>, id: string, f: File<T>, now: nat)
    requires DirHolds(dir, files, id) && FilesInOrder(files, now)
    requires now <= f.start <= f.stop
    ensures DirHolds(dir[Name(id, f) := f.rows], files + [f], id)
    ensures FilesInOrder(files + [f], f.stop)
  {
    AddToDir(dir, files, id, f);
    AddInOrder(files, f, now);
  }

  lemma AddInOrder<T>(files: seq<File<T>>, f: File<T>, now: nat)
    requires FilesInOrder(files, now) && now <= f.start <= f.stop
    ensures FilesInOrder(files + [f], f.stop)
  {
    var files' := files + [f];
    assert forall g :: g in files' <==> g in files || g == f;
    forall i, j | 0 <= i < j < |files'| ensures files'[i].stop <= files'[j].start {
      assert files'[i] in files;
    }
  }

  lemma AddToDir<T>(dir: map<string, seq<T>>, files: seq<File<T>>, id: string, f: File<T>)
    requires DirHolds(dir, files, id)
    ensures DirHolds(dir[Name(id, f) := f.rows], files + [f], id)
  {
    var files', dir' := files + [f], dir[Name(id, f) := f.rows];
    assert files'[|files|] == f;
    assert forall g :: g in files' <==> g in files || g == f;
    forall i | 0 <= i < |files'| && IsLastNamed(files', id, i)
      ensures dir'[Name(id, files'[i])] == files'[i].rows
    {
      if i < |files| {
        assert Name(id, files'[|files|]) != Name(id, files'[i]);
        LastNamedBefore(files, id, f, i);
      }
    }
  }

  lemma LastNamedBefore<T>(files: seq<File<T>>, id: string, f: File<T>, i: nat)
    requires i < |files| && IsLastNamed(files + [f], id, i)
    ensures IsLastNamed(files, id, i)
  {
    var files' := files + [f];
    forall j | i < j < |files| ensures Name(id, files[j]) != Name(id, files[i]) {
      assert files'[j] == files[j];
    }
  }

  /** The files a step adds, if any, were opened by the store at `startTime` or
      within the step itself, and closed at its `stopAt`. */
  lemma StepAddsAtMostOne<T>(s: State<T>, op: Op<T>, id: string, limit: nat)
    requires s.active != [] ==> s.writing
    ensures var e, io := Step(s, op, id, limit), op.io;
            var start := if s.writing then s.startTime else io.recoverAt;
            || (e.files == s.files && e.dir == s.dir
                && (e.writing ==> e.startTime == start || e.startTime == io.createAt))
            || (exists f: File<T> ::
                  && f.start == start && f.stop == io.stopAt
                  && e.files == s.files + [f] && e.dir == s.dir[Name(id, f) := f.rows]
                  && (e.writing ==> e.startTime == io.createAt))
  {
    var e, io := Step(s, op, id, limit), op.io;
    if |e.files| > |s.files| {
      var f := e.files[|s.files|];
      assert e.files == s.files + [f] && e.dir == s.dir[Name(id, f) := f.rows];
    }
  }

  lemma {:induction false} RunKeepsNames<T>(s: State<T>, ops: seq<Op<T>>, id: string, limit: nat)
    requires Inv(s, limit) && s.files == [] && s.dir == map[] && ClockNeverGoesBack(s.startTime, ops)
    ensures var e, now := Run(s, ops, id, limit), LastReading(s.startTime, ops);
            && Inv(e, limit) && DirHolds(e.dir, e.files, id) && FilesInOrder(e.files, now)
            && (e.writing ==> FilesInOrder(e.files, e.startTime) && e.startTime <= now)
    decreases |ops|
  {
    if ops != [] {
      var front, op := ops[..|ops| - 1], ops[|ops| - 1];
      RunKeepsNames(s, front, id, limit);
      var m, e := Run(s, front, id, limit), Run(s, ops, id, limit);
      var io, now := op.io, LastReading(s.startTime, front);
      var start := if m.writing then m.startTime else io.recoverAt;
      StepKeeps(m, op, id, limit);
      StepAddsAtMostOne(m, op, id, limit);
      assert FilesInOrder(m.files, start) && start <= io.recoverAt;
      if e.files != m.files {
        var f: File<T> :| f.start == start && f.stop == io.stopAt
                          && e.files == m.files + [f] && e.dir == m.dir[Name(id, f) := f.rows];
        AddFile(m.dir, m.files, id, f, start);
      }
    }
  }

  // ------------------------------------------------- when files were opened

  /** The reading of the call that created the writer a call leaves behind: its own, if it
      closed a buffer or had to recover, otherwise that of the writer it found. */
  function CreatedAt<T>(s: State<T>, e: State<T>, io: Io, before: nat): nat {
    if |e.buffers| > |s.buffers| then io.createAt
    else if !s.writing && e.writing then io.recoverAt
    else before
  }

  /** The reading at which the writer was created that the run ends with: the initial
      start, the createAt of the call that closed the last buffer, or the recoverAt of the
      Put that recovered after it. */
  function WriterCreatedAt<T>(s: State<T>, ops: seq<Op<T>>, id: string, limit: nat): nat
    decreases |ops|
  {
    if ops == [] then s.startTime
    else
      var front, op := ops[..|ops| - 1], ops[|ops| - 1];
      CreatedAt(Run(s, front, id, limit), Run(s, ops, id, limit), op.io, WriterCreatedAt(s, front, id, limit))
  }

  lemma StepKeepsStart<T>(m: State<T>, op: Op<T>, id: string, limit: nat, before: nat)
    requires Inv(m, limit) && (m.writing ==> m.startTime == before)
    ensures var e := Step(m, op, id, limit);
            && (e.writing ==> e.startTime == CreatedAt(m, e, op.io, before))
            && (|e.buffers| == |m.buffers| && m.writing ==> e.writing && e.startTime == m.startTime)
  {
  }

  /** In every run an open file's start time is the reading at which it was created. */
  lemma {:induction false} StartIsCreation<T>(s: State<T>, ops: seq<Op<T>>, id: string, limit: nat)
    requires Inv(s, limit)
    ensures var e := Run(s, ops, id, limit);
            Inv(e, limit) && (e.writing ==> e.startTime == WriterCreatedAt(s, ops, id, limit))
    decreases |ops|
  {
    if ops != [] {
      var front, op := ops[..|ops| - 1], ops[|ops| - 1];
      StartIsCreation(s, front, id, limit);
      var m := Run(s, front, id, limit);
      StepKeeps(m, op, id, limit);
      StepKeepsStart(m, op, id, limit, WriterCreatedAt(s, front, id, limit));
    }
  }

  /** The file that call number |ops| - 1 finalizes: it starts when its writer was created,
      which this very call may have done, stops when the call closed it, and holds what
      was buffered before followed by the call's own rows. */
  lemma FinalizedFile<T>(s: State<T>, ops: seq<Op<T>>, id: string, limit: nat)
    requires Inv(s, limit) && ops != []
    ensures var front, op := ops[..|ops| - 1], ops[|ops| - 1];
            var m, e := Run(s, front, id, limit), Run(s, ops, id, limit);
            e.files != m.files ==>
              e.files == m.files + [File(
                if m.writing then WriterCreatedAt(s, front, id, limit) else op.io.recoverAt,
                op.io.stopAt,
                m.active + if op.Put? then op.rows else [])]
  {
    var front, op := ops[..|ops| - 1], ops[|ops| - 1];
    StartIsCreation(s, front, id, limit);
    StepFinalizes(Run(s, front, id, limit), op, id, limit);
  }

  lemma StepFinalizes<T>(m: State<T>, op: Op<T>, id: string, limit: nat)
    requires Inv(m, limit)
    ensures var e := Step(m, op, id, limit);
            e.files != m.files ==>
              e.files == m.files + [File(
                if m.writing then m.startTime else op.io.recoverAt,
                op.io.stopAt,
                m.active + if op.Put? then op.rows else [])]
  {
    assert m.active + [] == m.active;
    if op.Put? {
      assert m.active + op.rows + [] == m.active + op.rows;
    }
  }

  /** Hence no row is older than its file: the first call to Put whose rows a writer takes
      reads the clock no earlier than the writer was created. */
  lemma StartPrecedesRows<T>(s: State<T>, ops: seq<Op<T>>, id: string, limit: nat)
    requires Inv(s, limit) && ops != [] && ClockNeverGoesBack(s.startTime, ops)
    ensures var front, op := ops[..|ops| - 1], ops[|ops| - 1];
            var m, e := Run(s, front, id, limit), Run(s, ops, id, limit);
            && (m.writing ==> WriterCreatedAt(s, front, id, limit) <= op.io.recoverAt)
            && (e.files != m.files ==> e.files[|e.files| - 1].start <= op.io.recoverAt)
            && (|e.buffers| == |m.buffers| && e.writing ==> e.startTime <= op.io.recoverAt)
  {
    var front, op := ops[..|ops| - 1], ops[|ops| - 1];
    CreationIsPast(s, front, id, limit);
    FinalizedFile(s, ops, id, limit);
    StartIsCreation(s, ops, id, limit);
  }

  lemma {:induction false} CreationIsPast<T>(s: State<T>, ops: seq<Op<T>>, id: string, limit: nat)
    requires ClockNeverGoesBack(s.startTime, ops)
    ensures s.startTime <= LastReading(s.startTime, ops)
    ensures WriterCreatedAt(s, ops, id, limit) <= LastReading(s.startTime, ops)
    decreases |ops|
  {
    if ops != [] {
      CreationIsPast(s, ops[..|ops| - 1], id, limit);
    }
  }

  /** When a buffer is closed: by a Put exactly when the rows reach the limit, by a Flush
      exactly when there are any. */
  lemma ClosesIff<T>(m: State<T>, op: Op<T>, id: string, limit: nat)
    requires Inv(m, limit)
    ensures var e := Step(m, op, id, limit);
            && (|e.buffers| > |m.buffers| <==>
                  if op.Put? then (m.writing || op.io.recover) && |m.active| + |op.rows| >= limit else m.active != [])
            && (e.files != m.files <==>
                  |e.buffers| > |m.buffers| && op.io.flush && op.io.closeCompressor && op.io.closeFile && op.io.rename)
  {
  }

  /** Both files were opened and closed within one and the same millisecond. */
  ghost predicate SameInstant<T>(f: File<T>, g: File<T>) {
    f.start == f.stop == g.start == g.stop
  }

  /** Two finalized files get the same name, and the later replaces the earlier,
      exactly when both were opened and closed within one millisecond. */
  lemma NamesCollideIff<T>(s: State<T>, ops: seq<Op<T>>, id: string, limit: nat, i: nat, j: nat)
    requires Inv(s, limit) && s.files == [] && s.dir == map[] && ClockNeverGoesBack(s.startTime, ops)
    requires i < j < |Run(s, ops, id, limit).files|
    ensures var files := Run(s, ops, id, limit).files;
            Name(id, files[i]) == Name(id, files[j]) <==> SameInstant(files[i], files[j])
  {
    RunKeepsNames(s, ops, id, limit);
    var files := Run(s, ops, id, limit).files;
    assert files[i] in files && files[j] in files;
    SameNameIff(id, files[i], files[j]);
  }

  lemma SameNameIff<T>(id: string, f: File<T>, g: File<T>)
    requires f.start <= f.stop <= g.start <= g.stop
    ensures Name(id, f) == Name(id, g) <==> SameInstant(f, g)
  {
    if Name(id, f) == Name(id, g) {
      FileNameInjective(id, f.start, f.stop, g.start, g.stop);
    }
  }

  /** For instance a store of one row a file that is given two rows within one millisecond. */
  lemma TwoFilesOneName<T>(a: T, b: T, at: nat, id: string)
    ensures var io := Io(true, at, true, true, true, at, true, true, at);
            var s := State(true, [], at, map[], [], []);
            var e := Run(s, [Put([a], io), Put([b], io)], id, 1);
            e.files == [File(at, at, [a]), File(at, at, [b])] && e.dir == map[FileName(id, at, at) := [b]]
  {
    var io := Io(true, at, true, true, true, at, true, true, at);
    var s: State<T> := State(true, [], at, map[], [], []);
    var ops := [Put([a], io), Put([b], io)];
    var first := [Put([a], io)];
    assert ops[..1] == first && first[..0] == [];
    var m := AfterPut(s, [a], io, id, 1);
    assert Run(s, first, id, 1) == m;
    assert s.active + [a] + [] == [a] && m.active + [b] + [] == [b];
    assert m.writing && m.active == [] && m.startTime == at && m.files == [File(at, at, [a])];
    assert m.dir == map[FileName(id, at, at) := [a]];
    assert Run(s, ops, id, 1) == AfterPut(m, [b], io, id, 1);
  }

  /** If no two files share their whole life with one millisecond, every
      finalized file is on disk under its own name with its own rows, and nothing else is. */
  lemma NothingIsOverwritten<T>(s: State<T>, ops: seq<Op<T>>, id: string, limit: nat)
    requires Inv(s, limit) && s.files == [] && s.dir == map[] && ClockNeverGoesBack(s.startTime, ops)
    requires var files := Run(s, ops, id, limit).files;
             forall i, j :: 0 <= i < j < |files| ==> !SameInstant(files[i], files[j])
    ensures var e := Run(s, ops, id, limit);
            && (forall f :: f in e.files ==> Name(id, f) in e.dir && e.dir[Name(id, f)] == f.rows)
            && (forall name :: name in e.dir ==> exists f :: f in e.files && Name(id, f) == name)
  {
    RunKeepsNames(s, ops, id, limit);
    var e := Run(s, ops, id, limit);
    forall f | f in e.files ensures e.dir[Name(id, f)] == f.rows {
      var i :| 0 <= i < |e.files| && e.files[i] == f;
      forall j | i < j < |e.files| ensures Name(id, e.files[j]) != Name(id, e.files[i]) {
        NamesCollideIff(s, ops, id, limit, i, j);
      }
      assert IsLastNamed(e.files, id, i);
    }
  }
}
