/** Distributing metrics to all outputs, and writing them to a remote one in
    batches (app/functions/regurgitator/main.go). */
module FanOut {
  // ------------------------------------------------------------ the fan-out

  datatype Pc<T> = Selecting | Sending(item: T, k: nat) | Closing(k: nat) | Done

  /** `pending` is what the input channel holds; `sent` is history per output, and
      `closings` how often each output was closed. */
  datatype State<T> = State(
    pc: Pc<T>, cancelled: bool, inputClosed: bool, pending: seq<T>,
    consumed: seq<T>, sent: seq<seq<T>>, closings: seq<nat>)

  function Init<T>(n: nat): State<T> {
    State(Selecting, false, false, [], [], seq(n, _ => []), seq(n, _ => 0))
  }

  /** Produce, CloseInput and Cancel are the surroundings'; where both branches of
      a select are ready, either may be taken. */
  datatype Step<T> =
    | Produce(item: T) | CloseInput | Cancel
    | Consume | InputEnds | SeeCancelled
    | SendNext | ItemDone
    | CloseNext | Return

  predicate Enabled<T>(s: State<T>, step: Step<T>) {
    match step
    case Produce(_) => !s.inputClosed
    case CloseInput => !s.inputClosed
    case Cancel => true
    case Consume => s.pc.Selecting? && s.pending != []
    case InputEnds => s.pc.Selecting? && s.pending == [] && s.inputClosed
    case SeeCancelled => s.cancelled && (s.pc.Selecting? || (s.pc.Sending? && s.pc.k < |s.sent|))
    case SendNext => s.pc.Sending? && s.pc.k < |s.sent|
    case ItemDone => s.pc.Sending? && s.pc.k == |s.sent|
    case CloseNext => s.pc.Closing? && s.pc.k < |s.closings|
    case Return => s.pc.Closing? && s.pc.k == |s.closings|
  }

  function Next<T>(s: State<T>, step: Step<T>): State<T>
    requires Enabled(s, step)
  {
    match step
    case Produce(item) => s.(pending := s.pending + [item])
    case CloseInput => s.(inputClosed := true)
    case Cancel => s.(cancelled := true)
    case Consume =>
      s.(pc := Sending(s.pending[0], 0), pending := s.pending[1..], consumed := s.consumed + [s.pending[0]])
    case InputEnds => s.(pc := Closing(0))
    case SeeCancelled => s.(pc := Closing(0))
    case SendNext => s.(sent := s.sent[s.pc.k := s.sent[s.pc.k] + [s.pc.item]], pc := Sending(s.pc.item, s.pc.k + 1))
    case ItemDone => s.(pc := Selecting)
    case CloseNext => s.(closings := s.closings[s.pc.k := s.closings[s.pc.k] + 1], pc := Closing(s.pc.k + 1))
    case Return => s.(pc := Done)
  }

  predicate IsRun<T>(s: State<T>, steps: seq<Step<T>>)
    decreases |steps|
  {
    steps == [] || (Enabled(s, steps[0]) && IsRun(Next(s, steps[0]), steps[1..]))
  }

  function After<T>(s: State<T>, steps: seq<Step<T>>): State<T>
    requires IsRun(s, steps)
    decreases |steps|
  {
    if steps == [] then s else After(Next(s, steps[0]), steps[1..])
  }

  /** The items produced along a run, in order. */
  function Produced<T>(steps: seq<Step<T>>): seq<T> {
    if steps == [] then []
    else (if steps[0].Produce? then [steps[0].item] else []) + Produced(steps[1..])
  }

  /** The outputs before `k` have everything consumed, the others all but the last. */
  ghost predicate SplitAt<T>(s: State<T>, k: nat) {
    && k <= |s.sent|
    && (k < |s.sent| ==> s.consumed != [])
    && forall i :: 0 <= i < |s.sent| ==>
         s.sent[i] == if i < k then s.consumed else s.consumed[..|s.consumed| - 1]
  }

  /** How often output `i` should have been closed by now. */
  function ClosedBy<T>(pc: Pc<T>, i: nat): nat {
    match pc
    case Closing(k) => if i < k then 1 else 0
    case Done => 1
    case _ => 0
  }

  ghost predicate Inv<T>(s: State<T>, n: nat) {
    && |s.sent| == |s.closings| == n
    && (forall i: nat :: i < n ==> s.closings[i] == ClosedBy(s.pc, i))
    && (s.pc.Selecting? ==> SplitAt(s, n))
    && (s.pc.Sending? ==> s.consumed != [] && s.pc.item == s.consumed[|s.consumed| - 1] && SplitAt(s, s.pc.k))
    && (s.pc.Closing? || s.pc.Done? ==>
          if s.cancelled then exists k :: SplitAt(s, k)
          else SplitAt(s, n) && s.pending == [] && s.inputClosed)
    && (s.pc.Closing? ==> s.pc.k <= n)
  }

  lemma SendKeepsInv<T>(s: State<T>, n: nat)
    requires Inv(s, n) && Enabled(s, SendNext)
    ensures Inv(Next(s, SendNext), n)
  {
    var s', k := Next(s, SendNext), s.pc.k;
    assert s.consumed == s.consumed[..|s.consumed| - 1] + [s.pc.item];
    assert SplitAt(s', k + 1);
  }

  lemma CancelKeepsInv<T>(s: State<T>, n: nat, step: Step<T>)
    requires Inv(s, n) && Enabled(s, step) && (step.Cancel? || step.SeeCancelled?)
    ensures Inv(Next(s, step), n)
  {
    var s' := Next(s, step);
    if k :| SplitAt(s, k) {
      assert SplitAt(s', k);
    }
  }

  lemma StepKeepsInv<T>(s: State<T>, step: Step<T>, n: nat)
    requires Inv(s, n) && Enabled(s, step)
    ensures Inv(Next(s, step), n)
  {
    match step
    case SendNext => SendKeepsInv(s, n);
    case Cancel => CancelKeepsInv(s, n, step);
    case SeeCancelled => CancelKeepsInv(s, n, step);
    case Consume => ConsumeKeepsInv(s, n);
    case CloseNext => EndKeepsInv(s, n, step);
    case Return => EndKeepsInv(s, n, step);
    case InputEnds => EndKeepsInv(s, n, step);
    case ItemDone => EndKeepsInv(s, n, step);
    case _ => OutsideKeepsInv(s, n, step);
  }

  lemma ConsumeKeepsInv<T>(s: State<T>, n: nat)
    requires Inv(s, n) && Enabled(s, Consume)
    ensures Inv(Next(s, Consume), n)
  {
    var s' := Next(s, Consume);
    assert s'.consumed[..|s'.consumed| - 1] == s.consumed;
  }

  lemma EndKeepsInv<T>(s: State<T>, n: nat, step: Step<T>)
    requires Inv(s, n) && Enabled(s, step) && (step.CloseNext? || step.Return? || step.InputEnds? || step.ItemDone?)
    ensures Inv(Next(s, step), n)
  {
    if k :| SplitAt(s, k) {
      assert SplitAt(Next(s, step), k);
    }
  }

  lemma OutsideKeepsInv<T>(s: State<T>, n: nat, step: Step<T>)
    requires Inv(s, n) && Enabled(s, step) && (step.Produce? || step.CloseInput?)
    ensures Inv(Next(s, step), n)
  {
    if k :| SplitAt(s, k) {
      assert SplitAt(Next(s, step), k);
    }
  }

  lemma {:induction false} RunAccounts<T>(s: State<T>, steps: seq<Step<T>>, n: nat)
    requires Inv(s, n) && IsRun(s, steps)
    ensures var e := After(s, steps);
            Inv(e, n) && e.consumed + e.pending == s.consumed + s.pending + Produced(steps)
    decreases |steps|
  {
    if steps != [] {
      var m := Next(s, steps[0]);
      StepKeepsInv(s, steps[0], n);
      RunAccounts(m, steps[1..], n);
      StepAccounts(s, steps[0]);
      var head := if steps[0].Produce? then [steps[0].item] else [];
      assert s.consumed + s.pending + (head + Produced(steps[1..]))
          == s.consumed + s.pending + head + Produced(steps[1..]);
    }
  }

  lemma StepAccounts<T>(s: State<T>, step: Step<T>)
    requires Enabled(s, step)
    ensures var m := Next(s, step);
            m.consumed + m.pending == s.consumed + s.pending + if step.Produce? then [step.item] else []
  {
    if step.Consume? {
      assert s.pending == [s.pending[0]] + s.pending[1..];
    }
  }

  lemma InitHolds<T>(n: nat)
    ensures Inv(Init<T>(n), n)
  {
    assert SplitAt(Init<T>(n), n);
  }

  /** In every interleaving, with cancellation at any time: what is consumed is a
      prefix of what was produced; every output has received all of it but at most
      its last item, no later output being ahead of an earlier one; and no output
      is closed before the distribution has ended, nor twice. */
  lemma OutputsReceivePrefixes<T>(steps: seq<Step<T>>, n: nat, i: nat, j: nat)
    requires IsRun(Init(n), steps) && i <= j < n
    ensures var s := After(Init(n), steps);
            && |s.sent| == |s.closings| == n
            && s.consumed <= Produced(steps)
            && s.sent[j] <= s.sent[i] <= s.consumed
            && |s.consumed| <= |s.sent[j]| + 1
            && s.closings[j] <= s.closings[i] <= 1
            && (s.pc.Selecting? || s.pc.Sending? ==> s.closings[i] == 0)
            && (s.pc.Done? ==> s.closings[i] == 1)
  {
    var s := After(Init(n), steps);
    InitHolds<T>(n);
    RunAccounts(Init(n), steps, n);
    assert s.consumed + s.pending == [] + [] + Produced(steps) == Produced(steps);
    assert s.consumed == Produced(steps)[..|s.consumed|];
    InvOrders(s, n, i, j);
  }

  lemma InvOrders<T>(s: State<T>, n: nat, i: nat, j: nat)
    requires Inv(s, n) && i <= j < n
    ensures s.sent[j] <= s.sent[i] <= s.consumed && |s.consumed| <= |s.sent[j]| + 1
    ensures s.closings[j] <= s.closings[i] <= 1
    ensures s.pc.Selecting? || s.pc.Sending? ==> s.closings[i] == 0
    ensures s.pc.Done? ==> s.closings[i] == 1
  {
    var k :| SplitAt(s, k);
    var front := if s.consumed == [] then [] else s.consumed[..|s.consumed| - 1];
    assert front <= s.consumed;
  }

  /** Without cancellation every output has received the whole input when the
      fan-out returns, and is closed. */
  lemma UncancelledDeliversAll<T>(steps: seq<Step<T>>, n: nat, i: nat)
    requires IsRun(Init(n), steps) && i < n
    requires After(Init(n), steps).pc.Done? && !After(Init(n), steps).cancelled
    ensures var s := After(Init(n), steps);
            |s.sent| == |s.closings| == n && s.sent[i] == Produced(steps) && s.closings[i] == 1
  {
    var s := After(Init(n), steps);
    InitHolds<T>(n);
    RunAccounts(Init(n), steps, n);
    assert s.consumed + s.pending == s.consumed;
    assert s.consumed + s.pending == [] + [] + Produced(steps) == Produced(steps);
  }

  // ----------------------------------------------------- the remote writer

  const MAX_RETRIES := 10

  /** How one attempt of a flush turns out: cancelled before it, written, or failed
      and then possibly cancelled during the backoff. */
  datatype Attempt = CancelledBefore | Written | FailedThen(cancelled: bool)

  /** The attempt of a flush that gets through, if any. */
  function Delivers(attempt: nat -> Attempt, from: nat): bool
    decreases MAX_RETRIES - from
  {
    from < MAX_RETRIES &&
    match attempt(from)
    case CancelledBefore => false
    case Written => true
    case FailedThen(cancelled) => !cancelled && Delivers(attempt, from + 1)
  }

  /** That is, one of the ten attempts is written after others that all failed and were
      not followed by a cancellation. */
  lemma {:induction false} DeliversIff(attempt: nat -> Attempt, from: nat)
    requires from <= 10
    ensures Delivers(attempt, from) <==>
              exists k :: from <= k < 10 && attempt(k) == Written
                          && forall i :: from <= i < k ==> attempt(i) == FailedThen(false)
    decreases 10 - from
  {
    if from < 10 {
      DeliversIff(attempt, from + 1);
      if k :| from <= k < 10 && attempt(k) == Written && forall i :: from <= i < k ==> attempt(i) == FailedThen(false) {
        assert k > from ==> attempt(from) == FailedThen(false);
      }
    }
  }

  class RemoteWriter<T> {
    const batchSize: nat
    var batch: seq<T>
    ghost var written: seq<T>      // what successful requests carried, in order
    ghost var given: seq<T>        // every item given to WriteOne

    ghost predicate Valid()
      reads this
    {
      written + batch == given
    }

    constructor (batchSize: nat)
      ensures Valid() && given == [] && this.batchSize == batchSize
    {
      this.batchSize := batchSize;
      batch, written, given := [], [], [];
    }

    /** Sends the whole batch, or keeps the whole batch. */
    method Flush(attempt: nat -> Attempt) returns (ok: bool)
      requires Valid()
      modifies this
      ensures Valid() && given == old(given)
      ensures ok <==> old(batch) == [] || Delivers(attempt, 0)
      ensures batch == if ok then [] else old(batch)
      ensures written == if ok then given else old(written)
    {
      assert written + [] == written;
      if |batch| == 0 {
        return true;
      }
      var i := 0;
      while i < MAX_RETRIES
        invariant i <= MAX_RETRIES && Delivers(attempt, 0) == Delivers(attempt, i)
      {
        match attempt(i) {
          case CancelledBefore =>
            return false;
          case Written =>
            written := written + batch;
            batch := [];
            return true;
          case FailedThen(cancelled) =>
            if cancelled {
              return false;
            }
        }
        i := i + 1;
      }
      ok := false;
    }

    /** Below the batch size an item is only buffered; from it on, each call tries to
        send everything buffered, and an error means it is still buffered. */
    method WriteOne(item: T, attempt: nat -> Attempt) returns (ok: bool)
      requires Valid()
      modifies this
      ensures Valid() && given == old(given) + [item]
      ensures ok <==> |old(batch)| + 1 < batchSize || Delivers(attempt, 0)
      ensures if ok && |old(batch)| + 1 >= batchSize then batch == [] && written == given
              else batch == old(batch) + [item] && written == old(written)
    {
      batch := batch + [item];
      given := given + [item];
      assert written + batch == given;
      ok := true;
      if |batch| >= batchSize {
        ok := Flush(attempt);
      }
    }

    /** Closing without an error means everything ever given was written, in order. */
    method Close(attempt: nat -> Attempt) returns (ok: bool)
      requires Valid()
      modifies this
      ensures Valid() && given == old(given)
      ensures ok ==> written == given
      ensures ok <==> old(written) == given || Delivers(attempt, 0)
    {
      ok := Flush(attempt);
    }
  }
}
