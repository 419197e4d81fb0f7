/** Webhook writes, flushes of the pusher and purges of the housekeeper, in any
    interleaving of their database and network calls. */
module RecordDelivery {
  import opened Text
  import opened Pusher
  import opened ResourceStore

  datatype Flusher = Waiting | Pushing(found: seq<Record>, done: nat)
  datatype Keeper = Resting | Purging(expired: set<string>)

  /** `pushed` and `accepted` are history: every (key, content) some successful
      request carried, and the content of the last write the store accepted per key. */
  datatype State = State(
    rows: Table, ids: set<string>, flusher: Flusher, keeper: Keeper,
    pushed: set<(string, string)>, accepted: map<string, string>)

  const INIT := State(map[], {}, Waiting, Resting, {}, map[])

  datatype Step =
    | Create(key: string, id: string, content: string, at: int)  // a handler that found no record
    | Write(key: string, id: string, content: string, at: int)   // a handler that found record `id`
    | FindUnsent(found: seq<Record>)
    | FindFails
    | Push(delivered: bool)
    | Mark(committed: bool, at: int)
    | FindExpired(cutoff: int)
    | Purge(committed: bool)

  ghost predicate Enabled(s: State, step: Step, limit: int) {
    match step
    case Create(_, id, _, _) => id !in s.ids
    case Write(key, id, _, _) => key in s.accepted && id in s.ids
    case FindUnsent(found) => s.flusher.Waiting? && ListsUnsent(s.rows, found)
    case FindFails => s.flusher.Waiting?
    case Push(_) => s.flusher.Pushing? && s.flusher.done < |Batches(s.flusher.found, limit)|
    case Mark(_, _) => s.flusher.Pushing? && s.flusher.done == |Batches(s.flusher.found, limit)|
    case FindExpired(_) => s.keeper.Resting?
    case Purge(_) => s.keeper.Purging?
  }

  function Contents(batch: seq<Record>): set<(string, string)> {
    set r | r in batch :: (r.key, r.content)
  }

  ghost function Next(s: State, step: Step, limit: int): State
    requires Enabled(s, step, limit)
  {
    match step
    case Create(key, id, content, at) =>
      s.(rows := Inserted(s.rows, key, id, content, at), ids := s.ids + {id}, accepted := s.accepted[key := content])
    case Write(key, id, content, at) =>
      s.(rows := Updated(s.rows, key, id, content, None, at), accepted := s.accepted[key := content])
    case FindUnsent(found) => s.(flusher := Pushing(found, 0))
    case FindFails => s
    case Push(delivered) =>
      if delivered then
        s.(pushed := s.pushed + Contents(Batches(s.flusher.found, limit)[s.flusher.done]),
           flusher := s.flusher.(done := s.flusher.done + 1))
      else s.(flusher := Waiting)
    case Mark(committed, at) =>
      s.(rows := if committed then Marked(s.rows, s.flusher.found, at) else s.rows, flusher := Waiting)
    case FindExpired(cutoff) => s.(keeper := Purging(ExpiredIds(s.rows, cutoff)))
    case Purge(committed) =>
      s.(rows := if committed then WithoutIds(s.rows, s.keeper.expired) else s.rows, keeper := Resting)
  }

  ghost predicate IsRun(s: State, steps: seq<Step>, limit: int)
    decreases |steps|
  {
    steps == [] || (Enabled(s, steps[0], limit) && IsRun(Next(s, steps[0], limit), steps[1..], limit))
  }

  ghost function After(s: State, steps: seq<Step>, limit: int): State
    requires IsRun(s, steps, limit)
    decreases |steps|
  {
    if steps == [] then s else After(Next(s, steps[0], limit), steps[1..], limit)
  }

  // ------------------------------------------------- what sent_at testifies

  /** A record with a sent_at has content that some successful request carried. */
  ghost predicate SentMeansPushed(s: State) {
    forall key :: key in s.rows && s.rows[key].sentAt.Some? ==> (key, s.rows[key].content) in s.pushed
  }

  ghost predicate IdsIdentify(s: State) {
    && s.rows.Keys <= s.accepted.Keys
    && (forall key :: key in s.rows ==> s.rows[key].id in s.ids)
    && (forall k, k' :: k in s.rows && k' in s.rows && s.rows[k].id == s.rows[k'].id ==> k == k')
    && (s.keeper.Purging? ==> s.keeper.expired <= s.ids)
  }

  ghost predicate FlusherKnows(s: State, limit: int) {
    s.flusher.Pushing? ==>
      var f := s.flusher;
      && f.done <= |Batches(f.found, limit)|
      && Contents(Flatten(Batches(f.found, limit)[..f.done])) <= s.pushed
      && (forall r, r' :: r in f.found && r' in f.found && r.key == r'.key ==> r.content == r'.content)
  }

  ghost predicate Inv(s: State, limit: int) {
    SentMeansPushed(s) && IdsIdentify(s) && FlusherKnows(s, limit)
  }

  lemma FoundArePushed(s: State, limit: int)
    requires FlusherKnows(s, limit) && s.flusher.Pushing?
    requires s.flusher.done == |Batches(s.flusher.found, limit)|
    ensures Contents(s.flusher.found) <= s.pushed
  {
    var all := Batches(s.flusher.found, limit);
    BatchesAreOptimal(s.flusher.found, limit);
    assert all[..|all|] == all;
  }

  lemma PushKeeps(s: State, limit: int)
    requires Inv(s, limit) && Enabled(s, Push(true), limit)
    ensures Inv(Next(s, Push(true), limit), limit)
  {
    var s' := Next(s, Push(true), limit);
    var all, done := Batches(s.flusher.found, limit), s.flusher.done;
    assert all[..done + 1] == all[..done] + [all[done]];
    FlattenConcat(all[..done], [all[done]]);
    assert Flatten([all[done]]) == all[done] + Flatten([all[done]][1..]) == all[done];
    assert Contents(Flatten(all[..done + 1])) == Contents(Flatten(all[..done])) + Contents(all[done]);
  }

  lemma MarkKeeps(s: State, limit: int, at: int)
    requires Inv(s, limit) && Enabled(s, Mark(true, at), limit)
    ensures Inv(Next(s, Mark(true, at), limit), limit)
  {
    var s' := Next(s, Mark(true, at), limit);
    FoundArePushed(s, limit);
    forall key | key in s.rows
      ensures s'.rows.Keys == s.rows.Keys && s'.rows[key].id == s.rows[key].id
      ensures s'.rows[key].sentAt.Some? ==> (key, s'.rows[key].content) in s.pushed
    {
      MarkedRow(s.rows, s.flusher.found, at, key);
      if s'.rows[key] != s.rows[key] {
        var r :| r in s.flusher.found && r.key == key && s'.rows[key].content == r.content;
        assert (r.key, r.content) in Contents(s.flusher.found);
      }
    }
    MarkedRow(s.rows, s.flusher.found, at, "");
  }

  lemma StepKeepsInv(s: State, step: Step, limit: int)
    requires Inv(s, limit) && Enabled(s, step, limit)
    ensures Inv(Next(s, step, limit), limit)
  {
    match step
    case Push(true) => PushKeeps(s, limit);
    case Mark(true, at) => MarkKeeps(s, limit, at);
    case FindUnsent(found) =>
      assert Batches(found, limit)[..0] == [];
    case _ =>
  }

  lemma {:induction false} RunKeepsInv(s: State, steps: seq<Step>, limit: int)
    requires Inv(s, limit) && IsRun(s, steps, limit)
    ensures Inv(After(s, steps, limit), limit)
    decreases |steps|
  {
    if steps != [] {
      StepKeepsInv(s, steps[0], limit);
      RunKeepsInv(Next(s, steps[0], limit), steps[1..], limit);
    }
  }

  /** In every run, however writes, requests, marks and purges interleave, a
      record with a sent_at holds content that was pushed. */
  lemma SentRecordsWerePushed(steps: seq<Step>, limit: int)
    requires IsRun(INIT, steps, limit)
    ensures SentMeansPushed(After(INIT, steps, limit))
  {
    RunKeepsInv(INIT, steps, limit);
  }

  /** A flush that fails at a request or at the transaction marks nothing: whatever
      else goes on until the next query, every record with a sent_at is one that had
      it before, unchanged. */
  lemma FailedFlushMarksNothing(s: State, step: Step, steps: seq<Step>, limit: int, key: string)
    requires step == Push(false) || (step.Mark? && !step.committed)
    requires Enabled(s, step, limit) && IsRun(Next(s, step, limit), steps, limit)
    requires forall k :: 0 <= k < |steps| ==> !steps[k].FindUnsent?
    ensures var rows := After(Next(s, step, limit), steps, limit).rows;
            key in rows && rows[key].sentAt.Some? ==> key in s.rows && s.rows[key] == rows[key]
  {
    NothingMarkedWithoutQuery(Next(s, step, limit), steps, limit, key);
  }

  lemma {:induction false} NothingMarkedWithoutQuery(s: State, steps: seq<Step>, limit: int, key: string)
    requires s.flusher.Waiting? && IsRun(s, steps, limit)
    requires forall k :: 0 <= k < |steps| ==> !steps[k].FindUnsent?
    ensures var rows := After(s, steps, limit).rows;
            key in rows && rows[key].sentAt.Some? ==> key in s.rows && s.rows[key] == rows[key]
    decreases |steps|
  {
    if steps != [] {
      assert !steps[0].FindUnsent?;
      assert forall k :: 0 <= k < |steps[1..]| ==> steps[1..][k] == steps[k + 1];
      NothingMarkedWithoutQuery(Next(s, steps[0], limit), steps[1..], limit, key);
    }
  }

  // ------------------------------------------------ what reaches the remote end

  /** The store is faithful to what it accepted: it holds the last accepted
      content of every key, and may hold it as sent, or no longer, only once pushed. */
  ghost predicate Faithful(s: State) {
    forall key :: key in s.accepted ==>
      if key in s.rows then s.rows[key].content == s.accepted[key]
      else (key, s.accepted[key]) in s.pushed
  }

  /** The conditions on the table under which a step cannot forget an accepted write. */
  ghost predicate RaceFree(s: State, step: Step) {
    match step
    case Create(key, _, content, _) =>
      key in s.rows ==> s.rows[key].content == content
    case Write(key, id, content, _) =>
      if key in s.rows then s.rows[key].id == id || s.rows[key].content == content
      else (key, content) in s.pushed
    case Mark(true, _) =>
      s.flusher.Pushing? ==>
        forall r :: r in s.flusher.found && Hits(s.rows, r.key, r.id) ==> s.rows[r.key].content == r.content
    case Purge(true) =>
      s.keeper.Purging? ==>
        forall key :: key in s.rows && s.rows[key].id in s.keeper.expired ==>
          s.rows[key].sentAt.Some? || (key, s.rows[key].content) in s.pushed
    case _ => true
  }

  lemma MarkIsFaithfulIff(s: State, at: int, limit: int)
    requires Inv(s, limit) && Faithful(s) && Enabled(s, Mark(true, at), limit)
    ensures Faithful(Next(s, Mark(true, at), limit)) <==> RaceFree(s, Mark(true, at))
  {
    var s' := Next(s, Mark(true, at), limit);
    var found := s.flusher.found;
    MarkedRow(s.rows, found, at, "");
    forall key | key in s.rows
      ensures s'.rows[key].content == s.rows[key].content
              <==> forall r :: r in found && r.key == key && r.id == s.rows[key].id ==> r.content == s.rows[key].content
    {
      MarkedRow(s.rows, found, at, key);
    }
    if RaceFree(s, Mark(true, at)) {
      forall key | key in s.rows ensures s'.rows[key].content == s.rows[key].content {
        forall r | r in found && r.key == key && r.id == s.rows[key].id
          ensures r.content == s.rows[key].content
        {
          assert Hits(s.rows, r.key, r.id);
        }
      }
    } else {
      var r :| r in found && Hits(s.rows, r.key, r.id) && s.rows[r.key].content != r.content;
      assert s'.rows[r.key].content != s.rows[r.key].content;
      assert r.key in s.accepted;
    }
  }

  lemma PurgeIsFaithfulIff(s: State, limit: int)
    requires Inv(s, limit) && Faithful(s) && Enabled(s, Purge(true), limit)
    ensures Faithful(Next(s, Purge(true), limit)) <==> RaceFree(s, Purge(true))
  {
    var s' := Next(s, Purge(true), limit);
    if !RaceFree(s, Purge(true)) {
      var key :| key in s.rows && s.rows[key].id in s.keeper.expired
                 && s.rows[key].sentAt == None && (key, s.rows[key].content) !in s.pushed;
      assert key in s.accepted && key !in s'.rows;
    }
  }

  /** Step by step, an accepted write is forgotten exactly when the table was
      changed between a query and the update or delete that relies on it. */
  lemma StepIsFaithfulIff(s: State, step: Step, limit: int)
    requires Inv(s, limit) && Faithful(s) && Enabled(s, step, limit)
    ensures Faithful(Next(s, step, limit)) <==> RaceFree(s, step)
  {
    match step
    case Mark(true, at) => MarkIsFaithfulIff(s, at, limit);
    case Purge(true) => PurgeIsFaithfulIff(s, limit);
    case Create(key, id, content, at) =>
      assert Next(s, step, limit).accepted[key] == content;
    case Write(key, id, content, at) =>
      assert Next(s, step, limit).accepted[key] == content;
    case _ =>
  }

  ghost predicate RaceFreeRun(s: State, steps: seq<Step>, limit: int)
    requires IsRun(s, steps, limit)
    decreases |steps|
  {
    steps == [] || (RaceFree(s, steps[0]) && RaceFreeRun(Next(s, steps[0], limit), steps[1..], limit))
  }

  lemma {:induction false} RaceFreeRunStaysFaithful(s: State, steps: seq<Step>, limit: int)
    requires Inv(s, limit) && Faithful(s) && IsRun(s, steps, limit) && RaceFreeRun(s, steps, limit)
    ensures Faithful(After(s, steps, limit))
    decreases |steps|
  {
    if steps != [] {
      StepKeepsInv(s, steps[0], limit);
      StepIsFaithfulIff(s, steps[0], limit);
      RaceFreeRunStaysFaithful(Next(s, steps[0], limit), steps[1..], limit);
    }
  }

  ghost predicate AlwaysFaithful(s: State, steps: seq<Step>, limit: int)
    requires IsRun(s, steps, limit)
    decreases |steps|
  {
    Faithful(s) && (steps == [] || AlwaysFaithful(Next(s, steps[0], limit), steps[1..], limit))
  }

  /** And a run is faithful throughout only without them. */
  lemma {:induction false} RunIsFaithfulIff(s: State, steps: seq<Step>, limit: int)
    requires Inv(s, limit) && Faithful(s) && IsRun(s, steps, limit)
    ensures AlwaysFaithful(s, steps, limit) <==> RaceFreeRun(s, steps, limit)
    decreases |steps|
  {
    if steps != [] {
      var t := Next(s, steps[0], limit);
      StepKeepsInv(s, steps[0], limit);
      StepIsFaithfulIff(s, steps[0], limit);
      if Faithful(t) {
        RunIsFaithfulIff(t, steps[1..], limit);
      }
    }
  }

  /** Without such races every accepted write is stored unsent, stored as sent
      and pushed, or purged and pushed. */
  lemma AcceptedWritesAreKeptOrPushed(steps: seq<Step>, limit: int, key: string)
    requires IsRun(INIT, steps, limit) && RaceFreeRun(INIT, steps, limit)
    requires key in After(INIT, steps, limit).accepted
    ensures var s := After(INIT, steps, limit);
            || (key, s.accepted[key]) in s.pushed
            || (key in s.rows && s.rows[key].sentAt == None && s.rows[key].content == s.accepted[key])
  {
    RunKeepsInv(INIT, steps, limit);
    RaceFreeRunStaysFaithful(INIT, steps, limit);
  }

  /** A purge that runs right after its own query deletes only what was pushed. */
  lemma AtomicPurgeDeletesOnlyPushed(s: State, cutoff: int, limit: int, key: string)
    requires Inv(s, limit) && s.keeper.Resting?
    requires key in s.rows
    ensures var s' := Next(Next(s, FindExpired(cutoff), limit), Purge(true), limit);
            key !in s'.rows ==> Expired(s.rows[key], cutoff) && (key, s.rows[key].content) in s.pushed
  {
    var ids := ExpiredIds(s.rows, cutoff);
    if s.rows[key].id in ids {
      var k :| k in s.rows && Expired(s.rows[k], cutoff) && s.rows[k].id == s.rows[key].id;
      assert k == key;
    }
  }

  /** Such a purge deletes exactly the records that were sent, created and last updated
      before the cutoff. */
  lemma AtomicPurgeDeletesIff(s: State, cutoff: int, limit: int, key: string)
    requires Inv(s, limit) && s.keeper.Resting? && key in s.rows
    ensures var s' := Next(Next(s, FindExpired(cutoff), limit), Purge(true), limit);
            var row := s.rows[key];
            && (key !in s'.rows <==>
                  row.sentAt.Some? && row.sentAt.value < cutoff && row.created < cutoff && row.updated < cutoff)
            && (key in s'.rows ==> s'.rows[key] == row)
  {
    var ids := ExpiredIds(s.rows, cutoff);
    var row := s.rows[key];
    if row.id in ids {
      var k :| k in s.rows && Expired(s.rows[k], cutoff) && s.rows[k].id == row.id;
      assert k == key;
    }
  }

  /** Every purge of the run directly follows its own query, none for a later cutoff. */
  predicate PurgesAreAtomic(steps: seq<Step>, cutoff: int)
    decreases |steps|
  {
    steps == [] ||
    match steps[0]
    case FindExpired(c) => c <= cutoff && |steps| > 1 && steps[1].Purge? && PurgesAreAtomic(steps[2..], cutoff)
    case Purge(_) => false
    case _ => PurgesAreAtomic(steps[1..], cutoff)
  }

  /** The record was created, last updated or sent at or after the cutoff. */
  predicate IsYoung(row: Row, cutoff: int) {
    row.created >= cutoff || row.updated >= cutoff || (row.sentAt.Some? && row.sentAt.value >= cutoff)
  }

  /** No step of the run deletes a record that is young, or unsent, at that step. */
  ghost predicate KeepsTheYoung(s: State, steps: seq<Step>, cutoff: int, limit: int)
    requires IsRun(s, steps, limit)
    decreases |steps|
  {
    steps == []
    || ((forall key :: key in s.rows && (s.rows[key].sentAt == None || IsYoung(s.rows[key], cutoff)) ==>
           key in Next(s, steps[0], limit).rows)
        && KeepsTheYoung(Next(s, steps[0], limit), steps[1..], cutoff, limit))
  }

  /** A step other than a purge deletes nothing. */
  lemma OnlyPurgesDelete(s: State, step: Step, limit: int, key: string)
    requires Enabled(s, step, limit) && !step.Purge? && key in s.rows
    ensures key in Next(s, step, limit).rows
  {
    if step.Mark? { MarkedRow(s.rows, s.flusher.found, step.at, key); }
  }

  /** Whatever else interleaves, with atomic purges no record is deleted that is unsent, or
      was sent, created or last updated at or after the cutoff. */
  lemma {:induction false} AtomicPurgesKeepTheYoung(s: State, steps: seq<Step>, cutoff: int, limit: int)
    requires Inv(s, limit) && s.keeper.Resting? && IsRun(s, steps, limit) && PurgesAreAtomic(steps, cutoff)
    ensures KeepsTheYoung(s, steps, cutoff, limit)
    decreases |steps|
  {
    if steps != [] {
      var t := Next(s, steps[0], limit);
      StepKeepsInv(s, steps[0], limit);
      forall key | key in s.rows ensures key in t.rows {
        OnlyPurgesDelete(s, steps[0], limit, key);
      }
      if steps[0].FindExpired? {
        assert steps[1..][0] == steps[1] && steps[1..][1..] == steps[2..];
        var u := Next(t, steps[1], limit);
        StepKeepsInv(t, steps[1], limit);
        forall key | key in t.rows && (t.rows[key].sentAt == None || IsYoung(t.rows[key], cutoff))
          ensures key in u.rows
        {
          AtomicPurgeDeletesIff(s, steps[0].cutoff, limit, key);
        }
        AtomicPurgesKeepTheYoung(u, steps[2..], cutoff, limit);
      } else {
        AtomicPurgesKeepTheYoung(t, steps[1..], cutoff, limit);
      }
    }
  }

  lemma RunCons(s: State, step: Step, tail: seq<Step>, limit: int)
    requires Enabled(s, step, limit) && IsRun(Next(s, step, limit), tail, limit)
    ensures IsRun(s, [step] + tail, limit)
    ensures After(s, [step] + tail, limit) == After(Next(s, step, limit), tail, limit)
  {
    assert ([step] + tail)[1..] == tail;
  }

  const OLD_RECORD := Record("1", "pod/a", "old", 9)

  /** A flush finds and pushes "old"; before it marks, a webhook stores "new". */
  const WRITE_DURING_FLUSH: seq<Step> :=
    [Create("pod/a", "1", "old", 0)] + ([FindUnsent([OLD_RECORD])] + ([Push(true)]
    + ([Write("pod/a", "1", "new", 4)] + ([Mark(true, 5)] + []))))

  /** Such a write is overwritten: the store shows the old content as sent, and
      the new content was neither kept nor pushed. */
  lemma WriteDuringFlushIsLost()
    ensures IsRun(INIT, WRITE_DURING_FLUSH, 100)
    ensures var s := After(INIT, WRITE_DURING_FLUSH, 100);
            && s.accepted == map["pod/a" := "new"]
            && s.rows == map["pod/a" := Row("1", "old", Some(5), 0, 5)]
            && s.pushed == {("pod/a", "old")}
  {
    var s1 := Next(INIT, Create("pod/a", "1", "old", 0), 100);
    FlushPushesOld(s1);
    var s2 := Next(s1, FindUnsent([OLD_RECORD]), 100);
    var s3 := Next(s2, Push(true), 100);
    var s4 := Next(s3, Write("pod/a", "1", "new", 4), 100);
    assert Marked(s4.rows, [OLD_RECORD], 5) == Updated(s4.rows, "pod/a", "1", "old", Some(5), 5) by {
      assert [OLD_RECORD][..0] == [];
    }
    var s5 := Next(s4, Mark(true, 5), 100);
    var steps4 := [Mark(true, 5)] + [];
    var steps3 := [Write("pod/a", "1", "new", 4)] + steps4;
    var steps2 := [Push(true)] + steps3;
    RunCons(s4, Mark(true, 5), [], 100);
    RunCons(s3, Write("pod/a", "1", "new", 4), steps4, 100);
    RunCons(s2, Push(true), steps3, 100);
    RunCons(s1, FindUnsent([OLD_RECORD]), steps2, 100);
    RunCons(INIT, Create("pod/a", "1", "old", 0), [FindUnsent([OLD_RECORD])] + steps2, 100);
  }

  lemma FlushPushesOld(s: State)
    requires s.rows == map["pod/a" := Row("1", "old", None, 0, 0)] && s.flusher == Waiting
    ensures ListsUnsent(s.rows, [OLD_RECORD])
    ensures Batches([OLD_RECORD], 100) == [[OLD_RECORD]]
    ensures Contents([OLD_RECORD]) == {("pod/a", "old")}
  {
    var r := OLD_RECORD;
    assert r in [r] && [r][1..] == [] && [] + [r] == [r];
    assert BatchesFrom([r], [], 100) == [[r]];
  }

  /** A write that lands between the housekeeper's query and its delete is deleted unsent. */
  lemma WriteDuringPurgeIsLost(s: State, key: string, content: string, at: int, cutoff: int, limit: int)
    requires Inv(s, limit) && s.keeper.Resting? && key in s.rows && Expired(s.rows[key], cutoff)
    requires (key, content) !in s.pushed
    ensures var s1 := Next(s, FindExpired(cutoff), limit);
            var write := Write(key, s.rows[key].id, content, at);
            && Enabled(s1, write, limit)
            && var s2 := Next(s1, write, limit);
               && Enabled(s2, Purge(true), limit)
               && var s3 := Next(s2, Purge(true), limit);
                  key in s3.accepted && s3.accepted[key] == content && key !in s3.rows && (key, content) !in s3.pushed
  {
    assert s.rows[key].id in ExpiredIds(s.rows, cutoff);
  }

  /** For instance: "old" is stored, pushed and marked, and found expired; before it
      is deleted a webhook stores "new". */
  const WRITE_DURING_PURGE: seq<Step> :=
    [Create("pod/a", "1", "old", 0)] + ([FindUnsent([OLD_RECORD])] + ([Push(true)] + ([Mark(true, 5)]
    + ([FindExpired(9)] + ([Write("pod/a", "1", "new", 10)] + ([Purge(true)] + []))))))

  lemma WriteDuringPurgeRun()
    ensures IsRun(INIT, WRITE_DURING_PURGE, 100)
    ensures var s := After(INIT, WRITE_DURING_PURGE, 100);
            && s.accepted == map["pod/a" := "new"]
            && s.rows == map[]
            && s.pushed == {("pod/a", "old")}
  {
    var s1 := Next(INIT, Create("pod/a", "1", "old", 0), 100);
    FlushPushesOld(s1);
    var s2 := Next(s1, FindUnsent([OLD_RECORD]), 100);
    var s3 := Next(s2, Push(true), 100);
    assert Marked(s3.rows, [OLD_RECORD], 5) == Updated(s3.rows, "pod/a", "1", "old", Some(5), 5) by {
      assert [OLD_RECORD][..0] == [];
    }
    var s4 := Next(s3, Mark(true, 5), 100);
    var tail4 := [FindExpired(9)] + ([Write("pod/a", "1", "new", 10)] + ([Purge(true)] + []));
    MarkedIsPurged(s4);
    RunCons(s3, Mark(true, 5), tail4, 100);
    var tail3 := [Mark(true, 5)] + tail4;
    RunCons(s2, Push(true), tail3, 100);
    RunCons(s1, FindUnsent([OLD_RECORD]), [Push(true)] + tail3, 100);
    RunCons(INIT, Create("pod/a", "1", "old", 0), [FindUnsent([OLD_RECORD])] + ([Push(true)] + tail3), 100);
  }

  lemma MarkedIsPurged(s: State)
    requires s.rows == map["pod/a" := Row("1", "old", Some(5), 0, 5)] && s.accepted == map["pod/a" := "old"]
    requires "1" in s.ids && s.keeper == Resting
    ensures var steps := [FindExpired(9)] + ([Write("pod/a", "1", "new", 10)] + ([Purge(true)] + []));
            && IsRun(s, steps, 100)
            && After(s, steps, 100) == s.(rows := map[], accepted := map["pod/a" := "new"])
  {
    var s1 := Next(s, FindExpired(9), 100);
    var s2 := Next(s1, Write("pod/a", "1", "new", 10), 100);
    assert Expired(s.rows["pod/a"], 9);
    assert "1" in ExpiredIds(s.rows, 9);
    var s3 := Next(s2, Purge(true), 100);
    RunCons(s2, Purge(true), [], 100);
    RunCons(s1, Write("pod/a", "1", "new", 10), [Purge(true)] + [], 100);
    RunCons(s, FindExpired(9), [Write("pod/a", "1", "new", 10)] + ([Purge(true)] + []), 100);
  }
}
