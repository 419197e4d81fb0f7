/** The metrics pusher: size-bounded batching of the unsent records, and the
    all-or-nothing marking of the ones it pushed (app/domain/pusher/pusher.go). */
module Pusher {
  import opened ResourceStore

  function Total(batch: seq<Record>): int {
    if batch == [] then 0 else batch[0].size + Total(batch[1..])
  }

  function Flatten(batches: seq<seq<Record>>): seq<Record> {
    if batches == [] then [] else batches[0] + Flatten(batches[1..])
  }

  lemma {:induction false} TotalConcat(a: seq<Record>, b: seq<Record>)
    ensures Total(a + b) == Total(a) + Total(b)
  {
    if a == [] {
      assert a + b == b;
    } else {
      assert (a + b)[1..] == a[1..] + b;
      TotalConcat(a[1..], b);
    }
  }

  lemma {:induction false} FlattenConcat(a: seq<seq<Record>>, b: seq<seq<Record>>)
    ensures Flatten(a + b) == Flatten(a) + Flatten(b)
  {
    if a == [] {
      assert a + b == b;
    } else {
      assert (a + b)[1..] == a[1..] + b;
      FlattenConcat(a[1..], b);
      assert a[0] + (Flatten(a[1..]) + Flatten(b)) == a[0] + Flatten(a[1..]) + Flatten(b);
    }
  }

  ghost predicate NonNegative(records: seq<Record>) {
    forall r :: r in records ==> r.size >= 0
  }

  lemma {:induction false} TotalNonNegative(batch: seq<Record>)
    requires NonNegative(batch)
    ensures Total(batch) >= 0
  {
    if batch != [] {
      assert batch[0] in batch;
      TotalNonNegative(batch[1..]);
    }
  }

  // ---------------------------------------------------------------- batching

  /** What the remote end may be sent in one request: something, and no more
      than `limit` bytes unless it is a single record. */
  ghost predicate FitsRequest(batch: seq<Record>, limit: int) {
    batch != [] && (|batch| == 1 || Total(batch) <= limit)
  }

  /** `batches` is an order-preserving division of `records` into requests. */
  ghost predicate IsDivision(batches: seq<seq<Record>>, records: seq<Record>, limit: int) {
    Flatten(batches) == records && forall b :: b in batches ==> FitsRequest(b, limit)
  }

  /** The batches made out of `batch`, still open, and the records behind it. */
  function BatchesFrom(batch: seq<Record>, found: seq<Record>, limit: int): seq<seq<Record>>
    decreases |found|
  {
    if found == [] then
      if batch == [] then [] else [batch]
    else if found[0].size + Total(batch) > limit && batch != [] then
      [batch] + BatchesFrom([found[0]], found[1..], limit)
    else
      BatchesFrom(batch + [found[0]], found[1..], limit)
  }

  function Batches(found: seq<Record>, limit: int): seq<seq<Record>> {
    BatchesFrom([], found, limit)
  }

  lemma {:induction false} BatchesFromDivide(batch: seq<Record>, found: seq<Record>, limit: int)
    requires batch != [] ==> FitsRequest(batch, limit)
    ensures IsDivision(BatchesFrom(batch, found, limit), batch + found, limit)
    decreases |found|
  {
    if found == [] {
      assert batch + found == batch;
      if batch != [] {
        assert Flatten([batch][1..]) == [];
        assert batch + [] == batch;
      }
    } else {
      var x, rest := found[0], found[1..];
      assert found == [x] + rest;
      if x.size + Total(batch) > limit && batch != [] {
        BatchesFromDivide([x], rest, limit);
        var tail := BatchesFrom([x], rest, limit);
        assert ([batch] + tail)[1..] == tail;
      } else {
        TotalConcat(batch, [x]);
        BatchesFromDivide(batch + [x], rest, limit);
        assert batch + [x] + rest == batch + found;
      }
    }
  }

  /** How many batches an open batch of `open` bytes and the records behind it make. */
  function Count(open: int, found: seq<Record>, limit: int): nat
    decreases |found|
  {
    if found == [] then 1
    else if found[0].size + open > limit then 1 + Count(found[0].size, found[1..], limit)
    else Count(open + found[0].size, found[1..], limit)
  }

  lemma {:induction false} CountIsLength(batch: seq<Record>, found: seq<Record>, limit: int)
    requires batch != []
    ensures |BatchesFrom(batch, found, limit)| == Count(Total(batch), found, limit)
    decreases |found|
  {
    if found != [] {
      var x := found[0];
      assert Total([x]) == x.size + Total([x][1..]);
      TotalConcat(batch, [x]);
      if x.size + Total(batch) > limit {
        CountIsLength([x], found[1..], limit);
      } else {
        CountIsLength(batch + [x], found[1..], limit);
      }
    }
  }

  /** A fuller open batch costs at most one batch more, and never fewer. */
  lemma {:induction false} FullerCostsAtMostOne(a: int, b: int, found: seq<Record>, limit: int)
    requires 0 <= a <= b
    requires NonNegative(found)
    ensures Count(a, found, limit) <= Count(b, found, limit) <= Count(a, found, limit) + 1
    decreases |found|
  {
    if found != [] {
      var x := found[0].size;
      assert found[0] in found;
      if x + b <= limit {
        FullerCostsAtMostOne(a + x, b + x, found[1..], limit);
      } else if x + a <= limit {
        FullerCostsAtMostOne(x, a + x, found[1..], limit);
      }
    }
  }

  lemma PrefixIsNoLarger(prefix: seq<Record>, batch: seq<Record>)
    requires prefix <= batch && NonNegative(batch)
    ensures Total(prefix) <= Total(batch)
  {
    var rest := batch[|prefix|..];
    assert batch == prefix + rest;
    TotalConcat(prefix, rest);
    TotalNonNegative(rest);
  }

  lemma NonNegativeParts(open: seq<Record>, found: seq<Record>)
    requires NonNegative(open + found) && found != []
    ensures NonNegative(open) && NonNegative(found) && NonNegative(found[1..])
    ensures found[0].size >= 0 && NonNegative([found[0]] + found[1..])
  {
    assert forall r :: r in open || r in found ==> r in open + found;
  }

  /** The division has closed the part `open`: its next part begins with the next record. */
  lemma NextPartStarts(open: seq<Record>, found: seq<Record>, parts: seq<seq<Record>>, limit: int)
    requires found != [] && parts != [] && parts[0] == open
    requires IsDivision(parts, open + found, limit)
    ensures IsDivision(parts[1..], [found[0]] + found[1..], limit)
    ensures |parts| > 1 && [found[0]] <= parts[1]
  {
    assert Flatten(parts) == parts[0] + Flatten(parts[1..]);
    assert Flatten(parts[1..]) == Flatten(parts)[|open|..] == found;
    assert [found[0]] + found[1..] == found;
    assert parts[1] in parts;
    assert Flatten(parts[1..]) == parts[1] + Flatten(parts[1..][1..]);
    assert parts[1][0] == found[0];
  }

  /** The division goes on with the part `open`: it takes the next record, within the limit. */
  lemma FirstPartGoesOn(open: seq<Record>, found: seq<Record>, parts: seq<seq<Record>>, limit: int)
    requires open != [] && found != [] && parts != [] && open <= parts[0] != open
    requires IsDivision(parts, open + found, limit) && NonNegative(open + found)
    ensures open + [found[0]] <= parts[0]
    ensures Total(open + [found[0]]) <= limit
  {
    var longer := open + [found[0]];
    assert Flatten(parts) == parts[0] + Flatten(parts[1..]);
    assert parts[0] == (open + found)[..|parts[0]|];
    assert parts[0][|open|] == found[0];
    assert longer == parts[0][..|longer|];
    assert parts[0] in parts;
    PrefixIsNoLarger(longer, parts[0]);
  }

  /** Greedy stays ahead: when some division of the records is still inside its
      first part, `open`, then a batch that holds no more than `open` needs no
      more batches for the rest than the division has parts. */
  lemma {:induction false} GreedyStaysAhead(
      held: int, open: seq<Record>, found: seq<Record>, parts: seq<seq<Record>>, limit: int)
    requires open != [] && NonNegative(open + found)
    requires 0 <= held <= Total(open)
    requires IsDivision(parts, open + found, limit)
    requires parts != [] && open <= parts[0]
    ensures Count(held, found, limit) <= |parts|
    decreases |found|
  {
    if found != [] {
      var x, rest := found[0], found[1..];
      NonNegativeParts(open, found);
      assert Total([x]) == x.size + Total([x][1..]);
      if parts[0] == open {
        NextPartStarts(open, found, parts, limit);
        GreedyStaysAhead(x.size, [x], rest, parts[1..], limit);
        FullerCostsAtMostOne(x.size, held + x.size, rest, limit);
      } else {
        FirstPartGoesOn(open, found, parts, limit);
        TotalConcat(open, [x]);
        assert open + found == open + [x] + rest;
        GreedyStaysAhead(held + x.size, open + [x], rest, parts, limit);
      }
    }
  }

  /** The pusher's batches divide the found records in order, and no division
      that keeps requests within the limit has fewer of them. */
  lemma BatchesAreOptimal(found: seq<Record>, limit: int)
    ensures IsDivision(Batches(found, limit), found, limit)
    ensures NonNegative(found) ==>
              forall parts :: IsDivision(parts, found, limit) ==> |Batches(found, limit)| <= |parts|
  {
    BatchesFromDivide([], found, limit);
    assert [] + found == found;
    if NonNegative(found) && found != [] {
      forall parts | IsDivision(parts, found, limit)
        ensures |Batches(found, limit)| <= |parts|
      {
        NoFewerParts(found, parts, limit);
      }
    }
  }

  lemma NoFewerParts(found: seq<Record>, parts: seq<seq<Record>>, limit: int)
    requires NonNegative(found) && found != [] && IsDivision(parts, found, limit)
    ensures |Batches(found, limit)| <= |parts|
  {
    var x, rest := found[0], found[1..];
    assert [x] + rest == found;
    assert x in found;
    assert parts[0] in parts;
    assert Flatten(parts)[0] == parts[0][0];
    assert Total([x]) == x.size + Total([x][1..]);
    GreedyStaysAhead(x.size, [x], rest, parts, limit);
    CountIsLength([x], rest, limit);
    assert [] + [x] == [x];
  }

  // ---------------------------------------------------------------- one flush

  /** One record more: the batch is closed before it, or takes it. */
  lemma OneMore(batch: seq<Record>, found: seq<Record>, limit: int)
    requires found != []
    ensures BatchesFrom(batch, found, limit)
            == if found[0].size + Total(batch) > limit && batch != []
               then [batch] + BatchesFrom([] + [found[0]], found[1..], limit)
               else BatchesFrom(batch + [found[0]], found[1..], limit)
    ensures Total(batch + [found[0]]) == Total(batch) + found[0].size
    ensures Total([] + [found[0]]) == found[0].size
  {
    var next := [found[0]];
    assert [] + next == next;
    TotalConcat(batch, next);
    assert Total(next) == found[0].size + Total(next[1..]);
  }

  /** The loop of a flush over the records found. `send` says how the k-th request
      turns out; `pushed` are the requests that got through, in order. */
  method PushBatches(stored: seq<Record>, limit: int, send: nat -> bool)
    returns (pushed: seq<seq<Record>>, completed: seq<Record>, ok: bool)
    ensures pushed <= Batches(stored, limit)
    ensures forall k: nat :: k < |pushed| ==> send(k)
    ensures |pushed| < |Batches(stored, limit)| ==> !send(|pushed|)
    ensures ok <==> |pushed| == |Batches(stored, limit)|
    ensures ok ==> completed == stored
  {
    pushed, completed, ok := [], [], false;
    var found := stored;
    var totalSize := 0;
    var batch: seq<Record> := [];
    assert stored[..0] == [];
    while |found| > 0
      invariant |completed| <= |stored|
      invariant completed == stored[..|completed|] && found == stored[|completed|..]
      invariant totalSize == Total(batch) && !ok
      invariant batch == [] ==> pushed == [] && completed == []
      invariant Batches(stored, limit) == pushed + BatchesFrom(batch, found, limit)
      invariant forall k: nat :: k < |pushed| ==> send(k)
      decreases |found|
    {
      var next := found[0];
      OneMore(batch, found, limit);
      found := found[1..];
      if next.size + totalSize > limit && |batch| > 0 {
        var sent := SendBatch(batch, send(|pushed|));
        if !sent {
          return;
        }
        pushed := pushed + [batch];
        batch, totalSize := [], 0;
      }
      completed := completed + [next];
      batch := batch + [next];
      totalSize := totalSize + next.size;
    }
    if |batch| > 0 {
      assert BatchesFrom(batch, found, limit) == [batch];
      var sent := SendBatch(batch, send(|pushed|));
      if !sent {
        return;
      }
      pushed := pushed + [batch];
    }
    ok := true;
  }

  /** How the calls one flush makes turn out: the query, the k-th request, the
      update of the k-th record inside the transaction, and its commit. */
  datatype Outcomes = Outcomes(find: bool, send: nat -> bool, update: nat -> bool, commit: bool)

  /** MetricsPusher.Flush at time `at`; `found` is what the query for unsent records returns. */
  method Flush(store: Store, found: seq<Record>, limit: int, at: int, out: Outcomes)
    returns (pushed: seq<seq<Record>>, ok: bool)
    modifies store
    ensures pushed <= if out.find then Batches(found, limit) else []
    ensures forall k: nat :: k < |pushed| ==> out.send(k)
    ensures out.find && |pushed| < |Batches(found, limit)| ==> !out.send(|pushed|)
    ensures ok <==> out.find && |pushed| == |Batches(found, limit)|
                    && (found == [] || (AllUpdated(found, out.update) && out.commit))
    ensures store.rows == if ok then Marked(old(store.rows), found, at) else old(store.rows)
  {
    pushed, ok := [], false;
    if !out.find {
      return;
    }
    var completed;
    pushed, completed, ok := PushBatches(found, limit, out.send);
    if ok && |completed| > 0 {
      ok := store.MarkSent(completed, at, out.update, out.commit);
    }
  }

  /** sendBatch: nothing is requested for an empty batch. */
  method SendBatch(batch: seq<Record>, delivered: bool) returns (ok: bool)
    ensures ok <==> batch == [] || delivered
  {
    if |batch| == 0 {
      return true;
    }
    return delivered;
  }

  /** A record with no sent_at left after a flush is one that will be found again;
      a flush that fails part way has pushed some records without marking any. */
  lemma PushedRecordsAreAPrefix(pushed: seq<seq<Record>>, stored: seq<Record>, limit: int)
    requires pushed <= Batches(stored, limit)
    ensures Flatten(pushed) <= stored
    ensures |pushed| == |Batches(stored, limit)| <==> Flatten(pushed) == stored
  {
    var all := Batches(stored, limit);
    var rest := all[|pushed|..];
    BatchesAreOptimal(stored, limit);
    assert all == pushed + rest;
    FlattenConcat(pushed, rest);
    if rest != [] {
      assert rest[0] in all;
      assert Flatten(rest) == rest[0] + Flatten(rest[1..]);
      assert |Flatten(rest)| > 0;
    } else {
      assert Flatten(rest) == [];
    }
  }
}
