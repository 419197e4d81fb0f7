/** The error-rate tracker behind the readiness and liveness probes
    (app/http/middleware/errorrate.go). Times are clock readings; the rate is exact. */
module ErrorRate {
  import opened Text

  datatype Event = Event(at: int, failure: bool)

  predicate IsFailureStatus(code: int) {
    500 <= code < 600
  }

  // ------------------------------------------------- the reference semantics

  function Failures(events: seq<Event>): nat {
    if events == [] then 0
    else Failures(events[..|events| - 1]) + if events[|events| - 1].failure then 1 else 0
  }

  /** The verdict on a set of responses: too few failures to count, or a low enough rate. */
  predicate Verdict(events: seq<Event>, rateThreshold: real, minFailures: int) {
    || events == []
    || Failures(events) < minFailures
    || Failures(events) as real / |events| as real <= rateThreshold
  }

  /** All events of a history newer than the window that ends now. */
  function Recent(history: seq<Event>, cutoff: int): seq<Event> {
    if history == [] then []
    else
      var last := history[|history| - 1];
      Recent(history[..|history| - 1], cutoff) + if last.at > cutoff then [last] else []
  }

  ghost predicate InOrder(events: seq<Event>) {
    forall i, j :: 0 <= i < j < |events| ==> events[i].at <= events[j].at
  }

  lemma {:induction false} RecentOfOld(events: seq<Event>, cutoff: int)
    requires forall j :: 0 <= j < |events| ==> events[j].at <= cutoff
    ensures Recent(events, cutoff) == []
  {
    if events != [] {
      RecentOfOld(events[..|events| - 1], cutoff);
    }
  }

  lemma {:induction false} RecentOfNew(events: seq<Event>, cutoff: int)
    requires forall j :: 0 <= j < |events| ==> events[j].at > cutoff
    ensures Recent(events, cutoff) == events
  {
    if events != [] {
      RecentOfNew(events[..|events| - 1], cutoff);
      assert events == events[..|events| - 1] + [events[|events| - 1]];
    }
  }

  lemma {:induction false} RecentConcat(a: seq<Event>, b: seq<Event>, cutoff: int)
    ensures Recent(a + b, cutoff) == Recent(a, cutoff) + Recent(b, cutoff)
  {
    if b == [] {
      assert a + b == a;
    } else {
      assert (a + b)[..|a + b| - 1] == a + b[..|b| - 1];
      RecentConcat(a, b[..|b| - 1], cutoff);
    }
  }

  // ------------------------------------------------------------ the tracker

  /** `events` is what the window that starts at `cutoff` has of the history. */
  ghost predicate IsWindow(events: seq<Event>, history: seq<Event>, cutoff: int) {
    events == Recent(history, cutoff)
  }

  ghost predicate UpTo(history: seq<Event>, now: int) {
    InOrder(history) && forall e :: e in history ==> e.at <= now
  }

  /** The first `k` events of the history are gone, all of them old. */
  ghost predicate PrunedAt(history: seq<Event>, events: seq<Event>, k: nat, cutoff: int) {
    k <= |history| && events == history[k..] && forall i :: 0 <= i < k ==> history[i].at <= cutoff
  }

  /** The latch is the last of the unhealthy evaluations. */
  ghost predicate LatchedAt(unhealthyAt: seq<int>, last: Option<int>, now: int) {
    && (last.None? <==> unhealthyAt == [])
    && (last.Some? ==>
          last.value in unhealthyAt && last.value <= now && forall u :: u in unhealthyAt ==> u <= last.value)
  }

  lemma PruneMore(history: seq<Event>, events: seq<Event>, k: nat, before: int, i: nat, cutoff: int)
    requires InOrder(history) && PrunedAt(history, events, k, before) && before <= cutoff
    requires i <= |events| && forall j :: 0 <= j < i ==> events[j].at <= cutoff
    requires i < |events| ==> events[i].at > cutoff
    ensures PrunedAt(history, events[i..], k + i, cutoff)
    ensures IsWindow(events[i..], history, cutoff)
  {
    assert forall j :: 0 <= j < |events| ==> events[j] == history[k + j];
    assert events[i..] == history[k + i..];
    forall j | 0 <= j < k + i ensures history[j].at <= cutoff {
      if j >= k { assert history[j] == events[j - k]; }
    }
    PrunedIsRecent(history, k + i, cutoff);
  }

  method FirstAfter(events: seq<Event>, cutoff: int) returns (i: nat)
    ensures i <= |events|
    ensures forall j :: 0 <= j < i ==> events[j].at <= cutoff
    ensures i < |events| ==> events[i].at > cutoff
  {
    i := 0;
    while i < |events|
      invariant i <= |events|
      invariant forall j :: 0 <= j < i ==> events[j].at <= cutoff
    {
      if events[i].at > cutoff {
        break;
      }
      i := i + 1;
    }
  }

  class Tracker {
    const window: int
    var events: seq<Event>
    var lastUnhealthyAt: Option<int>
    ghost var history: seq<Event>       // every event ever recorded
    ghost var pruned: nat               // how many of them have been pruned
    ghost var unhealthyAt: seq<int>     // every unhealthy evaluation ever made
    ghost var now: int                  // the last clock reading

    ghost predicate Valid()
      reads this
    {
      && UpTo(history, now)
      && PrunedAt(history, events, pruned, now - window)
      && LatchedAt(unhealthyAt, lastUnhealthyAt, now)
    }

    constructor (window: int, start: int)
      ensures Valid() && this.window == window && now == start
      ensures history == [] && unhealthyAt == []
    {
      this.window := window;
      events, lastUnhealthyAt := [], None;
      history, pruned, unhealthyAt, now := [], 0, [], start;
    }

    /** Drops events from the front until one is in the window. */
    method Prune(reading: int)
      requires Valid() && now <= reading
      modifies this`events, this`pruned, this`now
      ensures Valid() && now == reading
      ensures IsWindow(events, history, reading - window)
    {
      var was := events;
      ghost var gone := pruned;
      var i := FirstAfter(was, reading - window);
      PruneMore(history, was, gone, now - window, i, reading - window);
      ReadingsPass(history, unhealthyAt, lastUnhealthyAt, now, reading);
      events, pruned, now := was[i..], gone + i, reading;
    }

    method Record(statusCode: int, reading: int)
      requires Valid() && now <= reading
      modifies this
      ensures Valid() && now == reading
      ensures history == old(history) + [Event(reading, 500 <= statusCode < 600)]
      ensures unhealthyAt == old(unhealthyAt)
    {
      Prune(reading);
      var event := Event(reading, IsFailureStatus(statusCode));
      AppendEvent(history, events, pruned, now, reading - window, event);
      events := events + [event];
      history := history + [event];
    }

    method CountFailures() returns (failures: nat)
      ensures failures == Failures(events)
    {
      failures := 0;
      var i := 0;
      while i < |events|
        invariant i <= |events| && failures == Failures(events[..i])
      {
        assert events[..i + 1][..i] == events[..i];
        if events[i].failure {
          failures := failures + 1;
        }
        i := i + 1;
      }
      assert events[..i] == events;
    }

    method EvaluateLocked(rateThreshold: real, minFailures: int, reading: int) returns (healthy: bool)
      requires Valid() && now <= reading
      modifies this
      ensures Valid() && now == reading && history == old(history)
      ensures healthy == Verdict(Recent(history, reading - window), rateThreshold, minFailures)
      ensures unhealthyAt == if healthy then old(unhealthyAt) else old(unhealthyAt) + [reading]
    {
      Prune(reading);
      var total := |events|;
      if total == 0 {
        return true;
      }
      var failures := CountFailures();
      if failures < minFailures {
        return true;
      }
      if failures as real / total as real <= rateThreshold {
        return true;
      }
      LatchNow(unhealthyAt, lastUnhealthyAt, now);
      lastUnhealthyAt := Some(reading);
      unhealthyAt := unhealthyAt + [reading];
      healthy := false;
    }

    /** The verdict over everything recorded since the window's start, pruned or not. */
    method Healthy(rateThreshold: real, minFailures: int, reading: int) returns (healthy: bool)
      requires Valid() && now <= reading
      modifies this
      ensures Valid() && now == reading && history == old(history)
      ensures healthy == Verdict(Recent(history, reading - window), rateThreshold, minFailures)
      ensures unhealthyAt == if healthy then old(unhealthyAt) else old(unhealthyAt) + [reading]
    {
      healthy := EvaluateLocked(rateThreshold, minFailures, reading);
    }

    /** Healthy now, and every unhealthy evaluation ever made, by either method and
        with whatever parameters, is more than the cooldown ago. The clock is read
        again for the comparison. */
    method HealthyWithinCooldown(rateThreshold: real, minFailures: int, cooldown: int, reading: int, again: int)
      returns (healthy: bool)
      requires Valid() && now <= reading <= again
      modifies this
      ensures Valid() && now == again && history == old(history)
      ensures var verdict := Verdict(Recent(history, reading - window), rateThreshold, minFailures);
              && healthy == (verdict && forall u :: u in old(unhealthyAt) ==> again - u > cooldown)
              && unhealthyAt == if verdict then old(unhealthyAt) else old(unhealthyAt) + [reading]
    {
      var evaluation := EvaluateLocked(rateThreshold, minFailures, reading);
      TimePasses(history, events, pruned, now - window, again - window);
      CooledDown(unhealthyAt, lastUnhealthyAt, now, again, cooldown);
      now := again;
      if !evaluation {
        return false;
      }
      if lastUnhealthyAt.None? {
        return true;
      }
      healthy := again - lastUnhealthyAt.value > cooldown;
    }

    /** The middleware around one request: a panicking handler counts as a 500. */
    method ServeHTTP(response: Option<int>, reading: int)
      requires Valid() && now <= reading
      modifies this
      ensures Valid() && now == reading && unhealthyAt == old(unhealthyAt)
      ensures history == old(history) + [Event(reading, response == None || 500 <= response.value < 600)]
    {
      match response
      case None => Record(500, reading);
      case Some(status) => Record(status, reading);
    }
  }

  lemma ReadingsPass(history: seq<Event>, unhealthyAt: seq<int>, last: Option<int>, now: int, later: int)
    requires UpTo(history, now) && LatchedAt(unhealthyAt, last, now) && now <= later
    ensures UpTo(history, later) && LatchedAt(unhealthyAt, last, later)
  {
  }

  lemma TimePasses(history: seq<Event>, events: seq<Event>, k: nat, cutoff: int, later: int)
    requires PrunedAt(history, events, k, cutoff) && cutoff <= later
    ensures PrunedAt(history, events, k, later)
  {
  }

  /** Comparing with the last unhealthy evaluation compares with all of them. */
  lemma CooledDown(unhealthyAt: seq<int>, last: Option<int>, now: int, again: int, cooldown: int)
    requires LatchedAt(unhealthyAt, last, now) && now <= again
    ensures LatchedAt(unhealthyAt, last, again)
    ensures (last.None? || again - last.value > cooldown) <==> forall u :: u in unhealthyAt ==> again - u > cooldown
  {
  }

  lemma LatchNow(unhealthyAt: seq<int>, last: Option<int>, now: int)
    requires LatchedAt(unhealthyAt, last, now)
    ensures LatchedAt(unhealthyAt + [now], Some(now), now)
  {
  }

  lemma AppendEvent(history: seq<Event>, events: seq<Event>, k: nat, now: int, cutoff: int, e: Event)
    requires UpTo(history, now) && PrunedAt(history, events, k, cutoff) && e.at == now
    ensures UpTo(history + [e], now) && PrunedAt(history + [e], events + [e], k, cutoff)
  {
    assert (history + [e])[k..] == history[k..] + [e];
  }

  /** Pruning the front of an ordered history up to an event in the window keeps
      exactly the recent events. */
  lemma PrunedIsRecent(history: seq<Event>, k: nat, cutoff: int)
    requires InOrder(history) && k <= |history|
    requires forall i :: 0 <= i < k ==> history[i].at <= cutoff
    requires k < |history| ==> history[k].at > cutoff
    ensures Recent(history, cutoff) == history[k..]
  {
    assert history == history[..k] + history[k..];
    RecentConcat(history[..k], history[k..], cutoff);
    RecentOfOld(history[..k], cutoff);
    forall j | 0 <= j < |history[k..]| ensures history[k..][j].at > cutoff {
      assert history[k..][j] == history[k + j];
    }
    RecentOfNew(history[k..], cutoff);
    assert [] + history[k..] == history[k..];
  }

  // ---------------------------------------- what one more response can change

  lemma {:induction false} FailuresBounded(events: seq<Event>)
    ensures Failures(events) <= |events|
  {
    if events != [] {
      FailuresBounded(events[..|events| - 1]);
    }
  }

  lemma FailuresAppend(events: seq<Event>, e: Event)
    ensures Failures(events + [e]) == Failures(events) + if e.failure then 1 else 0
  {
    assert (events + [e])[..|events|] == events;
  }

  lemma CrossMultiply(a: int, b: int, t: real)
    requires b > 0
    ensures a as real / b as real <= t <==> a as real <= t * b as real
  {
    var q := a as real / b as real;
    assert q * b as real == a as real;
    if q <= t { assert q * b as real <= t * b as real; }
    if q > t { assert q * b as real > t * b as real; }
  }

  /** One more failure never turns an unhealthy verdict into a healthy one. */
  lemma FailureNeverHeals(events: seq<Event>, at: int, rateThreshold: real, minFailures: int)
    requires !Verdict(events, rateThreshold, minFailures)
    ensures !Verdict(events + [Event(at, true)], rateThreshold, minFailures)
  {
    var f, n := Failures(events), |events|;
    FailuresAppend(events, Event(at, true));
    FailuresBounded(events);
    CrossMultiply(f, n, rateThreshold);
    CrossMultiply(f + 1, n + 1, rateThreshold);
    OneMoreOfEach(f, n, rateThreshold);
  }

  lemma AtLeastOneTimes(t: real, n: nat)
    ensures t >= 1.0 ==> t * n as real >= n as real
  {
    assert t * n as real - n as real == (t - 1.0) * n as real;
  }

  lemma OneMoreOfEach(f: nat, n: nat, t: real)
    requires f <= n && f as real > t * n as real
    ensures (f + 1) as real > t * (n + 1) as real
  {
    AtLeastOneTimes(t, n);
    assert t * (n + 1) as real == t * n as real + t;
  }

  /** One more success turns a healthy verdict into an unhealthy one only when it is
      the first response in the window, no failures are needed, and even a rate of
      zero is too high. */
  lemma SuccessHarmsIff(events: seq<Event>, at: int, rateThreshold: real, minFailures: int)
    requires Verdict(events, rateThreshold, minFailures)
    ensures !Verdict(events + [Event(at, false)], rateThreshold, minFailures)
            <==> events == [] && minFailures <= 0 && rateThreshold < 0.0
  {
    var f, n := Failures(events), |events|;
    FailuresAppend(events, Event(at, false));
    CrossMultiply(f, n + 1, rateThreshold);
    if n > 0 {
      CrossMultiply(f, n, rateThreshold);
      assert rateThreshold * (n + 1) as real == rateThreshold * n as real + rateThreshold;
      assert rateThreshold < 0.0 ==> rateThreshold * n as real < 0.0;
    }
  }

  lemma FirstSuccessHarms(at: int)
    ensures Verdict([], -1.0, 0) && !Verdict([Event(at, false)], -1.0, 0)
  {
    assert [Event(at, false)][..0] == [];
  }

  // ------------------------------------------------ what the verdict counts

  /** How often an event is in the window: as often as in the history if it is newer than
      the window's start, and not at all otherwise. */
  lemma {:induction false} RecentIff(history: seq<Event>, cutoff: int, e: Event)
    ensures multiset(Recent(history, cutoff))[e] == if e.at > cutoff then multiset(history)[e] else 0
  {
    if history != [] {
      var front, last := history[..|history| - 1], history[|history| - 1];
      assert history == front + [last];
      RecentIff(front, cutoff, e);
    }
  }

  function FailureIndices(events: seq<Event>): set<nat> {
    set i: nat | i < |events| && events[i].failure
  }

  lemma {:induction false} FailuresAreCounted(events: seq<Event>)
    ensures Failures(events) == |FailureIndices(events)|
  {
    if events != [] {
      var n := |events| - 1;
      FailuresAreCounted(events[..n]);
      assert FailureIndices(events)
          == FailureIndices(events[..n]) + if events[n].failure then {n} else {};
    }
  }

  /** Unhealthy are just enough failures at too high a rate, taken without a division. */
  lemma UnhealthyIff(events: seq<Event>, rateThreshold: real, minFailures: int)
    ensures !Verdict(events, rateThreshold, minFailures) <==>
              && events != []
              && |FailureIndices(events)| >= minFailures
              && |FailureIndices(events)| as real > rateThreshold * |events| as real
  {
    FailuresAreCounted(events);
    if events != [] { CrossMultiply(Failures(events), |events|, rateThreshold); }
  }
}
