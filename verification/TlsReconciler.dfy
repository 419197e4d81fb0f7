/** Reloading of the TLS certificate and root CA pool while connections read them
    (app/domain/monitor/tls_monitor.go). */
module TlsReconciler {
  import opened Text

  function Reverse<T>(s: seq<T>): seq<T> {
    if s == [] then [] else [s[|s| - 1]] + Reverse(s[..|s| - 1])
  }

  /** The newest `limit` of everything ever supplied, newest first. */
  function Newest<T>(supplied: seq<T>, limit: nat): seq<T> {
    var r := Reverse(supplied);
    if |r| <= limit then r else r[..limit]
  }

  lemma {:induction false} ReverseAt<T>(s: seq<T>)
    ensures |Reverse(s)| == |s|
    ensures forall k :: 0 <= k < |s| ==> Reverse(s)[k] == s[|s| - 1 - k]
  {
    if s != [] {
      ReverseAt(s[..|s| - 1]);
    }
  }

  /** The limit keeps that many roots, or all there ever were, and position k of
      the list is the k-th last root supplied. */
  lemma NewestAt<T>(supplied: seq<T>, limit: nat, k: nat)
    ensures |Newest(supplied, limit)| == if |supplied| <= limit then |supplied| else limit
    ensures k < |Newest(supplied, limit)| ==> Newest(supplied, limit)[k] == supplied[|supplied| - 1 - k]
  {
    ReverseAt(supplied);
  }

  lemma NewestAppend<T>(supplied: seq<T>, limit: nat, ca: T)
    ensures var pushed := [ca] + Newest(supplied, limit);
            Newest(supplied + [ca], limit) == if |pushed| > limit then pushed[..|pushed| - 1] else pushed
  {
    assert (supplied + [ca])[..|supplied|] == supplied;
    assert Reverse(supplied + [ca]) == [ca] + Reverse(supplied);
    ReverseAt(supplied);
  }

  /** Pushing roots to the front of the list, one by one, each time dropping what exceeds the limit. */
  function Pushed<T>(ll: seq<T>, roots: seq<T>, limit: nat): seq<T>
    decreases |roots|
  {
    if roots == [] then ll
    else
      var longer := [roots[|roots| - 1]] + Pushed(ll, roots[..|roots| - 1], limit);
      if |longer| > limit then longer[..|longer| - 1] else longer
  }

  lemma {:induction false} PushedIsNewest<T>(supplied: seq<T>, roots: seq<T>, limit: nat)
    ensures Pushed(Newest(supplied, limit), roots, limit) == Newest(supplied + roots, limit)
    decreases |roots|
  {
    if roots == [] {
      assert supplied + roots == supplied;
    } else {
      var front, last := roots[..|roots| - 1], roots[|roots| - 1];
      PushedIsNewest(supplied, front, limit);
      NewestOfLonger(supplied, roots, limit);
    }
  }

  lemma NewestOfLonger<T>(supplied: seq<T>, roots: seq<T>, limit: nat)
    requires roots != []
    ensures var pushed := [roots[|roots| - 1]] + Newest(supplied + roots[..|roots| - 1], limit);
            Newest(supplied + roots, limit) == if |pushed| > limit then pushed[..|pushed| - 1] else pushed
  {
    var front, last := roots[..|roots| - 1], roots[|roots| - 1];
    NewestAppend(supplied + front, limit, last);
    assert supplied + roots == supplied + front + [last];
  }

  /** What a call to the provider returns. */
  datatype Provided<Cert, Root> = Failed | Certificates(cert: Cert, roots: seq<Root>)

  /** The reconciler of one TLS configuration, and the part of a call to
      certificates that runs inside the single flight. */
  class Reconciler<Cert, Root> {
    const rootsLimit: nat
    var ll: seq<Root>                     // the linked list, front first
    var pool: Option<seq<Root>>           // the roots the stored pool was built from
    var cert: Option<Cert>
    var reloading: bool
    ghost var supplied: seq<Root>         // every root of every successful reload, in order

    ghost predicate Valid()
      reads this
    {
      && ll == Newest(supplied, rootsLimit)
      && pool == if supplied == [] then None else Some(ll)
    }

    constructor (rootsLimit: nat)
      ensures Valid() && supplied == [] && cert == None && !reloading && this.rootsLimit == rootsLimit
    {
      this.rootsLimit := rootsLimit;
      ll, pool, cert, reloading, supplied := [], None, None, false, [];
    }

    method PushRoots(roots: seq<Root>)
      requires Valid()
      modifies this`ll, this`supplied
      ensures supplied == old(supplied) + roots
      ensures ll == Pushed(old(ll), roots, rootsLimit) == Newest(supplied, rootsLimit)
    {
      var i := 0;
      PushedIsNewest(supplied, roots, rootsLimit);
      while i < |roots|
        invariant i <= |roots| && supplied == old(supplied)
        invariant ll == Pushed(old(ll), roots[..i], rootsLimit)
      {
        assert roots[..i + 1][..i] == roots[..i];
        ll := [roots[i]] + ll;
        if |ll| > rootsLimit {
          ll := ll[..|ll| - 1];
        }
        i := i + 1;
      }
      assert roots[..i] == roots;
      supplied := supplied + roots;
    }

    /** One reload: the list is the newest roots ever supplied, the pool is built
        from it, and a failed call changes neither but leaves the flag up. */
    method Reload(provided: Provided<Cert, Root>) returns (ok: bool)
      requires Valid()
      modifies this
      ensures Valid()
      ensures ok == provided.Certificates?
      ensures ok ==> supplied == old(supplied) + provided.roots && cert == Some(provided.cert)
      ensures !ok ==> supplied == old(supplied) && ll == old(ll) && pool == old(pool) && cert == old(cert)
      ensures reloading == !ok
    {
      reloading := true;
      if provided.Failed? {
        return false;
      }
      if |provided.roots| > 0 {
        PushRoots(provided.roots);
        var poolToUpdate: seq<Root> := [];
        var e := 0;
        while e < |ll|
          invariant e <= |ll| && poolToUpdate == ll[..e]
        {
          poolToUpdate := poolToUpdate + [ll[e]];
          e := e + 1;
        }
        assert ll[..e] == ll;
        pool := Some(poolToUpdate);
      }
      cert := Some(provided.cert);
      reloading := false;
      ok := true;
    }
  }

  // -------------------------------------------------- concurrent callers

  /** A root certificate in its encoded form. */
  type Root = string

  /** All roots of some reloads, in the order they were supplied in. */
  function AllRoots(provided: seq<seq<Root>>): seq<Root>
    decreases |provided|
  {
    if provided == [] then [] else AllRoots(provided[..|provided| - 1]) + provided[|provided| - 1]
  }

  /** The pool built after those reloads: none until roots were supplied. */
  function PoolAfter(provided: seq<seq<Root>>, limit: nat): Option<seq<Root>> {
    if AllRoots(provided) == [] then None else Some(Newest(AllRoots(provided), limit))
  }

  /** Where a caller of certificates stands. */
  datatype Caller =
    | Entering
    | SawFlag                              // found it up, about to wait
    | Waiting
    | Checked                              // found it down
    | Flagged                              // raised it
    | Joined(number: nat)                  // waits for that flight of another caller
    | Calling                              // inside the single flight, calling the provider
    // has generation `gen`, with roots or not, and has stored the pool or not
    | Flying(gen: nat, rooted: bool, pooled: bool)
    | Stored                               // has stored both
    | Lowered                              // has lowered the flag
    | Landing                              // has broadcast, still inside the flight
    | LoadingCert
    | LoadingPool(cert: nat)
    | Returned(cert: nat, pool: nat, roots: Option<seq<Root>>)

  /** `cert` and `pool` are the generations of the stored certificate and pool, 0 if
      none; `rooted` are the generations that supplied roots; `flight` is the caller
      inside the single flight, and `flights` how many there have been. `stored` is the
      pool itself, built from the list `ll`, and `provided` the roots of every reload. */
  datatype State = State(
    reloading: bool, cert: nat, pool: nat, last: nat, rooted: set<nat>,
    flight: Option<nat>, flights: nat, callers: map<nat, Caller>,
    limit: nat, ll: seq<Root>, stored: Option<seq<Root>>, provided: seq<seq<Root>>)

  function Starting(limit: nat): State {
    State(false, 0, 0, 0, {}, None, 0, map[], limit, [], None, [])
  }

  datatype Step =
    | Enter(t: nat)
    | Check(t: nat)
    | Wait(t: nat)
    | Decide(t: nat, reload: bool)            // needReload
    | Fly(t: nat)
    | Join(t: nat)
    | Provide(t: nat, answer: Option<seq<Root>>)  // an error, or the roots
    | StorePool(t: nat)
    | StoreCert(t: nat)
    | Lower(t: nat)
    | Broadcast(t: nat)
    | Land(t: nat)
    | Resume(t: nat)                          // once the flight joined is over
    | LoadCert(t: nat)
    | LoadPool(t: nat)

  predicate At(s: State, t: nat, c: Caller) {
    t in s.callers && s.callers[t] == c
  }

  predicate Enabled(s: State, step: Step) {
    match step
    case Enter(t) => t !in s.callers
    case Check(t) => At(s, t, Entering)
    case Wait(t) => At(s, t, SawFlag)
    case Decide(t, _) => At(s, t, Checked)
    case Fly(t) => At(s, t, Flagged) && s.flight == None
    case Join(t) => At(s, t, Flagged) && s.flight.Some?
    case Provide(t, _) => At(s, t, Calling)
    case StorePool(t) =>
      t in s.callers && s.callers[t].Flying? && s.callers[t].rooted && !s.callers[t].pooled
    case StoreCert(t) => t in s.callers && s.callers[t].Flying? && (s.callers[t].rooted ==> s.callers[t].pooled)
    case Lower(t) => At(s, t, Stored)
    case Broadcast(t) => At(s, t, Lowered)
    case Land(t) => At(s, t, Landing)
    case Resume(t) =>
      t in s.callers && s.callers[t].Joined? && (s.flight == None || s.callers[t].number < s.flights)
    case LoadCert(t) => At(s, t, LoadingCert)
    case LoadPool(t) => t in s.callers && s.callers[t].LoadingPool?
  }

  /** A broadcast sends the callers that wait at that moment back to the check. */
  function Woken(callers: map<nat, Caller>): map<nat, Caller> {
    map t | t in callers :: if callers[t] == Waiting then Entering else callers[t]
  }

  function Move(s: State, t: nat, c: Caller): State {
    s.(callers := s.callers[t := c])
  }

  function Next(s: State, step: Step): State
    requires Enabled(s, step)
  {
    match step
    case Enter(t) => Move(s, t, Entering)
    case Check(t) => Move(s, t, if s.reloading then SawFlag else Checked)
    case Wait(t) => Move(s, t, Waiting)
    case Decide(t, reload) => if reload then Move(s, t, Flagged).(reloading := true) else Move(s, t, LoadingCert)
    case Fly(t) => Move(s, t, Calling).(flight := Some(t), flights := s.flights + 1)
    case Join(t) => Move(s, t, Joined(s.flights))
    case Provide(t, None) => Move(s, t, LoadingCert).(flight := None)
    case Provide(t, Some(roots)) =>
      var gen := s.last + 1;
      Move(s, t, Flying(gen, roots != [], false)).(
        last := gen, rooted := if roots != [] then s.rooted + {gen} else s.rooted, provided := s.provided + [roots])
    case StorePool(t) =>
      var ll := Pushed(s.ll, if s.provided == [] then [] else s.provided[|s.provided| - 1], s.limit);
      Move(s, t, s.callers[t].(pooled := true)).(pool := s.callers[t].gen, ll := ll, stored := Some(ll))
    case StoreCert(t) => Move(s, t, Stored).(cert := s.callers[t].gen)
    case Lower(t) => Move(s, t, Lowered).(reloading := false)
    case Broadcast(t) => Move(s.(callers := Woken(s.callers)), t, Landing)
    case Land(t) => Move(s, t, LoadingCert).(flight := None)
    case Resume(t) => Move(s, t, LoadingCert)
    case LoadCert(t) => Move(s, t, LoadingPool(s.cert))
    case LoadPool(t) => Move(s, t, Returned(s.callers[t].cert, s.pool, s.stored))
  }

  predicate IsRun(s: State, steps: seq<Step>)
    decreases |steps|
  {
    steps == [] || (Enabled(s, steps[0]) && IsRun(Next(s, steps[0]), steps[1..]))
  }

  function After(s: State, steps: seq<Step>): State
    requires IsRun(s, steps)
    decreases |steps|
  {
    if steps == [] then s else After(Next(s, steps[0]), steps[1..])
  }

  // ------------------------------------------- what a connection is given

  /** A pool of generation `pool` has the roots of every reload up to `cert` that had any. */
  ghost predicate PoolCovers(rooted: set<nat>, pool: nat, cert: nat) {
    forall g :: g in rooted && g <= cert ==> g <= pool
  }

  predicate InFlight(c: Caller) {
    c.Calling? || c.Flying? || c.Stored? || c.Lowered? || c.Landing?
  }

  /** The single flight, and what the caller inside it has stored so far. */
  ghost predicate FlightHolds(s: State) {
    && (forall t :: t in s.callers && InFlight(s.callers[t]) ==> s.flight == Some(t))
    && (s.flight.Some? ==> s.flight.value in s.callers && InFlight(s.callers[s.flight.value]))
    && s.cert <= s.last && s.pool <= s.last
    && (forall g :: g in s.rooted ==> 0 < g <= s.last)
    && (if s.flight.Some? && s.callers[s.flight.value].Flying? then
          var c := s.callers[s.flight.value];
          c.gen == s.last == s.cert + 1 && (c.rooted <==> c.gen in s.rooted) && (c.pooled ==> s.pool == c.gen)
        else s.cert == s.last)
  }

  ghost predicate ReaderHolds(s: State, c: Caller) {
    match c
    case LoadingPool(cert) => cert <= s.last && PoolCovers(s.rooted, s.pool, cert)
    case Returned(cert, pool, _) => cert <= s.last && PoolCovers(s.rooted, pool, cert)
    case _ => true
  }

  ghost predicate Inv(s: State) {
    && FlightHolds(s) && PoolCovers(s.rooted, s.pool, s.cert)
    && forall t :: t in s.callers ==> ReaderHolds(s, s.callers[t])
  }

  lemma ProvideKeepsInv(s: State, t: nat, answer: Option<seq<Root>>)
    requires Inv(s) && Enabled(s, Provide(t, answer))
    ensures Inv(Next(s, Provide(t, answer)))
  {
    var s' := Next(s, Provide(t, answer));
    assert s.flight == Some(t);
    assert FlightHolds(s');
    assert forall u :: u in s'.callers && u != t ==> ReaderHolds(s, s.callers[u]) && s'.callers[u] == s.callers[u];
  }

  lemma StoreKeepsInv(s: State, step: Step)
    requires Inv(s) && Enabled(s, step) && (step.StorePool? || step.StoreCert?)
    ensures Inv(Next(s, step))
  {
    var s' := Next(s, step);
    assert s.flight == Some(step.t);
    assert FlightHolds(s');
    assert forall u :: u in s'.callers && u != step.t ==> ReaderHolds(s, s.callers[u]) && s'.callers[u] == s.callers[u];
  }

  lemma ReadKeepsInv(s: State, step: Step)
    requires Inv(s) && Enabled(s, step) && (step.LoadCert? || step.LoadPool?)
    ensures Inv(Next(s, step))
  {
    var s' := Next(s, step);
    assert ReaderHolds(s, s.callers[step.t]);
    assert FlightHolds(s');
  }

  lemma MoveOutsideKeepsInv(s: State, t: nat, c: Caller, reloading: bool)
    requires Inv(s) && (t in s.callers ==> !InFlight(s.callers[t]))
    requires !InFlight(c) && !c.LoadingPool? && !c.Returned?
    ensures Inv(Move(s, t, c).(reloading := reloading))
  {
    var s' := Move(s, t, c).(reloading := reloading);
    assert FlightHolds(s');
    forall u | u in s'.callers && u != t ensures ReaderHolds(s', s'.callers[u]) {
      assert ReaderHolds(s, s.callers[u]);
    }
  }

  /** Steps of callers outside the flight. */
  lemma OutsideStepKeepsInv(s: State, step: Step)
    requires Inv(s) && Enabled(s, step)
    requires step.Enter? || step.Check? || step.Wait? || step.Decide? || step.Join? || step.Resume?
    ensures Inv(Next(s, step))
  {
    MoveOutsideKeepsInv(s, step.t, Next(s, step).callers[step.t], Next(s, step).reloading);
  }

  /** Steps of the caller that enters, lowers the flag in or leaves the flight. */
  lemma InsideStepKeepsInv(s: State, step: Step)
    requires Inv(s) && Enabled(s, step)
    requires step.Fly? || step.Lower? || step.Land?
    ensures Inv(Next(s, step))
  {
    var s', t := Next(s, step), step.t;
    assert forall u :: u in s'.callers && u != t ==> u in s.callers && s'.callers[u] == s.callers[u];
    assert step.Fly? || s.flight == Some(t);
    assert FlightHolds(s');
    forall u | u in s'.callers && u != t ensures ReaderHolds(s', s'.callers[u]) {
      assert ReaderHolds(s, s.callers[u]);
    }
  }

  lemma BroadcastKeepsInv(s: State, t: nat)
    requires Inv(s) && Enabled(s, Broadcast(t))
    ensures Inv(Next(s, Broadcast(t)))
  {
    var s' := Next(s, Broadcast(t));
    assert s.flight == Some(t);
    forall u | u in s'.callers && u != t
      ensures InFlight(s'.callers[u]) == InFlight(s.callers[u]) && ReaderHolds(s', s'.callers[u])
    {
      assert ReaderHolds(s, s.callers[u]);
    }
    assert FlightHolds(s');
  }

  lemma StepKeepsInv(s: State, step: Step)
    requires Inv(s) && Enabled(s, step)
    ensures Inv(Next(s, step))
  {
    match step
    case Provide(t, answer) => ProvideKeepsInv(s, t, answer);
    case StorePool(_) => StoreKeepsInv(s, step);
    case StoreCert(_) => StoreKeepsInv(s, step);
    case LoadCert(_) => ReadKeepsInv(s, step);
    case LoadPool(_) => ReadKeepsInv(s, step);
    case Broadcast(t) => BroadcastKeepsInv(s, t);
    case Fly(_) => InsideStepKeepsInv(s, step);
    case Lower(_) => InsideStepKeepsInv(s, step);
    case Land(_) => InsideStepKeepsInv(s, step);
    case _ => OutsideStepKeepsInv(s, step);
  }

  // --------------------------------------------------- the roots in the pool

  /** How many reloads the list takes account of: all but one whose pool is still to be stored. */
  ghost function Listed(s: State): nat
    requires FlightHolds(s)
  {
    if s.flight.Some? && s.callers[s.flight.value].Flying? && s.callers[s.flight.value].rooted
       && !s.callers[s.flight.value].pooled
    then s.last - 1 else s.last
  }

  ghost predicate RootedAre(rooted: set<nat>, provided: seq<seq<Root>>) {
    forall k :: 0 <= k < |provided| ==> (k + 1 in rooted <==> provided[k] != [])
  }

  /** The pool of generation `pool` is what the reloads up to it make. */
  ghost predicate IsPoolOf(roots: Option<seq<Root>>, pool: nat, provided: seq<seq<Root>>, limit: nat) {
    pool <= |provided| && roots == PoolAfter(provided[..pool], limit)
  }

  ghost predicate ReturnedPools(callers: map<nat, Caller>, provided: seq<seq<Root>>, limit: nat) {
    forall t :: t in callers && callers[t].Returned? ==> IsPoolOf(callers[t].roots, callers[t].pool, provided, limit)
  }

  ghost predicate IsListOf(ll: seq<Root>, n: nat, provided: seq<seq<Root>>, limit: nat) {
    n <= |provided| && ll == Newest(AllRoots(provided[..n]), limit)
  }

  /** `ll` is the list of the first `n` reloads, and all pools are those of some reloads. */
  ghost predicate RootsAre(
      provided: seq<seq<Root>>, rooted: set<nat>, n: int, ll: seq<Root>, stored: Option<seq<Root>>, pool: nat,
      callers: map<nat, Caller>, limit: nat)
  {
    && RootedAre(rooted, provided)
    && 0 <= n && IsListOf(ll, n, provided, limit)
    && IsPoolOf(stored, pool, provided, limit)
    && ReturnedPools(callers, provided, limit)
  }

  ghost predicate RootsHold(s: State)
    requires FlightHolds(s)
  {
    && |s.provided| == s.last
    && RootsAre(s.provided, s.rooted, Listed(s), s.ll, s.stored, s.pool, s.callers, s.limit)
  }

  lemma PoolStays(roots: Option<seq<Root>>, pool: nat, provided: seq<seq<Root>>, more: seq<Root>, limit: nat)
    requires IsPoolOf(roots, pool, provided, limit)
    ensures IsPoolOf(roots, pool, provided + [more], limit)
  {
    assert (provided + [more])[..pool] == provided[..pool];
  }

  lemma ReturnedPoolsStay(callers: map<nat, Caller>, provided: seq<seq<Root>>, more: seq<Root>, limit: nat)
    requires ReturnedPools(callers, provided, limit)
    ensures ReturnedPools(callers, provided + [more], limit)
  {
    forall t | t in callers && callers[t].Returned?
      ensures IsPoolOf(callers[t].roots, callers[t].pool, provided + [more], limit)
    {
      PoolStays(callers[t].roots, callers[t].pool, provided, more, limit);
    }
  }

  lemma ReturnedPoolsMove(callers: map<nat, Caller>, t: nat, c: Caller, provided: seq<seq<Root>>, limit: nat)
    requires ReturnedPools(callers, provided, limit)
    requires c.Returned? ==> IsPoolOf(c.roots, c.pool, provided, limit)
    ensures ReturnedPools(callers[t := c], provided, limit)
    ensures ReturnedPools(Woken(callers), provided, limit)
  {
  }

  lemma ListStays(ll: seq<Root>, n: nat, provided: seq<seq<Root>>, more: seq<Root>, limit: nat)
    requires IsListOf(ll, n, provided, limit)
    ensures IsListOf(ll, n, provided + [more], limit)
    ensures more == [] && n == |provided| ==> IsListOf(ll, n + 1, provided + [more], limit)
  {
    assert (provided + [more])[..n] == provided[..n];
    if more == [] && n == |provided| {
      RootlessAddNothing(provided + [more], n, n + 1);
    }
  }

  lemma RootsMove(
      provided: seq<seq<Root>>, rooted: set<nat>, n: int, ll: seq<Root>, stored: Option<seq<Root>>, pool: nat,
      callers: map<nat, Caller>, limit: nat, t: nat, c: Caller)
    requires RootsAre(provided, rooted, n, ll, stored, pool, callers, limit)
    requires c.Returned? ==> c.roots == stored && c.pool == pool
    ensures RootsAre(provided, rooted, n, ll, stored, pool, callers[t := c], limit)
    ensures RootsAre(provided, rooted, n, ll, stored, pool, Woken(callers), limit)
  {
    ReturnedPoolsMove(callers, t, c, provided, limit);
  }

  lemma RootsProvided(
      provided: seq<seq<Root>>, rooted: set<nat>, ll: seq<Root>, stored: Option<seq<Root>>, pool: nat,
      callers: map<nat, Caller>, limit: nat, roots: seq<Root>)
    requires RootsAre(provided, rooted, |provided|, ll, stored, pool, callers, limit) && |provided| + 1 !in rooted
    ensures RootsAre(
              provided + [roots], if roots != [] then rooted + {|provided| + 1} else rooted,
              if roots == [] then |provided| + 1 else |provided|, ll, stored, pool, callers, limit)
  {
    ReturnedPoolsStay(callers, provided, roots, limit);
    PoolStays(stored, pool, provided, roots, limit);
    ListStays(ll, |provided|, provided, roots, limit);
    RootedNext(rooted, provided, roots);
  }

  lemma RootedNext(rooted: set<nat>, provided: seq<seq<Root>>, more: seq<Root>)
    requires RootedAre(rooted, provided) && |provided| + 1 !in rooted
    ensures RootedAre(if more != [] then rooted + {|provided| + 1} else rooted, provided + [more])
  {
  }

  lemma ProvideLists(s: State, t: nat, roots: seq<Root>)
    requires Inv(s) && Enabled(s, Provide(t, Some(roots))) && Inv(Next(s, Provide(t, Some(roots))))
    ensures Listed(s) == s.last
    ensures Listed(Next(s, Provide(t, Some(roots)))) == if roots == [] then s.last + 1 else s.last
    ensures s.last + 1 !in s.rooted
  {
    assert s.flight == Some(t);
  }

  lemma ProvideKeepsRoots(s: State, t: nat, roots: seq<Root>)
    requires Inv(s) && RootsHold(s) && Enabled(s, Provide(t, Some(roots))) && Inv(Next(s, Provide(t, Some(roots))))
    ensures RootsHold(Next(s, Provide(t, Some(roots))))
  {
    var s' := Next(s, Provide(t, Some(roots)));
    ProvideLists(s, t, roots);
    RootsMove(s.provided, s.rooted, s.last, s.ll, s.stored, s.pool, s.callers, s.limit, t, s'.callers[t]);
    RootsProvided(s.provided, s.rooted, s.ll, s.stored, s.pool, s'.callers, s.limit, roots);
  }

  lemma PushKeepsList(ll: seq<Root>, provided: seq<seq<Root>>, limit: nat)
    requires provided != [] && provided[|provided| - 1] != []
    requires IsListOf(ll, |provided| - 1, provided, limit)
    ensures var pushed := Pushed(ll, provided[|provided| - 1], limit);
            IsListOf(pushed, |provided|, provided, limit) && IsPoolOf(Some(pushed), |provided|, provided, limit)
  {
    var n := |provided| - 1;
    assert provided[..n + 1] == provided;
    PushedIsNewest(AllRoots(provided[..n]), provided[n], limit);
    assert AllRoots(provided) == AllRoots(provided[..n]) + provided[n];
  }

  lemma StorePoolKeepsRoots(s: State, t: nat)
    requires Inv(s) && RootsHold(s) && Enabled(s, StorePool(t)) && Inv(Next(s, StorePool(t)))
    ensures RootsHold(Next(s, StorePool(t)))
  {
    var s' := Next(s, StorePool(t));
    assert s.flight == Some(t) && Listed(s) == s.last - 1 && Listed(s') == s.last;
    assert s.callers[t].gen in s.rooted && s.provided[s.last - 1] != [];
    PushKeepsList(s.ll, s.provided, s.limit);
    ReturnedPoolsMove(s.callers, t, s'.callers[t], s.provided, s.limit);
  }

  lemma ListedStays(s: State, step: Step)
    requires Inv(s) && Enabled(s, step) && Inv(Next(s, step))
    requires step.Provide? ==> step.answer == None
    requires !step.StorePool?
    ensures Listed(Next(s, step)) == Listed(s)
  {
  }

  /** How the other steps change the callers. */
  lemma CallersMove(s: State, step: Step)
    requires Enabled(s, step)
    requires step.Provide? ==> step.answer == None
    requires !step.StorePool?
    ensures var s' := Next(s, step);
            && step.t in s'.callers
            && s'.callers == (if step.Broadcast? then Woken(s.callers) else s.callers)[step.t := s'.callers[step.t]]
            && (s'.callers[step.t].Returned? ==>
                  s'.callers[step.t].roots == s.stored && s'.callers[step.t].pool == s.pool)
            && s'.provided == s.provided && s'.rooted == s.rooted && s'.last == s.last && s'.limit == s.limit
            && s'.ll == s.ll && s'.stored == s.stored && s'.pool == s.pool
  {
  }

  lemma OtherStepKeepsRoots(s: State, step: Step)
    requires Inv(s) && RootsHold(s) && Enabled(s, step) && Inv(Next(s, step))
    requires step.Provide? ==> step.answer == None
    requires !step.StorePool?
    ensures RootsHold(Next(s, step))
  {
    ListedStays(s, step);
    CallersMove(s, step);
    var n, c := Listed(s), Next(s, step).callers[step.t];
    RootsMove(s.provided, s.rooted, n, s.ll, s.stored, s.pool, s.callers, s.limit, step.t, c);
    RootsMove(s.provided, s.rooted, n, s.ll, s.stored, s.pool, Woken(s.callers), s.limit, step.t, c);
  }

  lemma StepKeepsRoots(s: State, step: Step)
    requires Inv(s) && RootsHold(s) && Enabled(s, step) && Inv(Next(s, step))
    ensures RootsHold(Next(s, step)) && Next(s, step).limit == s.limit
  {
    match step
    case Provide(t, Some(roots)) => ProvideKeepsRoots(s, t, roots);
    case StorePool(t) => StorePoolKeepsRoots(s, t);
    case _ => OtherStepKeepsRoots(s, step);
  }

  /** Everything that holds in every run. */
  ghost predicate FullInv(s: State) {
    Inv(s) && RootsHold(s)
  }

  lemma {:induction false} RunKeepsRoots(s: State, steps: seq<Step>)
    requires FullInv(s) && IsRun(s, steps)
    ensures FullInv(After(s, steps)) && After(s, steps).limit == s.limit
    decreases |steps|
  {
    if steps != [] {
      StepKeepsInv(s, steps[0]);
      StepKeepsRoots(s, steps[0]);
      RunKeepsRoots(Next(s, steps[0]), steps[1..]);
    }
  }

  /** Reloads without roots do not change what the pool would be. */
  lemma {:induction false} RootlessAddNothing(provided: seq<seq<Root>>, k: nat, n: nat)
    requires k <= n <= |provided|
    requires forall i :: k <= i < n ==> provided[i] == []
    ensures AllRoots(provided[..n]) == AllRoots(provided[..k])
    decreases n
  {
    if k < n {
      RootlessAddNothing(provided, k, n - 1);
      assert provided[..n][..n - 1] == provided[..n - 1];
      assert provided[n - 1] == [];
    }
  }

  /** In every interleaving of any number of callers, the pool a caller is given is, for
      some number of reloads not smaller than its certificate's, just what those reloads
      make: the newest roots of theirs up to the limit, newest first, and none if they
      supplied none. The pool is stored before the certificate and read after it. */
  lemma PoolNeverLagsCertificate(steps: seq<Step>, limit: nat, t: nat)
    requires IsRun(Starting(limit), steps)
    requires t in After(Starting(limit), steps).callers && After(Starting(limit), steps).callers[t].Returned?
    ensures var s := After(Starting(limit), steps);
            var c := s.callers[t];
            |s.provided| == s.last
            && exists g: nat :: c.cert <= g <= s.last && c.roots == PoolAfter(s.provided[..g], limit)
  {
    assert Starting(limit).provided[..0] == [];
    RunKeepsRoots(Starting(limit), steps);
    var s := After(Starting(limit), steps);
    var c := s.callers[t];
    assert ReaderHolds(s, c) && IsPoolOf(c.roots, c.pool, s.provided, limit);
    if c.pool < c.cert {
      forall i | c.pool <= i < c.cert ensures s.provided[i] == [] {
        assert i + 1 !in s.rooted;
      }
      RootlessAddNothing(s.provided, c.pool, c.cert);
      assert c.roots == PoolAfter(s.provided[..c.cert], limit);
    } else {
      assert c.roots == PoolAfter(s.provided[..c.pool], limit);
    }
  }

  lemma {:induction false} AllRootsSplit(provided: seq<seq<Root>>, k: nat)
    requires k <= |provided|
    ensures AllRoots(provided) == AllRoots(provided[..k]) + AllRoots(provided[k..])
    decreases |provided|
  {
    var n := |provided|;
    if k == n {
      assert provided[..k] == provided && provided[k..] == [];
    } else {
      AllRootsSplit(provided[..n - 1], k);
      assert provided[..n - 1][..k] == provided[..k];
      assert provided[k..][..n - 1 - k] == provided[..n - 1][k..];
    }
  }

  /** The pool of `g` reloads begins, newest first, with all roots from reload `c` on,
      exactly when those fit the limit. */
  lemma RootsFromAreInPoolIff(provided: seq<seq<Root>>, c: nat, limit: nat)
    requires 0 < c <= |provided|
    ensures var from := AllRoots(provided[c - 1..]);
            Reverse(from) <= Newest(AllRoots(provided), limit) <==> |from| <= limit
  {
    AllRootsSplit(provided, c - 1);
    SuffixIsNewestIff(AllRoots(provided[..c - 1]), AllRoots(provided[c - 1..]), limit);
  }

  lemma SuffixIsNewestIff(before: seq<Root>, from: seq<Root>, limit: nat)
    ensures Reverse(from) <= Newest(before + from, limit) <==> |from| <= limit
  {
    ReverseConcat(before, from);
    ReverseAt(from);
    PrefixOfTakeIff(Reverse(from), Reverse(before), limit);
  }

  lemma {:induction false} ReverseConcat<T>(a: seq<T>, b: seq<T>)
    ensures Reverse(a + b) == Reverse(b) + Reverse(a)
    decreases |b|
  {
    if b == [] {
      assert a + b == a;
    } else {
      assert (a + b)[..|a + b| - 1] == a + b[..|b| - 1];
      ReverseConcat(a, b[..|b| - 1]);
    }
  }

  lemma PrefixOfTakeIff<T>(a: seq<T>, b: seq<T>, limit: nat)
    ensures (a <= if |a + b| <= limit then a + b else (a + b)[..limit]) <==> |a| <= limit
  {
  }

  /** A root that occurs only once among those supplied is in the pool exactly when it
      and everything supplied behind it fit the limit. */
  lemma RootIsInPoolIff(before: seq<Root>, root: Root, behind: seq<Root>, limit: nat)
    requires root !in before && root !in behind
    ensures root in Newest(before + [root] + behind, limit) <==> 1 + |behind| <= limit
  {
    var all := before + [root] + behind;
    ReverseAt(all);
    var newest := Newest(all, limit);
    NewestAt(all, limit, |behind|);
    if root in newest {
      var k :| 0 <= k < |newest| && newest[k] == root;
      NewestAt(all, limit, k);
      assert all[|all| - 1 - k] == root;
      assert |all| - 1 - k == |before|;
    }
  }

  // ------------------------------------------- how recent what is returned is

  /** Whatever `t` has read of certificate and pool is at least of these generations. */
  predicate ReadsAtLeast(s: State, t: nat, cert: nat, pool: nat) {
    && cert <= s.cert && pool <= s.pool
    && (t in s.callers ==>
          match s.callers[t]
          case LoadingPool(c) => cert <= c <= s.cert
          case Returned(c, p, _) => cert <= c <= s.cert && pool <= p <= s.pool
          case _ => true)
  }

  lemma StepReadsAtLeast(s: State, step: Step, t: nat, cert: nat, pool: nat)
    requires Inv(s) && Enabled(s, step) && ReadsAtLeast(s, t, cert, pool)
    ensures ReadsAtLeast(Next(s, step), t, cert, pool)
  {
    if step.StorePool? || step.StoreCert? {
      StoreReadsAtLeast(s, step, t, cert, pool);
    } else if t in s.callers || step.t == t {
      CallerReadsAtLeast(s, step, t, cert, pool);
    }
  }

  /** What is stored only gets newer. */
  lemma StoreReadsAtLeast(s: State, step: Step, t: nat, cert: nat, pool: nat)
    requires Inv(s) && Enabled(s, step) && ReadsAtLeast(s, t, cert, pool) && (step.StorePool? || step.StoreCert?)
    ensures ReadsAtLeast(Next(s, step), t, cert, pool)
  {
    assert s.flight == Some(step.t);
    assert s.callers[step.t].gen == s.last && s.cert <= s.last && s.pool <= s.last;
  }

  lemma CallerReadsAtLeast(s: State, step: Step, t: nat, cert: nat, pool: nat)
    requires Enabled(s, step) && ReadsAtLeast(s, t, cert, pool) && !step.StorePool? && !step.StoreCert?
    ensures ReadsAtLeast(Next(s, step), t, cert, pool)
  {
  }

  lemma {:induction false} RunReadsAtLeast(s: State, steps: seq<Step>, t: nat, cert: nat, pool: nat)
    requires Inv(s) && IsRun(s, steps) && ReadsAtLeast(s, t, cert, pool)
    ensures Inv(After(s, steps)) && ReadsAtLeast(After(s, steps), t, cert, pool)
    decreases |steps|
  {
    if steps != [] {
      StepKeepsInv(s, steps[0]);
      StepReadsAtLeast(s, steps[0], t, cert, pool);
      RunReadsAtLeast(Next(s, steps[0]), steps[1..], t, cert, pool);
    }
  }

  /** A caller that has not read them yet is given a certificate and a pool not older than
      those stored now, and not newer than those stored by the time it has them. */
  lemma ReturnsWhatIsStored(s: State, steps: seq<Step>, t: nat)
    requires Inv(s) && IsRun(s, steps)
    requires t in s.callers ==> !s.callers[t].LoadingPool? && !s.callers[t].Returned?
    requires t in After(s, steps).callers && After(s, steps).callers[t].Returned?
    ensures var e := After(s, steps);
            s.cert <= e.callers[t].cert <= e.cert && s.pool <= e.callers[t].pool <= e.pool
  {
    RunReadsAtLeast(s, steps, t, s.cert, s.pool);
  }

  /** Inside the flight, holding generation `gen`. */
  predicate Carries(s: State, u: nat, gen: nat) {
    u in s.callers && s.callers[u].Flying? && s.callers[u].gen == gen
  }

  /** The caller reloads to generation `gen` itself or waits for the flight that does, or
      that generation is stored and it has read nothing older. */
  predicate IsDue(s: State, t: nat, gen: nat) {
    || Carries(s, t, gen)
    || (At(s, t, Joined(s.flights)) && s.flight.Some? && Carries(s, s.flight.value, gen))
    || ReadsAtLeast(s, t, gen, 0)
  }

  lemma StepKeepsDue(s: State, step: Step, t: nat, gen: nat)
    requires Inv(s) && Enabled(s, step) && IsDue(s, t, gen)
    ensures IsDue(Next(s, step), t, gen)
  {
    if ReadsAtLeast(s, t, gen, 0) {
      StepReadsAtLeast(s, step, t, gen, 0);
    } else if Carries(s, t, gen) {
      assert s.flight == Some(t);
    } else {
      assert s.flight.Some? && Carries(s, s.flight.value, gen);
    }
  }

  lemma {:induction false} RunKeepsDue(s: State, steps: seq<Step>, t: nat, gen: nat)
    requires Inv(s) && IsRun(s, steps) && IsDue(s, t, gen)
    ensures IsDue(After(s, steps), t, gen)
    decreases |steps|
  {
    if steps != [] {
      StepKeepsInv(s, steps[0]);
      StepKeepsDue(s, steps[0], t, gen);
      RunKeepsDue(Next(s, steps[0]), steps[1..], t, gen);
    }
  }

  /** Who reloads, and who waits for that reload, is not given an older certificate than
      the one reloaded. */
  lemma ReloaderIsGivenItsReload(s: State, steps: seq<Step>, t: nat, gen: nat)
    requires Inv(s) && IsRun(s, steps)
    requires Carries(s, t, gen)
             || (At(s, t, Joined(s.flights)) && s.flight.Some? && Carries(s, s.flight.value, gen))
    requires t in After(s, steps).callers && After(s, steps).callers[t].Returned?
    ensures After(s, steps).callers[t].cert >= gen
  {
    RunKeepsDue(s, steps, t, gen);
  }

  // ------------------------------------------------------ the reloading flag

  /** A caller between finding the flag down and lowering it. */
  predicate Live(c: Caller) {
    c.Checked? || c.Flagged? || c.Calling? || c.Flying? || c.Stored?
  }

  ghost predicate CanLower(s: State) {
    exists steps :: IsRun(s, steps) && !After(s, steps).reloading
  }

  /** The flag is up, and no caller is left that would lower it. */
  ghost predicate Frozen(s: State) {
    s.reloading && forall t :: t in s.callers ==> !Live(s.callers[t])
  }

  predicate Blocked(s: State, t: nat) {
    t in s.callers ==> s.callers[t].Entering? || s.callers[t].SawFlag? || s.callers[t].Waiting?
  }

  /** Once frozen, always frozen: whoever has not passed the check yet never will. */
  lemma {:induction false} FrozenForever(s: State, steps: seq<Step>, t: nat)
    requires Frozen(s) && IsRun(s, steps)
    ensures Frozen(After(s, steps))
    ensures Blocked(s, t) ==> Blocked(After(s, steps), t)
    decreases |steps|
  {
    if steps != [] {
      FrozenForever(Next(s, steps[0]), steps[1..], t);
    }
  }

  /** Caller `t` has just lowered the flag and is about to broadcast. */
  predicate HasLowered(s: State, t: nat) {
    At(s, t, Lowered) && !s.reloading
  }

  ghost predicate Lowers(s: State) {
    exists steps, t :: IsRun(s, steps) && HasLowered(After(s, steps), t)
  }

  lemma LowersLater(s: State, step: Step)
    requires Enabled(s, step) && Lowers(Next(s, step))
    ensures Lowers(s)
  {
    var tail, t :| IsRun(Next(s, step), tail) && HasLowered(After(Next(s, step), tail), t);
    RunCons(s, step, tail);
    assert HasLowered(After(s, [step] + tail), t);
  }

  lemma StoredLowers(s: State, t: nat)
    requires At(s, t, Stored)
    ensures Lowers(s)
  {
    var s' := Next(s, Lower(t));
    assert IsRun(s', []) && HasLowered(After(s', []), t);
    LowersLater(s, Lower(t));
  }

  lemma FlyingLowers(s: State, t: nat)
    requires t in s.callers && s.callers[t].Flying?
    ensures Lowers(s)
  {
    var c := s.callers[t];
    if c.rooted && !c.pooled {
      var s' := Next(s, StorePool(t));
      StoredLowers(Next(s', StoreCert(t)), t);
      LowersLater(s', StoreCert(t));
      LowersLater(s, StorePool(t));
    } else {
      StoredLowers(Next(s, StoreCert(t)), t);
      LowersLater(s, StoreCert(t));
    }
  }

  lemma CallingLowers(s: State, t: nat)
    requires At(s, t, Calling)
    ensures Lowers(s)
  {
    FlyingLowers(Next(s, Provide(t, Some([]))), t);
    LowersLater(s, Provide(t, Some([])));
  }

  /** How far the caller inside the flight is from ending it without lowering the flag again. */
  ghost function Remaining(s: State): nat
    requires FlightHolds(s)
  {
    match s.flight
    case None => 0
    case Some(u) => if s.callers[u].Lowered? then 2 else 1
  }

  lemma FlaggedLowers(s: State, t: nat)
    requires Inv(s) && At(s, t, Flagged)
    ensures Lowers(s)
    decreases Remaining(s)
  {
    match s.flight
    case None =>
      CallingLowers(Next(s, Fly(t)), t);
      LowersLater(s, Fly(t));
    case Some(u) =>
      match s.callers[u] {
        case Calling => CallingLowers(s, u);
        case Flying(_, _, _) => FlyingLowers(s, u);
        case Stored => StoredLowers(s, u);
        case Lowered =>
          StepKeepsInv(s, Broadcast(u));
          FlaggedLowers(Next(s, Broadcast(u)), t);
          LowersLater(s, Broadcast(u));
        case Landing =>
          StepKeepsInv(s, Land(u));
          FlaggedLowers(Next(s, Land(u)), t);
          LowersLater(s, Land(u));
        case _ => assert false;
      }
  }

  /** A live caller can go on to lower the flag. */
  lemma LiveLowers(s: State, t: nat)
    requires Inv(s) && t in s.callers && Live(s.callers[t])
    ensures Lowers(s)
  {
    match s.callers[t]
    case Checked =>
      StepKeepsInv(s, Decide(t, true));
      FlaggedLowers(Next(s, Decide(t, true)), t);
      LowersLater(s, Decide(t, true));
    case Flagged => FlaggedLowers(s, t);
    case Calling => CallingLowers(s, t);
    case Flying(_, _, _) => FlyingLowers(s, t);
    case Stored => StoredLowers(s, t);
  }

  /** The raised flag can ever come down again exactly when some caller is still
      between finding it down and lowering it. */
  lemma FlagCanComeDownIff(s: State)
    requires Inv(s) && s.reloading
    ensures CanLower(s) <==> exists t :: t in s.callers && Live(s.callers[t])
  {
    if t :| t in s.callers && Live(s.callers[t]) {
      LiveLowers(s, t);
      var steps, u :| IsRun(s, steps) && HasLowered(After(s, steps), u);
    } else {
      forall steps | IsRun(s, steps) ensures After(s, steps).reloading {
        FrozenForever(s, steps, 0);
      }
    }
  }

  // ------------------------------------------------------ sleeping callers

  ghost predicate CanWake(s: State, u: nat) {
    exists steps :: IsRun(s, steps) && !At(After(s, steps), u, Waiting)
  }

  /** The flag is up for good, and no broadcast is under way. */
  ghost predicate Silent(s: State) {
    Frozen(s) && forall t :: t in s.callers ==> !s.callers[t].Lowered?
  }

  lemma {:induction false} SilentForever(s: State, steps: seq<Step>, u: nat)
    requires Silent(s) && IsRun(s, steps)
    ensures Silent(After(s, steps))
    ensures At(s, u, Waiting) ==> At(After(s, steps), u, Waiting)
    decreases |steps|
  {
    if steps != [] {
      SilentForever(Next(s, steps[0]), steps[1..], u);
    }
  }

  lemma {:induction false} RunSnoc(s: State, steps: seq<Step>, step: Step)
    requires IsRun(s, steps) && Enabled(After(s, steps), step)
    ensures IsRun(s, steps + [step]) && After(s, steps + [step]) == Next(After(s, steps), step)
    decreases |steps|
  {
    if steps == [] {
      RunCons(s, step, []);
      assert [] + [step] == [step] + [];
    } else {
      RunSnoc(Next(s, steps[0]), steps[1..], step);
      RunCons(s, steps[0], steps[1..] + [step]);
      assert [steps[0]] + (steps[1..] + [step]) == steps + [step];
    }
  }

  /** A run up to a caller about to broadcast wakes whoever still waits then. */
  lemma BroadcastWakes(s: State, steps: seq<Step>, t: nat, u: nat)
    requires IsRun(s, steps) && At(After(s, steps), t, Lowered)
    ensures CanWake(s, u)
  {
    if At(After(s, steps), u, Waiting) {
      RunSnoc(s, steps, Broadcast(t));
      assert !At(After(s, steps + [Broadcast(t)]), u, Waiting);
    }
  }

  lemma {:induction false} SomeoneNew(callers: set<nat>) returns (t: nat)
    ensures forall u :: u in callers ==> u < t
    decreases |callers|
  {
    t := 0;
    if callers != {} {
      var u :| u in callers;
      var t' := SomeoneNew(callers - {u});
      assert forall v :: v in callers ==> v == u || v in callers - {u};
      t := if u < t' then t' else u + 1;
    }
  }

  /** With the flag down a new caller can reload. */
  lemma DownLowers(s: State)
    requires Inv(s) && !s.reloading
    ensures Lowers(s)
  {
    var t := SomeoneNew(s.callers.Keys);
    var s1 := Next(s, Enter(t));
    var s2 := Next(s1, Check(t));
    StepKeepsInv(s, Enter(t));
    StepKeepsInv(s1, Check(t));
    LiveLowers(s2, t);
    LowersLater(s1, Check(t));
    LowersLater(s, Enter(t));
  }

  /** A sleeping caller can ever be woken exactly when the flag is not up for good,
      or a broadcast is still to come. */
  lemma SleeperCanWakeIff(s: State, u: nat)
    requires Inv(s) && At(s, u, Waiting)
    ensures CanWake(s, u) <==> !Silent(s)
  {
    if Silent(s) {
      forall steps | IsRun(s, steps) ensures At(After(s, steps), u, Waiting) {
        SilentForever(s, steps, u);
      }
    } else if t :| t in s.callers && s.callers[t].Lowered? {
      assert IsRun(s, []) && After(s, []) == s;
      BroadcastWakes(s, [], t, u);
    } else {
      if s.reloading {
        var t :| t in s.callers && Live(s.callers[t]);
        LiveLowers(s, t);
      } else {
        DownLowers(s);
      }
      var steps, t :| IsRun(s, steps) && HasLowered(After(s, steps), t);
      BroadcastWakes(s, steps, t, u);
    }
  }

  // --------------------------------------------------------- what goes wrong

  /** The flag goes up only by a caller that finds a reload needed, and comes down only by
      one whose reload succeeded. */
  lemma {:induction false} FlagFollowsReloads(s: State, steps: seq<Step>)
    requires IsRun(s, steps)
    ensures !s.reloading && After(s, steps).reloading ==>
              exists k :: 0 <= k < |steps| && steps[k].Decide? && steps[k].reload
    ensures s.reloading && !After(s, steps).reloading ==> exists k :: 0 <= k < |steps| && steps[k].Lower?
    decreases |steps|
  {
    if steps != [] {
      FlagFollowsReloads(Next(s, steps[0]), steps[1..]);
      assert (steps[0].Decide? && steps[0].reload) || steps[0].Lower? || Next(s, steps[0]).reloading == s.reloading;
      if k :| 0 <= k < |steps[1..]| && steps[1..][k].Decide? && steps[1..][k].reload {
        assert steps[k + 1].Decide? && steps[k + 1].reload;
      }
      if k :| 0 <= k < |steps[1..]| && steps[1..][k].Lower? {
        assert steps[k + 1].Lower?;
      }
    }
  }

  /** A failed provider call with nobody else past the check: no later caller of
      certificates ever gets through. */
  lemma FailedReloadBlocksEveryone(s: State, t: nat, steps: seq<Step>, later: nat)
    requires At(s, t, Calling) && s.reloading
    requires forall u :: u in s.callers && u != t ==> !Live(s.callers[u])
    requires Blocked(s, later)
    requires IsRun(Next(s, Provide(t, None)), steps)
    ensures After(Next(s, Provide(t, None)), steps).reloading
    ensures Blocked(After(Next(s, Provide(t, None)), steps), later)
  {
    FrozenForever(Next(s, Provide(t, None)), steps, later);
  }

  lemma RunCons(s: State, step: Step, tail: seq<Step>)
    requires Enabled(s, step) && IsRun(Next(s, step), tail)
    ensures IsRun(s, [step] + tail) && After(s, [step] + tail) == After(Next(s, step), tail)
  {
    assert ([step] + tail)[1..] == tail;
  }

  const FIRST_RELOAD: seq<Step> := [Enter(0)] + ([Check(0)] + ([Decide(0, true)] + ([Fly(0)] + [])))

  const FIRST_RELOAD_FAILS: seq<Step> := FIRST_RELOAD + [Provide(0, None)]

  lemma FirstReload(limit: nat)
    ensures IsRun(Starting(limit), FIRST_RELOAD)
    ensures After(Starting(limit), FIRST_RELOAD)
            == State(true, 0, 0, 0, {}, Some(0), 1, map[0 := Calling], limit, [], None, [])
  {
    var s1 := Next(Starting(limit), Enter(0));
    var s2 := Next(s1, Check(0));
    var s3 := Next(s2, Decide(0, true));
    assert Next(s3, Fly(0)).callers == map[0 := Calling];
    RunCons(s3, Fly(0), []);
    RunCons(s2, Decide(0, true), [Fly(0)] + []);
    RunCons(s1, Check(0), [Decide(0, true)] + ([Fly(0)] + []));
    RunCons(Starting(limit), Enter(0), [Check(0)] + ([Decide(0, true)] + ([Fly(0)] + [])));
  }

  /** For instance when the very first reload fails. */
  lemma FirstFailureFreezes(limit: nat)
    ensures IsRun(Starting(limit), FIRST_RELOAD_FAILS) && Frozen(After(Starting(limit), FIRST_RELOAD_FAILS))
  {
    FirstReload(limit);
    RunSnoc(Starting(limit), FIRST_RELOAD, Provide(0, None));
  }

  ghost predicate CanReach(limit: nat, s: State) {
    exists steps :: IsRun(Starting(limit), steps) && After(Starting(limit), steps) == s
  }

  lemma CanReachNext(limit: nat, s: State, step: Step, s': State)
    requires CanReach(limit, s) && Enabled(s, step) && Next(s, step) == s'
    ensures CanReach(limit, s')
  {
    var steps :| IsRun(Starting(limit), steps) && After(Starting(limit), steps) == s;
    RunSnoc(Starting(limit), steps, step);
  }

  /** One caller alone, during and after its own first reload. */
  function Alone(
      reloading: bool, cert: nat, pool: nat, flight: Option<nat>, c: Caller, ll: seq<Root>,
      stored: Option<seq<Root>>, roots: seq<Root>, limit: nat): State
  {
    State(reloading, cert, pool, 1, {1}, flight, 1, map[0 := c], limit, ll, stored, [roots])
  }

  lemma Overwritten(c: Caller, c': Caller)
    ensures map[0 := c][0 := c'] == map[0 := c']
  {
  }

  lemma ReachProvided(roots: seq<Root>, limit: nat)
    requires roots != []
    ensures CanReach(limit, Alone(true, 0, 0, Some(0), Flying(1, true, false), [], None, roots, limit))
  {
    FirstReload(limit);
    Overwritten(Calling, Flying(1, true, false));
    var s := State(true, 0, 0, 0, {}, Some(0), 1, map[0 := Calling], limit, [], None, []);
    assert CanReach(limit, s);
    assert {} + {1} == {1} && [] + [roots] == [roots];
    CanReachNext(limit, s, Provide(0, Some(roots)),
                 Alone(true, 0, 0, Some(0), Flying(1, true, false), [], None, roots, limit));
  }

  lemma ReachStored(roots: seq<Root>, limit: nat)
    requires roots != []
    ensures var n := Newest(roots, limit); CanReach(limit, Alone(true, 1, 1, Some(0), Stored, n, Some(n), roots, limit))
  {
    var n := Newest(roots, limit);
    ReachProvided(roots, limit);
    PushedIsNewest([], roots, limit);
    assert [] + roots == roots && Newest<Root>([], limit) == [];
    Overwritten(Flying(1, true, false), Flying(1, true, true));
    Overwritten(Flying(1, true, true), Stored);
    var s := Alone(true, 0, 1, Some(0), Flying(1, true, true), n, Some(n), roots, limit);
    CanReachNext(limit, Alone(true, 0, 0, Some(0), Flying(1, true, false), [], None, roots, limit), StorePool(0), s);
    CanReachNext(limit, s, StoreCert(0), Alone(true, 1, 1, Some(0), Stored, n, Some(n), roots, limit));
  }

  lemma ReachLoading(roots: seq<Root>, limit: nat)
    requires roots != []
    ensures var n := Newest(roots, limit);
            CanReach(limit, Alone(false, 1, 1, None, LoadingCert, n, Some(n), roots, limit))
  {
    var n := Newest(roots, limit);
    ReachStored(roots, limit);
    Overwritten(Stored, Lowered);
    Overwritten(Lowered, Landing);
    Overwritten(Landing, LoadingCert);
    assert Woken(map[0 := Lowered]) == map[0 := Lowered];
    var s1 := Alone(false, 1, 1, Some(0), Lowered, n, Some(n), roots, limit);
    var s2 := Alone(false, 1, 1, Some(0), Landing, n, Some(n), roots, limit);
    CanReachNext(limit, Alone(true, 1, 1, Some(0), Stored, n, Some(n), roots, limit), Lower(0), s1);
    CanReachNext(limit, s1, Broadcast(0), s2);
    CanReachNext(limit, s2, Land(0), Alone(false, 1, 1, None, LoadingCert, n, Some(n), roots, limit));
  }

  lemma ReachReturned(roots: seq<Root>, limit: nat)
    requires roots != []
    ensures var n := Newest(roots, limit);
            CanReach(limit, Alone(false, 1, 1, None, Returned(1, 1, Some(n)), n, Some(n), roots, limit))
  {
    var n := Newest(roots, limit);
    ReachLoading(roots, limit);
    Overwritten(LoadingCert, LoadingPool(1));
    Overwritten(LoadingPool(1), Returned(1, 1, Some(n)));
    var s := Alone(false, 1, 1, None, LoadingPool(1), n, Some(n), roots, limit);
    CanReachNext(limit, Alone(false, 1, 1, None, LoadingCert, n, Some(n), roots, limit), LoadCert(0), s);
    CanReachNext(limit, s, LoadPool(0), Alone(false, 1, 1, None, Returned(1, 1, Some(n)), n, Some(n), roots, limit));
  }

  /** A caller that reloads alone gets the newest of the roots supplied: with more of
      them than the limit, not all that came with its own certificate. */
  lemma OwnRootsCanBeMissing(roots: seq<Root>, limit: nat)
    requires |roots| > limit
    ensures exists steps :: IsRun(Starting(limit), steps)
              && After(Starting(limit), steps).callers == map[0 := Returned(1, 1, Some(Newest(roots, limit)))]
    ensures !(Reverse(roots) <= Newest(roots, limit))
  {
    var n := Newest(roots, limit);
    var s := Alone(false, 1, 1, None, Returned(1, 1, Some(n)), n, Some(n), roots, limit);
    ReachReturned(roots, limit);
    var steps :| IsRun(Starting(limit), steps) && After(Starting(limit), steps) == s;
    ReverseAt(roots);
  }

  const UNTIL_LOWERED: seq<Step> := [Provide(0, Some([]))] + ([StoreCert(0)] + ([Lower(0)] + []))

  /** One reload from the provider's answer to the broadcast, with a second caller standing by. */
  const ONE_RELOAD: seq<Step> := UNTIL_LOWERED + [Broadcast(0)]

  function Beside(other: Caller, limit: nat): State {
    State(true, 0, 0, 0, {}, Some(0), 1, map[0 := Calling, 1 := other], limit, [], None, [])
  }

  function Reloaded(other: Caller, limit: nat): State {
    State(false, 1, 0, 1, {}, Some(0), 1, map[0 := Landing, 1 := other], limit, [], None, [[]])
  }

  /** The flag is down, the broadcast to come. */
  function LoweredBeside(other: Caller, limit: nat): State {
    State(false, 1, 0, 1, {}, Some(0), 1, map[0 := Lowered, 1 := other], limit, [], None, [[]])
  }

  lemma BroadcastBeside(other: Caller, limit: nat)
    requires other == Checked || other == SawFlag
    ensures Next(LoweredBeside(other, limit), Broadcast(0)) == Reloaded(other, limit)
  {
    assert Next(LoweredBeside(other, limit), Broadcast(0)).callers == Reloaded(other, limit).callers;
  }

  lemma LowersBeside(other: Caller, limit: nat)
    requires other == Checked || other == SawFlag
    ensures IsRun(Beside(other, limit), UNTIL_LOWERED)
    ensures After(Beside(other, limit), UNTIL_LOWERED) == LoweredBeside(other, limit)
  {
    var s1 := Next(Beside(other, limit), Provide(0, Some([])));
    var s2 := Next(s1, StoreCert(0));
    assert Next(s2, Lower(0)).callers == LoweredBeside(other, limit).callers;
    RunCons(s2, Lower(0), []);
    RunCons(s1, StoreCert(0), [Lower(0)] + []);
    RunCons(Beside(other, limit), Provide(0, Some([])), [StoreCert(0)] + ([Lower(0)] + []));
  }

  lemma OneReloadBeside(other: Caller, limit: nat)
    requires other == Checked || other == SawFlag
    ensures IsRun(Beside(other, limit), ONE_RELOAD) && After(Beside(other, limit), ONE_RELOAD) == Reloaded(other, limit)
  {
    LowersBeside(other, limit);
    BroadcastBeside(other, limit);
    RunSnoc(Beside(other, limit), UNTIL_LOWERED, Broadcast(0));
  }

  lemma {:induction false} RunConcat(s: State, a: seq<Step>, b: seq<Step>)
    requires IsRun(s, a) && IsRun(After(s, a), b)
    ensures IsRun(s, a + b) && After(s, a + b) == After(After(s, a), b)
    decreases |a|
  {
    if a == [] {
      assert a + b == b;
    } else {
      RunConcat(Next(s, a[0]), a[1..], b);
      RunCons(s, a[0], a[1..] + b);
      assert [a[0]] + (a[1..] + b) == a + b;
    }
  }

  /** Both callers pass the check before the first of them raises the flag. */
  const BOTH_CHECK: seq<Step> :=
    [Enter(0)] + ([Enter(1)] + ([Check(0)] + ([Check(1)] + ([Decide(0, true)] + ([Fly(0)] + [])))))

  lemma BothChecked(limit: nat)
    ensures IsRun(Starting(limit), BOTH_CHECK) && After(Starting(limit), BOTH_CHECK) == Beside(Checked, limit)
  {
    var s1 := Next(Starting(limit), Enter(0));
    var s2 := Next(s1, Enter(1));
    var s3 := Next(s2, Check(0));
    var s4 := Next(s3, Check(1));
    var s5 := Next(s4, Decide(0, true));
    var tail4 := [Decide(0, true)] + ([Fly(0)] + []);
    assert Next(s5, Fly(0)).callers == Beside(Checked, limit).callers;
    RunCons(s5, Fly(0), []);
    RunCons(s4, Decide(0, true), [Fly(0)] + []);
    RunCons(s3, Check(1), tail4);
    RunCons(s2, Check(0), [Check(1)] + tail4);
    RunCons(s1, Enter(1), [Check(0)] + ([Check(1)] + tail4));
    RunCons(Starting(limit), Enter(0), [Enter(1)] + ([Check(0)] + ([Check(1)] + tail4)));
  }

  const LATE_JOIN: seq<Step> := [Decide(1, true)] + ([Join(1)] + [])

  const ALL_RELOADS_SUCCEED: seq<Step> := BOTH_CHECK + (ONE_RELOAD + LATE_JOIN)

  /** Not only failures: here the one call to the provider succeeds, but a second
      caller, past the check, raises the flag after the first has lowered it and then
      joins the flight that is about to end. Nobody lowers it again. */
  lemma SuccessfulReloadFreezes(limit: nat)
    ensures IsRun(Starting(limit), ALL_RELOADS_SUCCEED) && Frozen(After(Starting(limit), ALL_RELOADS_SUCCEED))
  {
    BothChecked(limit);
    OneReloadBeside(Checked, limit);
    LateJoinFreezes(limit);
    RunConcat(Beside(Checked, limit), ONE_RELOAD, LATE_JOIN);
    RunConcat(Starting(limit), BOTH_CHECK, ONE_RELOAD + LATE_JOIN);
  }

  lemma LateJoinFreezes(limit: nat)
    ensures IsRun(Reloaded(Checked, limit), LATE_JOIN) && Frozen(After(Reloaded(Checked, limit), LATE_JOIN))
  {
    var s := Reloaded(Checked, limit);
    RunCons(Next(s, Decide(1, true)), Join(1), []);
    RunCons(s, Decide(1, true), [Join(1)] + []);
  }

  /** A second caller finds the flag up and is about to wait. */
  const ONE_SEES_FLAG: seq<Step> :=
    [Enter(0)] + ([Enter(1)] + ([Check(0)] + ([Decide(0, true)] + ([Check(1)] + ([Fly(0)] + [])))))

  lemma OneSawFlag(limit: nat)
    ensures IsRun(Starting(limit), ONE_SEES_FLAG) && After(Starting(limit), ONE_SEES_FLAG) == Beside(SawFlag, limit)
  {
    var s1 := Next(Starting(limit), Enter(0));
    var s2 := Next(s1, Enter(1));
    var s3 := Next(s2, Check(0));
    var s4 := Next(s3, Decide(0, true));
    var s5 := Next(s4, Check(1));
    var tail4 := [Check(1)] + ([Fly(0)] + []);
    assert Next(s5, Fly(0)).callers == Beside(SawFlag, limit).callers;
    RunCons(s5, Fly(0), []);
    RunCons(s4, Check(1), [Fly(0)] + []);
    RunCons(s3, Decide(0, true), tail4);
    RunCons(s2, Check(0), [Decide(0, true)] + tail4);
    RunCons(s1, Enter(1), [Check(0)] + ([Decide(0, true)] + tail4));
    RunCons(Starting(limit), Enter(0), [Enter(1)] + ([Check(0)] + ([Decide(0, true)] + tail4)));
  }

  const LATE_WAIT: seq<Step> := [Wait(1)] + []

  const BROADCAST_MISSED: seq<Step> := ONE_SEES_FLAG + (ONE_RELOAD + LATE_WAIT)

  /** A reload that succeeds can leave a caller asleep: one that found the flag up but
      began to wait only after the broadcast sleeps with the flag down. */
  lemma LateSleeperMissesBroadcast(limit: nat)
    ensures IsRun(Starting(limit), BROADCAST_MISSED)
    ensures var s := After(Starting(limit), BROADCAST_MISSED); At(s, 1, Waiting) && !s.reloading
  {
    OneSawFlag(limit);
    OneReloadBeside(SawFlag, limit);
    RunCons(Reloaded(SawFlag, limit), Wait(1), []);
    RunConcat(Beside(SawFlag, limit), ONE_RELOAD, LATE_WAIT);
    RunConcat(Starting(limit), ONE_SEES_FLAG, ONE_RELOAD + LATE_WAIT);
  }
}
