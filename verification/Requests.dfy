/** What the shipper decides to upload and to abandon: file ids, the search for
    replayed files, and the requests of one chunk (app/domain/shipper/shipper.go,
    app/domain/shipper/utils.go, app/storage/disk/metric_file.go). */
module Requests {
  import opened Text
  import DiskStore

  const METRIC_EXTENSION := ".json.br"
  const REMOTE_EXTENSION := ".parquet"
  const FILES_CHUNK_SIZE := 200

  // ------------------------------------------------------------------- ids

  /** MetricFile.UniqueID */
  function UniqueId(path: string): string {
    Before(Base(path), '.')
  }

  /** GetRemoteFileID */
  function RemoteId(path: string): string {
    UniqueId(path) + REMOTE_EXTENSION
  }

  /** GetRootFileID */
  function RootId(ref: string): string {
    Before(Base(ref), '.')
  }

  /** The root id undoes the remote id for every path but one made of slashes only. */
  lemma RootInvertsRemoteIff(path: string)
    ensures RootId(RemoteId(path)) == UniqueId(path) <==> Base(path) != "/"
  {
    if Base(path) == "/" {
      RootOfSlash(REMOTE_EXTENSION);
      assert UniqueId(path) == "/" by { assert Base(path)[1..] == ""; }
    } else {
      RootOfName(UniqueId(path), REMOTE_EXTENSION);
    }
  }

  lemma RootOfName(id: string, extension: string)
    requires '/' !in id && '.' !in id && '/' !in extension && extension != "" && extension[0] == '.'
    ensures RootId(id + extension) == id
  {
    BaseOfName(id + extension);
    assert id + extension == id + ['.'] + extension[1..];
    BeforeIsPrefix(id, '.', extension[1..]);
  }

  lemma RootOfSlash(extension: string)
    requires '/' !in extension && extension != "" && extension[0] == '.'
    ensures RootId("/" + extension) == ""
  {
    var ref := "/" + extension;
    assert TrimSlashes(ref) == ref;
    AfterSlash("/", extension);
  }

  lemma {:induction false} AfterSlash(head: string, tail: string)
    requires head != "" && head[|head| - 1] == '/' && '/' !in tail
    ensures AfterLastSlash(head + tail) == tail
    decreases |tail|
  {
    if tail == "" {
      assert head + tail == head;
    } else {
      var s := head + tail;
      assert s[..|s| - 1] == head + tail[..|tail| - 1];
      AfterSlash(head, tail[..|tail| - 1]);
    }
  }

  // ---------------------------------------------------------------- searching

  predicate Matches(path: string, filterName: string, filterExtension: string) {
    Contains(Base(path), filterName) && HasSuffix(Base(path), filterExtension)
  }

  lemma EverythingMatchesNothing(s: string)
    ensures Contains(s, "") && HasSuffix(s, "")
  {
    assert OccursAt(s, "", 0);
  }

  function IfMatches(path: string, filterName: string, filterExtension: string): seq<string> {
    if Matches(path, filterName, filterExtension) then [path] else []
  }

  /** The matching files, in the order of the list and as often as they occur in it. */
  function Found(local: seq<string>, filterName: string, filterExtension: string): seq<string>
    decreases |local|
  {
    if local == [] then []
    else
      Found(local[..|local| - 1], filterName, filterExtension)
      + IfMatches(local[|local| - 1], filterName, filterExtension)
  }

  lemma {:induction false} FoundIff(local: seq<string>, filterName: string, filterExtension: string)
    ensures forall p :: p in Found(local, filterName, filterExtension)
                        <==> p in local && Contains(Base(p), filterName) && HasSuffix(Base(p), filterExtension)
    decreases |local|
  {
    if local != [] {
      FoundIff(local[..|local| - 1], filterName, filterExtension);
      assert local == local[..|local| - 1] + [local[|local| - 1]];
    }
  }

  lemma FoundNext(local: seq<string>, i: nat, filterName: string, filterExtension: string)
    requires i < |local|
    ensures Found(local[..i + 1], filterName, filterExtension)
            == Found(local[..i], filterName, filterExtension) + IfMatches(local[i], filterName, filterExtension)
  {
    assert local[..i + 1][..i] == local[..i];
  }

  /** DiskStore.Find over the files a walk of the directory tree visits, in its order. */
  method Find(local: seq<string>, filterName: string, filterExtension: string) returns (found: seq<string>)
    ensures found == Found(local, filterName, filterExtension)
  {
    found := [];
    for i := 0 to |local|
      invariant found == Found(local[..i], filterName, filterExtension)
    {
      EverythingMatchesNothing(Base(local[i]));
      FoundNext(local, i, filterName, filterExtension);
      if filterName != "" && !Contains(Base(local[i]), filterName) {
        continue;
      }
      if filterExtension != "" && !HasSuffix(Base(local[i]), filterExtension) {
        continue;
      }
      found := found + [local[i]];
    }
    assert local[..|local|] == local;
  }

  predicate IsIdentifier(id: string) {
    id != "" && '_' !in id && '.' !in id && '/' !in id
  }

  /** A finalized file's id, as the remote end knows it without extension. */
  function StoreFileId(id: string, start: nat, stop: nat): string {
    DiskStore.Stamped(id, Decimal(start), Decimal(stop))
  }

  /** An occurrence of "x_y_z" in "x'_y'_z'" lines the underscores up. */
  lemma AlignUnderscores(x: string, y: string, z: string, x': string, y': string, z': string, i: nat)
    requires '_' !in x && '_' !in y && '_' !in x' && '_' !in y' && '_' !in z'
    requires OccursAt(DiskStore.Stamped(x', y', z'), DiskStore.Stamped(x, y, z), i)
    ensures y == y' && HasSuffix(x', x) && z <= z'
  {
    var s, t := DiskStore.Stamped(x', y', z'), DiskStore.Stamped(x, y, z);
    var post := s[i + |t|..];
    assert s == s[..i] + t + post;
    assert s[i + |x|] == '_' && s[i + |x| + 1 + |y|] == '_';
    assert forall k :: |x'| < k < |s| && s[k] == '_' ==> k == |x'| + 1 + |y'|;
    assert i <= |x'|;
    var cut := x'[i..];
    assert s[i..] == cut + "_" + (y' + "_" + z');
    assert s[i..] == x + "_" + (y + "_" + (z + post));
    JoinInjective(x, y + "_" + (z + post), cut, y' + "_" + z', '_');
    JoinInjective(y, z + post, y', z', '_');
  }

  lemma PrefixOfDigits(d: string, d': string, c: char, tail: string)
    requires IsDigits(d) && !('0' <= c <= '9')
    ensures d <= d' + [c] + tail <==> d <= d'
  {
    var s := d' + [c] + tail;
    if d <= s {
      assert s[|d'|] == c;
      assert forall k :: 0 <= k < |d| ==> s[k] == d[k];
      assert |d| <= |d'|;
      assert d == s[..|d|] == d'[..|d|];
    }
    if d <= d' {
      assert s[..|d|] == d'[..|d|];
    }
  }

  /** A search by the id of one finalized file finds another one's name exactly
      when their identifiers end alike, they were opened in the same millisecond,
      and the digits of the sought stop time begin those of the other's. */
  lemma SearchFindsIff(id: string, a: nat, b: nat, id': string, a': nat, b': nat)
    requires IsIdentifier(id) && IsIdentifier(id')
    ensures Contains(DiskStore.FileName(id', a', b'), StoreFileId(id, a, b))
            <==> HasSuffix(id', id) && a == a' && Decimal(b) <= Decimal(b')
  {
    var name, sought := DiskStore.FileName(id', a', b'), StoreFileId(id, a, b);
    var rest := Decimal(b') + ".json.br";
    StopTimePrefix(b, b');
    if Contains(name, sought) {
      var i :| 0 <= i <= |name| && OccursAt(name, sought, i);
      AlignUnderscores(id, Decimal(a), Decimal(b), id', Decimal(a'), rest, i);
      DecimalInjective(a, a');
    }
    if HasSuffix(id', id) && a == a' && Decimal(b) <= Decimal(b') {
      StampedExtends(id, Decimal(a), Decimal(b), id', rest);
    }
  }

  lemma StopTimePrefix(b: nat, b': nat)
    ensures Decimal(b) <= Decimal(b') + ".json.br" <==> Decimal(b) <= Decimal(b')
    ensures '_' !in Decimal(b') + ".json.br"
  {
    assert ".json.br" == ['.'] + "json.br";
    assert Decimal(b') + ".json.br" == Decimal(b') + ['.'] + "json.br";
    PrefixOfDigits(Decimal(b), Decimal(b'), '.', "json.br");
  }

  lemma StampedExtends(x: string, y: string, z: string, x': string, z': string)
    requires HasSuffix(x', x) && z <= z'
    ensures Contains(DiskStore.Stamped(x', y, z'), DiskStore.Stamped(x, y, z))
  {
    var front, tail := x'[..|x'| - |x|], z'[|z|..];
    assert x' == front + x && z' == z + tail;
    ConcatOccurs(front, DiskStore.Stamped(x, y, z), tail);
    assert DiskStore.Stamped(x', y, z') == front + DiskStore.Stamped(x, y, z) + tail;
  }

  lemma ConcatOccurs(front: string, sub: string, tail: string)
    ensures Contains(front + sub + tail, sub)
  {
    assert OccursAt(front + sub + tail, sub, |front|);
  }

  /** Stop times of the same number of digits: the search finds the very file it is for. */
  lemma SearchIsExact(id: string, a: nat, b: nat, a': nat, b': nat)
    requires IsIdentifier(id) && |Decimal(b)| == |Decimal(b')|
    ensures Contains(DiskStore.FileName(id, a', b'), StoreFileId(id, a, b)) <==> a == a' && b == b'
  {
    SearchFindsIff(id, a, b, id, a', b');
    if Decimal(b) <= Decimal(b') {
      assert Decimal(b) == Decimal(b');
      DecimalInjective(b, b');
    }
    assert HasSuffix(id, id);
  }

  // ------------------------------------------------------- one chunk's requests

  datatype Request = Request(path: string, url: string)

  /** The allocation service's answer for a chunk. */
  datatype Response = Failed | Urls(allocation: map<string, string>, replay: map<string, string>)

  /** Which searches and which openings of files succeed. */
  datatype Lookups = Lookups(find: string -> bool, open: string -> bool)

  datatype Plan = Plan(requests: seq<Request>, abandoned: seq<string>)

  ghost predicate IsFresh(q: Request, chunk: seq<string>, allocation: map<string, string>) {
    q.path in chunk && RemoteId(q.path) in allocation && q.url == allocation[RemoteId(q.path)]
  }

  /** The search for the replayed id `ref` finds the file, and it can be opened. */
  ghost predicate Answers(p: string, ref: string, local: seq<string>, look: Lookups) {
    look.find(ref) && p in local && Matches(p, RootId(ref), METRIC_EXTENSION) && look.open(p)
  }

  ghost predicate IsReplay(q: Request, ref: string, replay: map<string, string>, local: seq<string>, look: Lookups) {
    ref in replay && q.url == replay[ref] && Answers(q.path, ref, local, look)
  }

  function IfAllocated(path: string, allocation: map<string, string>): seq<Request> {
    if RemoteId(path) in allocation then [Request(path, allocation[RemoteId(path)])] else []
  }

  /** One request for each of the chunk's files that was allocated a URL, in order. */
  function Fresh(chunk: seq<string>, allocation: map<string, string>): seq<Request>
    decreases |chunk|
  {
    if chunk == [] then []
    else Fresh(chunk[..|chunk| - 1], allocation) + IfAllocated(chunk[|chunk| - 1], allocation)
  }

  lemma {:induction false} FreshIff(chunk: seq<string>, allocation: map<string, string>)
    ensures forall q :: q in Fresh(chunk, allocation) <==> IsFresh(q, chunk, allocation)
    decreases |chunk|
  {
    if chunk != [] {
      FreshIff(chunk[..|chunk| - 1], allocation);
      assert chunk == chunk[..|chunk| - 1] + [chunk[|chunk| - 1]];
    }
  }

  function IfOpens(path: string, url: string, look: Lookups): seq<Request> {
    if look.open(path) then [Request(path, url)] else []
  }

  /** One request for each of the files that can be opened, in order. */
  function Opened(paths: seq<string>, url: string, look: Lookups): seq<Request>
    decreases |paths|
  {
    if paths == [] then [] else Opened(paths[..|paths| - 1], url, look) + IfOpens(paths[|paths| - 1], url, look)
  }

  lemma {:induction false} OpenedIff(paths: seq<string>, url: string, look: Lookups)
    ensures forall q :: q in Opened(paths, url, look) <==> q.url == url && q.path in paths && look.open(q.path)
    decreases |paths|
  {
    if paths != [] {
      OpenedIff(paths[..|paths| - 1], url, look);
      assert paths == paths[..|paths| - 1] + [paths[|paths| - 1]];
    }
  }

  /** The requests for one replayed id. */
  function Replayed(ref: string, url: string, local: seq<string>, look: Lookups): seq<Request> {
    if look.find(ref) then Opened(Found(local, RootId(ref), METRIC_EXTENSION), url, look) else []
  }

  lemma ReplayedIff(ref: string, url: string, local: seq<string>, look: Lookups)
    ensures forall q :: q in Replayed(ref, url, local, look) <==> q.url == url && Answers(q.path, ref, local, look)
  {
    FoundIff(local, RootId(ref), METRIC_EXTENSION);
    OpenedIff(Found(local, RootId(ref), METRIC_EXTENSION), url, look);
  }

  /** The replayed ids in the order the map was visited in, each once. */
  ghost predicate IsOrderOf(order: seq<string>, ids: set<string>) {
    && (forall ref :: ref in order <==> ref in ids)
    && (forall i, j :: 0 <= i < j < |order| ==> order[i] != order[j])
  }

  ghost function AllReplayed(
      order: seq<string>, replay: map<string, string>, local: seq<string>, look: Lookups): seq<Request>
    requires forall ref :: ref in order ==> ref in replay
    decreases |order|
  {
    if order == [] then []
    else
      var last := order[|order| - 1];
      AllReplayed(order[..|order| - 1], replay, local, look) + Replayed(last, replay[last], local, look)
  }

  lemma {:induction false} AllReplayedIff(
      order: seq<string>, replay: map<string, string>, local: seq<string>, look: Lookups)
    requires forall ref :: ref in order ==> ref in replay
    ensures forall q :: q in AllReplayed(order, replay, local, look)
                        <==> exists ref :: ref in order && IsReplay(q, ref, replay, local, look)
    decreases |order|
  {
    if order != [] {
      var front, last := order[..|order| - 1], order[|order| - 1];
      assert order == front + [last];
      assert forall ref :: ref in order <==> ref in front || ref == last;
      AllReplayedIff(front, replay, local, look);
      ReplayedIff(last, replay[last], local, look);
      assert forall q :: q in Replayed(last, replay[last], local, look) <==> IsReplay(q, last, replay, local, look);
    }
  }

  /** The requests are the fresh ones and, in some order of their ids, the replays. */
  ghost predicate AreRequests(
      requests: seq<Request>, chunk: seq<string>, urls: Response, local: seq<string>, look: Lookups)
    requires urls.Urls?
  {
    exists order :: IsOrderOf(order, urls.replay.Keys)
                    && requests == Fresh(chunk, urls.allocation) + AllReplayed(order, urls.replay, local, look)
  }

  ghost predicate AreAbandoned(abandoned: seq<string>, requests: seq<Request>, replay: map<string, string>) {
    && (forall ref :: ref in abandoned <==>
          ref in replay && forall q :: q in requests ==> RemoteId(q.path) != ref)
    && (forall i, j :: 0 <= i < j < |abandoned| ==> abandoned[i] != abandoned[j])
  }

  ghost predicate IsPlan(plan: Plan, chunk: seq<string>, urls: Response, local: seq<string>, look: Lookups)
    requires urls.Urls?
  {
    AreRequests(plan.requests, chunk, urls, local, look) && AreAbandoned(plan.abandoned, plan.requests, urls.replay)
  }

  lemma RequestsIff(requests: seq<Request>, chunk: seq<string>, urls: Response, local: seq<string>, look: Lookups)
    requires urls.Urls? && AreRequests(requests, chunk, urls, local, look)
    ensures forall q :: q in requests <==>
              IsFresh(q, chunk, urls.allocation) || exists ref :: IsReplay(q, ref, urls.replay, local, look)
    ensures forall q :: IsFresh(q, chunk, urls.allocation) <==>
              q.path in chunk && RemoteId(q.path) in urls.allocation && q.url == urls.allocation[RemoteId(q.path)]
    ensures forall q, ref :: IsReplay(q, ref, urls.replay, local, look) <==>
              && ref in urls.replay && q.url == urls.replay[ref] && look.find(ref) && look.open(q.path)
              && q.path in local && Contains(Base(q.path), RootId(ref)) && HasSuffix(Base(q.path), ".json.br")
  {
    var order :| IsOrderOf(order, urls.replay.Keys)
                 && requests == Fresh(chunk, urls.allocation) + AllReplayed(order, urls.replay, local, look);
    FreshIff(chunk, urls.allocation);
    AllReplayedIff(order, urls.replay, local, look);
  }

  method FreshRequests(chunk: seq<string>, allocation: map<string, string>) returns (requests: seq<Request>)
    ensures requests == Fresh(chunk, allocation)
  {
    requests := [];
    for i := 0 to |chunk|
      invariant requests == Fresh(chunk[..i], allocation)
    {
      assert chunk[..i + 1][..i] == chunk[..i];
      if RemoteId(chunk[i]) in allocation {
        requests := requests + [Request(chunk[i], allocation[RemoteId(chunk[i])])];
      }
    }
    assert chunk[..|chunk|] == chunk;
  }

  method OpenAll(paths: seq<string>, url: string, look: Lookups) returns (requests: seq<Request>)
    ensures requests == Opened(paths, url, look)
  {
    requests := [];
    for i := 0 to |paths|
      invariant requests == Opened(paths[..i], url, look)
    {
      assert paths[..i + 1][..i] == paths[..i];
      if look.open(paths[i]) {
        requests := requests + [Request(paths[i], url)];
      }
    }
    assert paths[..|paths|] == paths;
  }

  method ReplayRequests(ref: string, url: string, local: seq<string>, look: Lookups) returns (requests: seq<Request>)
    ensures requests == Replayed(ref, url, local, look)
  {
    requests := [];
    if look.find(ref) {
      var paths := Find(local, RootId(ref), METRIC_EXTENSION);
      requests := OpenAll(paths, url, look);
    }
  }

  lemma OrderNext(order: seq<string>, replay: map<string, string>, todo: set<string>, ref: string)
    requires ref in todo && todo <= replay.Keys && IsOrderOf(order, replay.Keys - todo)
    ensures IsOrderOf(order + [ref], replay.Keys - (todo - {ref}))
  {
    assert ref !in order;
  }

  /** The requests for all replayed ids; the map is visited in any order. */
  method AllReplayRequests(replay: map<string, string>, local: seq<string>, look: Lookups)
    returns (requests: seq<Request>, ghost order: seq<string>)
    ensures IsOrderOf(order, replay.Keys)
    ensures requests == AllReplayed(order, replay, local, look)
  {
    requests, order := [], [];
    var todo := replay.Keys;
    while todo != {}
      invariant todo <= replay.Keys
      invariant IsOrderOf(order, replay.Keys - todo)
      invariant requests == AllReplayed(order, replay, local, look)
      decreases todo
    {
      var ref :| ref in todo;
      var more := ReplayRequests(ref, replay[ref], local, look);
      OrderNext(order, replay, todo, ref);
      assert (order + [ref])[..|order|] == order;
      requests := requests + more;
      order := order + [ref];
      todo := todo - {ref};
    }
  }

  /** The replayed ids that no request is for. */
  method Abandoned(requests: seq<Request>, replay: map<string, string>) returns (abandoned: seq<string>)
    ensures AreAbandoned(abandoned, requests, replay)
  {
    var requestSet: set<string> := {};
    for i := 0 to |requests|
      invariant forall id :: id in requestSet <==> exists q :: q in requests[..i] && RemoteId(q.path) == id
    {
      assert requests[..i + 1] == requests[..i] + [requests[i]];
      requestSet := requestSet + {RemoteId(requests[i].path)};
    }
    assert requests[..|requests|] == requests;
    abandoned := [];
    var todo := replay.Keys;
    while todo != {}
      invariant todo <= replay.Keys
      invariant forall ref :: ref in abandoned <==> ref in replay.Keys - todo && ref !in requestSet
      invariant forall i, j :: 0 <= i < j < |abandoned| ==> abandoned[i] != abandoned[j]
      decreases todo
    {
      var ref :| ref in todo;
      if ref !in requestSet {
        abandoned := abandoned + [ref];
      }
      todo := todo - {ref};
    }
  }

  /** The requests and abandoned ids of one chunk. */
  method PlanChunk(chunk: seq<string>, urls: Response, local: seq<string>, look: Lookups) returns (plan: Plan)
    requires urls.Urls?
    ensures IsPlan(plan, chunk, urls, local, look)
  {
    var requests := FreshRequests(chunk, urls.allocation);
    var replays, order := AllReplayRequests(urls.replay, local, look);
    requests := requests + replays;
    var abandoned := Abandoned(requests, urls.replay);
    plan := Plan(requests, abandoned);
  }

  lemma LongNamesAreNoSlash(base: string, extension: string)
    requires HasSuffix(base, extension) && |extension| > 1
    ensures base != "/"
  {
  }

  lemma PrefixIsContained(s: string, prefix: string)
    requires prefix <= s
    ensures Contains(s, prefix)
  {
    assert OccursAt(s, prefix, 0);
  }

  /** The search for a local metric file's own remote id finds it. */
  lemma LocalFileMatches(p: string)
    requires HasSuffix(Base(p), METRIC_EXTENSION)
    ensures Matches(p, RootId(RemoteId(p)), METRIC_EXTENSION)
  {
    LongNamesAreNoSlash(Base(p), METRIC_EXTENSION);
    RootInvertsRemoteIff(p);
    PrefixIsContained(Base(p), UniqueId(p));
  }

  predicate IsMetricFile(p: string) {
    HasSuffix(Base(p), METRIC_EXTENSION)
  }

  lemma LocalFileIsFound(p: string, local: seq<string>, look: Lookups)
    requires p in local && IsMetricFile(p) && look.find(RemoteId(p)) && look.open(p)
    ensures Answers(p, RemoteId(p), local, look)
  {
    LocalFileMatches(p);
  }

  lemma AnswersAreMetricFiles(p: string, ref: string, local: seq<string>, look: Lookups)
    requires Answers(p, ref, local, look)
    ensures p in local && IsMetricFile(p)
  {
  }

  /** With every search and opening succeeding, an id the remote end wants replayed
      is abandoned exactly when no local metric file goes by that remote id, although
      files are searched for by substring. */
  lemma AbandonedIffNotLocal(
      plan: Plan, chunk: seq<string>, urls: Response, local: seq<string>, look: Lookups, ref: string)
    requires urls.Urls? && IsPlan(plan, chunk, urls, local, look)
    requires forall p :: look.find(p) && look.open(p)
    requires forall p :: p in chunk ==> p in local && IsMetricFile(p)
    ensures ref in plan.abandoned <==>
              ref in urls.replay && forall p :: p in local && IsMetricFile(p) ==> RemoteId(p) != ref
  {
    RequestsIff(plan.requests, chunk, urls, local, look);
    if ref in urls.replay {
      forall p | p in local && IsMetricFile(p) && RemoteId(p) == ref
        ensures ref !in plan.abandoned
      {
        LocalFileIsFound(p, local, look);
        assert IsReplay(Request(p, urls.replay[ref]), ref, urls.replay, local, look);
      }
      forall q | q in plan.requests
        ensures q.path in local && IsMetricFile(q.path)
      {
        if ref' :| IsReplay(q, ref', urls.replay, local, look) {
          AnswersAreMetricFiles(q.path, ref', local, look);
        }
      }
    }
  }

  /** Whatever a plan uploads goes to the URL of an id whose root the file's name contains. */
  lemma RequestsMatchTheirIds(
      plan: Plan, chunk: seq<string>, urls: Response, local: seq<string>, look: Lookups, q: Request)
    requires urls.Urls? && IsPlan(plan, chunk, urls, local, look) && q in plan.requests
    requires forall p :: p in chunk ==> HasSuffix(Base(p), METRIC_EXTENSION)
    ensures exists ref :: Contains(Base(q.path), RootId(ref))
                          && ( || (ref in urls.allocation && q.url == urls.allocation[ref] && ref == RemoteId(q.path))
                               || (ref in urls.replay && q.url == urls.replay[ref]))
  {
    RequestsIff(plan.requests, chunk, urls, local, look);
    if IsFresh(q, chunk, urls.allocation) {
      LocalFileMatches(q.path);
      assert Contains(Base(q.path), RootId(RemoteId(q.path)));
    } else {
      var ref :| IsReplay(q, ref, urls.replay, local, look);
      assert Contains(Base(q.path), RootId(ref));
    }
  }

  // ------------------------------------------------------------------ chunks

  function Concat<T>(chunks: seq<seq<T>>): seq<T>
    decreases |chunks|
  {
    if chunks == [] then [] else Concat(chunks[..|chunks| - 1]) + chunks[|chunks| - 1]
  }

  /** Chunk: consecutive slices of n elements, the last one possibly shorter; a
      single slice when n is not positive. */
  method Chunk<T>(list: seq<T>, n: int) returns (chunks: seq<seq<T>>)
    ensures Concat(chunks) == list
    ensures n <= 0 ==> chunks == [list]
    ensures n > 0 ==> forall k :: 0 <= k < |chunks| ==>
                        0 < |chunks[k]| <= n && (k < |chunks| - 1 ==> |chunks[k]| == n)
  {
    if n <= 0 {
      assert [list][..0] == [];
      return [list];
    }
    chunks := [];
    var i := 0;
    while i < |list|
      invariant 0 <= i
      invariant Concat(chunks) == list[..if i < |list| then i else |list|]
      invariant forall k :: 0 <= k < |chunks| ==> 0 < |chunks[k]| <= n && (k < |chunks| - 1 ==> |chunks[k]| == n)
      invariant chunks != [] && i < |list| ==> |chunks[|chunks| - 1]| == n
      decreases |list| - i
    {
      var end := if i + n < |list| then i + n else |list|;
      assert (chunks + [list[i..end]])[..|chunks|] == chunks;
      assert list[..i] + list[i..end] == list[..end];
      chunks := chunks + [list[i..end]];
      i := i + n;
    }
    assert list[..|list|] == list;
  }

  predicate IsEmptyAnswer(r: Response) {
    r.Urls? && r.allocation == map[] && r.replay == map[]
  }

  ghost predicate IsAnswered(plan: Plan, chunk: seq<string>, r: Response, local: seq<string>, look: Lookups) {
    r.Urls? && !IsEmptyAnswer(r) && IsPlan(plan, chunk, r, local, look)
  }

  /** One turn of HandleRequest's loop: plan the chunk, or stop. */
  method AnswerChunk(chunk: seq<string>, urls: Response, local: seq<string>, look: Lookups)
    returns (plan: Option<Plan>)
    ensures plan == None <==> urls.Failed? || IsEmptyAnswer(urls)
    ensures plan.Some? ==> IsAnswered(plan.value, chunk, urls, local, look)
  {
    if urls.Failed? {
      return None;
    }
    if |urls.allocation| == 0 && |urls.replay| == 0 {
      return None;
    }
    var p := PlanChunk(chunk, urls, local, look);
    plan := Some(p);
  }

  /** The plans answer the first chunks, one by one. */
  ghost predicate AreAnswered(
      plans: seq<Plan>, chunks: seq<seq<string>>, respond: nat -> Response, local: nat -> seq<string>, look: Lookups)
    decreases |plans|
  {
    && |plans| <= |chunks|
    && (plans == [] ||
          var k := |plans| - 1;
          AreAnswered(plans[..k], chunks, respond, local, look)
          && IsAnswered(plans[k], chunks[k], respond(k), local(k), look))
  }

  lemma AnsweredNext(
      plans: seq<Plan>, plan: Plan, chunks: seq<seq<string>>, respond: nat -> Response, local: nat -> seq<string>,
      look: Lookups)
    requires AreAnswered(plans, chunks, respond, local, look) && |plans| < |chunks|
    requires IsAnswered(plan, chunks[|plans|], respond(|plans|), local(|plans|), look)
    ensures AreAnswered(plans + [plan], chunks, respond, local, look)
  {
    assert (plans + [plan])[..|plans|] == plans;
  }

  lemma {:induction false} AnsweredAt(
      plans: seq<Plan>, chunks: seq<seq<string>>, respond: nat -> Response, local: nat -> seq<string>, look: Lookups,
      k: nat)
    requires AreAnswered(plans, chunks, respond, local, look) && k < |plans|
    ensures IsAnswered(plans[k], chunks[k], respond(k), local(k), look)
    ensures respond(k).Urls? && !IsEmptyAnswer(respond(k))
    decreases |plans|
  {
    if k < |plans| - 1 { AnsweredAt(plans[..|plans| - 1], chunks, respond, local, look, k); }
  }

  /** The loop over the chunks. */
  method PlanChunks(
      chunks: seq<seq<string>>, respond: nat -> Response, local: nat -> seq<string>, look: Lookups)
    returns (plans: seq<Plan>, ok: bool)
    ensures AreAnswered(plans, chunks, respond, local, look)
    ensures |plans| < |chunks| ==> respond(|plans|).Failed? || IsEmptyAnswer(respond(|plans|))
    ensures ok <==> |plans| == |chunks| || respond(|plans|).Urls?
  {
    plans, ok := [], true;
    var i := 0;
    while i < |chunks|
      invariant i == |plans| <= |chunks|
      invariant AreAnswered(plans, chunks, respond, local, look)
    {
      var urls := respond(i);
      var plan := AnswerChunk(chunks[i], urls, local(i), look);
      if plan == None {
        ok := urls.Urls?;
        return;
      }
      AnsweredNext(plans, plan.value, chunks, respond, local, look);
      plans := plans + [plan.value];
      i := i + 1;
    }
  }

  /** HandleRequest up to the uploads: chunk by chunk until an allocation fails,
      which is an error, or allocates and replays nothing, which is not. */
  method HandleRequest(files: seq<string>, respond: nat -> Response, local: nat -> seq<string>, look: Lookups)
    returns (chunks: seq<seq<string>>, plans: seq<Plan>, ok: bool)
    ensures Concat(chunks) == files
    ensures forall k :: 0 <= k < |chunks| ==> 0 < |chunks[k]| <= FILES_CHUNK_SIZE
    ensures forall k :: 0 <= k < |chunks| - 1 ==> |chunks[k]| == FILES_CHUNK_SIZE
    ensures AreAnswered(plans, chunks, respond, local, look)
    ensures |plans| < |chunks| ==>
              respond(|plans|).Failed? || (respond(|plans|).allocation == map[] && respond(|plans|).replay == map[])
    ensures ok <==> |plans| == |chunks| || respond(|plans|).Urls?
    ensures |plans| == |chunks| <==>
              forall k: nat :: k < |chunks| ==>
                respond(k).Urls? && (respond(k).allocation != map[] || respond(k).replay != map[])
  {
    chunks, plans, ok := [], [], true;
    if |files| == 0 {
      return;
    }
    chunks := Chunk(files, FILES_CHUNK_SIZE);
    plans, ok := PlanChunks(chunks, respond, local, look);
    forall k: nat | k < |plans| ensures respond(k).Urls? && !IsEmptyAnswer(respond(k)) {
      AnsweredAt(plans, chunks, respond, local, look, k);
    }
  }
}
