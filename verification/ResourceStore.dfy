/** The table of resource records that webhook handlers, the pusher and the
    housekeeper share (app/storage/repo/resource_store_impl.go). */
module ResourceStore {
  import opened Text

  /** A stored resource; its key (type, name and namespace) is the table's primary key. */
  datatype Row = Row(id: string, content: string, sentAt: Option<int>, created: int, updated: int)

  /** The part of a stored resource that a flush reads. */
  datatype Record = Record(id: string, key: string, content: string, size: int)

  type Table = map<string, Row>

  /** Insert with "on conflict do nothing" on the primary key. */
  function Inserted(t: Table, key: string, id: string, content: string, at: int): Table {
    if key in t then t else t[key := Row(id, content, None, at, at)]
  }

  /** `id` still names the row stored under `key`. */
  predicate Hits(t: Table, key: string, id: string) {
    key in t && t[key].id == id
  }

  function Updated(t: Table, key: string, id: string, content: string, sentAt: Option<int>, at: int): Table {
    if Hits(t, key, id) then t[key := t[key].(content := content, sentAt := sentAt, updated := at)] else t
  }

  function WithoutIds(t: Table, ids: set<string>): Table {
    map key | key in t && t[key].id !in ids :: t[key]
  }

  /** The updates of a flush's transaction, one record after the other: each
      writes back the content the record had when it was found. */
  function Marked(t: Table, records: seq<Record>, at: int): Table
    decreases |records|
  {
    if records == [] then t
    else
      var front, r := records[..|records| - 1], records[|records| - 1];
      Updated(Marked(t, front, at), r.key, r.id, r.content, Some(at), at)
  }

  /** Every record of a transaction can be updated: it has an id and its update works. */
  ghost predicate AllUpdated(records: seq<Record>, updateOk: nat -> bool) {
    forall k: nat :: k < |records| ==> records[k].id != "" && updateOk(k)
  }

  /** `records` is some listing of the rows with no sent_at. */
  ghost predicate ListsUnsent(t: Table, records: seq<Record>) {
    && (forall r :: r in records ==> Hits(t, r.key, r.id) && t[r.key].sentAt == None && t[r.key].content == r.content)
    && (forall key :: key in t && t[key].sentAt == None ==> exists r :: r in records && r.key == key)
  }

  predicate Expired(row: Row, cutoff: int) {
    row.sentAt.Some? && row.sentAt.value < cutoff && row.created < cutoff && row.updated < cutoff
  }

  function ExpiredIds(t: Table, cutoff: int): set<string> {
    set key | key in t && Expired(t[key], cutoff) :: t[key].id
  }

  /** What marking leaves of a row: untouched when no record hits it, otherwise
      the content of one of the records that do. */
  lemma {:induction false} MarkedRow(t: Table, records: seq<Record>, at: int, key: string)
    ensures Marked(t, records, at).Keys == t.Keys
    ensures key in t ==>
              var row := Marked(t, records, at)[key];
              && row.id == t[key].id && row.created == t[key].created
              && ( || (row == t[key] && forall r :: r in records ==> !(r.key == key && r.id == t[key].id))
                   || (row.sentAt == Some(at) && row.updated == at
                       && exists r :: r in records && r.key == key && r.id == t[key].id && row.content == r.content))
    decreases |records|
  {
    if records != [] {
      var front, r := records[..|records| - 1], records[|records| - 1];
      assert records == front + [r];
      assert forall x :: x in records <==> x in front || x == r;
      MarkedRow(t, front, at, key);
      MarkedRow(t, front, at, r.key);
    }
  }

  /** A table whose unsent rows were all found and marked at once has none left. */
  lemma MarkingAllLeavesNoneUnsent(t: Table, found: seq<Record>, at: int, key: string)
    requires ListsUnsent(t, found) && key in t
    ensures key in Marked(t, found, at) && Marked(t, found, at)[key].sentAt.Some?
    ensures t[key].sentAt.Some? ==> Marked(t, found, at)[key] == t[key]
    ensures t[key].sentAt == None ==> Marked(t, found, at)[key] == t[key].(sentAt := Some(at), updated := at)
  {
    MarkedRow(t, found, at, key);
    if t[key].sentAt == None {
      var r :| r in found && r.key == key;
      assert Hits(t, r.key, r.id);
    }
  }

  /** The store's operations; each argument ending in `Ok` is the outcome of a
      database call. */
  class Store {
    var rows: Table

    constructor ()
      ensures rows == map[]
    {
      rows := map[];
    }

    method Create(key: string, id: string, content: string, at: int, insertOk: bool) returns (ok: bool)
      modifies this
      ensures ok == insertOk
      ensures rows == if ok then Inserted(old(rows), key, id, content, at) else old(rows)
      ensures ok && key !in old(rows) ==> rows == old(rows)[key := Row(id, content, None, at, at)]
      ensures !ok || key in old(rows) ==> rows == old(rows)
    {
      if insertOk && key !in rows {
        rows := rows[key := Row(id, content, None, at, at)];
      }
      ok := insertOk;
    }

    method Update(key: string, id: string, content: string, sentAt: Option<int>, at: int, updateOk: bool)
      returns (ok: bool)
      modifies this
      ensures ok <==> id != "" && updateOk
      ensures rows == if ok then Updated(old(rows), key, id, content, sentAt, at) else old(rows)
      ensures ok && key in old(rows) && old(rows)[key].id == id ==>
                rows == old(rows)[key := Row(id, content, sentAt, old(rows)[key].created, at)]
      ensures !ok || key !in old(rows) || old(rows)[key].id != id ==> rows == old(rows)
    {
      if id == "" || !updateOk {
        return false;
      }
      if key in rows && rows[key].id == id {
        var row := rows[key];
        rows := rows[key := Row(row.id, content, sentAt, row.created, at)];
      }
      ok := true;
    }

    /** The pusher's transaction: all records are marked, or the rollback leaves the table alone. */
    method MarkSent(completed: seq<Record>, at: int, updateOk: nat -> bool, commit: bool) returns (ok: bool)
      modifies this
      ensures ok <==> AllUpdated(completed, updateOk) && commit
      ensures rows == if ok then Marked(old(rows), completed, at) else old(rows)
    {
      var before := rows;
      var i := 0;
      while i < |completed|
        invariant i <= |completed|
        invariant rows == Marked(before, completed[..i], at)
        invariant forall k: nat :: k < i ==> completed[k].id != "" && updateOk(k)
      {
        var r := completed[i];
        var updated := Update(r.key, r.id, r.content, Some(at), at, updateOk(i));
        if !updated {
          rows := before;
          return false;
        }
        assert completed[..i + 1][..i] == completed[..i];
        i := i + 1;
      }
      assert completed[..i] == completed;
      if !commit {
        rows := before;
      }
      ok := commit;
    }

    /** The housekeeper's transaction over the ids its query returned. */
    method DeleteAll(expired: seq<string>, deleteOk: nat -> bool, commit: bool) returns (ok: bool)
      modifies this
      ensures ok <==> commit && forall k: nat :: k < |expired| ==> deleteOk(k)
      ensures rows == if ok then WithoutIds(old(rows), set id | id in expired) else old(rows)
    {
      var before := rows;
      var i := 0;
      while i < |expired|
        invariant i <= |expired|
        invariant rows == WithoutIds(before, set id | id in expired[..i])
        invariant forall k: nat :: k < i ==> deleteOk(k)
      {
        if !deleteOk(i) {
          rows := before;
          return false;
        }
        rows := WithoutIds(rows, {expired[i]});
        assert expired[..i + 1] == expired[..i] + [expired[i]];
        i := i + 1;
      }
      assert expired[..i] == expired;
      if !commit {
        rows := before;
      }
      ok := commit;
    }
  }
}
