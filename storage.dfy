/**
 * The seen-item store (src/alertbot/storage.py): one SQLite table
 * `items(id, title, link, content_hash)` with an autoincrement id and unique
 * indexes on `link` and on `content_hash`. SQL NULL links never collide with
 * each other. Lookups go by link when the item has one and by hash otherwise;
 * insertion is INSERT OR IGNORE.
 */
module Store {
  import opened Options
  import opened Strings
  import opened Parser

  /** One row of `items`; `link == None` is SQL NULL. */
  datatype Row = Row(id: nat, title: string, link: Option<string>, contentHash: string)

  /**
   * The persisted table: its rows in id order, and the last id handed out
   * (`sqlite_sequence`). Every INSERT OR IGNORE draws an id, the ignored
   * ones included, so ids may have gaps.
   */
  datatype Table = Table(rows: seq<Row>, lastId: nat)

  /** Some row has exactly this (non-NULL) link. */
  predicate LinkStored(rows: seq<Row>, link: string): (found: bool)
    ensures found ==> rows != []
  {
    exists i :: 0 <= i < |rows| && rows[i].link == Some(link)
  }

  /** Some row has exactly this hash. */
  predicate HashStored(rows: seq<Row>, hash: string): (found: bool)
    ensures found ==> rows != []
  {
    exists i :: 0 <= i < |rows| && rows[i].contentHash == hash
  }

  /** The two unique indexes: no shared non-NULL link, no shared hash. */
  predicate UniqueKeys(rows: seq<Row>): (unique: bool)
    ensures unique ==> forall i, j :: 0 <= i < |rows| && 0 <= j < |rows| && rows[i].contentHash == rows[j].contentHash ==> i == j
    ensures unique ==> forall i, j :: 0 <= i < |rows| && 0 <= j < |rows| && rows[i].link.Some? && rows[i].link == rows[j].link ==> i == j
  {
    forall i, j :: 0 <= i < j < |rows| ==>
      (rows[i].link.Some? ==> rows[i].link != rows[j].link) && rows[i].contentHash != rows[j].contentHash
  }

  /** What SQLite keeps for an AUTOINCREMENT key: ids rise with insertion and never pass the sequence. */
  predicate IdsOrdered(t: Table)
  {
    && (forall i, j :: 0 <= i < j < |t.rows| ==> t.rows[i].id < t.rows[j].id)
    && (forall i :: 0 <= i < |t.rows| ==> 0 < t.rows[i].id <= t.lastId)
  }

  predicate WellFormed(t: Table)
  {
    UniqueKeys(t.rows) && IdsOrdered(t)
  }

  /** `is_seen`: a truthy link is looked up by link only, anything else by hash only. */
  predicate Seen(rows: seq<Row>, item: ParsedItem): (seen: bool)
    ensures seen ==> Conflicts(rows, item)
  {
    if Present(item.link) then LinkStored(rows, item.link.value) else HashStored(rows, item.contentHash)
  }

  /** The row INSERT OR IGNORE would clash with: the same non-NULL link or the same hash. */
  predicate Conflicts(rows: seq<Row>, item: ParsedItem): (clash: bool)
    ensures !clash ==> forall i :: 0 <= i < |rows| ==>
              rows[i].contentHash != item.contentHash && (item.link.Some? ==> rows[i].link != item.link)
  {
    (item.link.Some? && LinkStored(rows, item.link.value)) || HashStored(rows, item.contentHash)
  }

  /** The row `mark_seen` inserts for an item, under the next id. */
  function RowFor(t: Table, item: ParsedItem): Row
  {
    Row(t.lastId + 1, item.title, item.link, item.contentHash)
  }

  /**
   * `INSERT OR IGNORE INTO items (title, link, content_hash)`: the statement
   * advances the AUTOINCREMENT sequence whether or not the row goes in.
   */
  function Insert(t: Table, item: ParsedItem): (r: Table)
    ensures r.lastId == t.lastId + 1
    ensures |r.rows| == |t.rows| || |r.rows| == |t.rows| + 1
  {
    if Conflicts(t.rows, item) then Table(t.rows, t.lastId + 1)
    else Table(t.rows + [RowFor(t, item)], t.lastId + 1)
  }

  /** A row without its id: what the store records about an item. */
  datatype Entry = Entry(title: string, link: Option<string>, contentHash: string)

  /** The rows with their ids dropped, in order. */
  function Entries(rows: seq<Row>): (e: seq<Entry>)
    ensures |e| == |rows|
    ensures forall i :: 0 <= i < |rows| ==> e[i] == Entry(rows[i].title, rows[i].link, rows[i].contentHash)
  {
    seq(|rows|, i requires 0 <= i < |rows| => Entry(rows[i].title, rows[i].link, rows[i].contentHash))
  }

  /**
   * `_init_db` on an existing file (`Some`) or a new one (`None`): the table
   * is created if missing and kept with all its rows otherwise; creating a
   * unique index over rows that already share a key fails.
   */
  function InitDb(file: Option<Table>): (r: Result<Table>)
    ensures file.None? ==> r == Ok(Table([], 0))
    ensures file.Some? ==> (r.Ok? <==> UniqueKeys(file.value.rows))
    ensures file.Some? && r.Ok? ==> r.value == file.value
  {
    match file
    case None => Ok(Table([], 0))
    case Some(t) => if UniqueKeys(t.rows) then Ok(t) else Err("UNIQUE constraint failed")
  }

  /** The store object; its fields are the table it opened. */
  class Storage {
    var rows: seq<Row>
    var lastId: nat

    ghost predicate Valid()
      reads this
    {
      WellFormed(Table(rows, lastId))
    }

    function Snapshot(): Table
      reads this
    {
      Table(rows, lastId)
    }

    /** `Storage(db_path)`: opens the file through `_init_db`, which must succeed. */
    constructor (file: Option<Table>)
      requires file.Some? ==> IdsOrdered(file.value)
      requires InitDb(file).Ok?
      ensures Valid()
      ensures Snapshot() == InitDb(file).value
    {
      var t := InitDb(file).value;
      rows := t.rows;
      lastId := t.lastId;
    }

    /** `is_seen`: by exact link when the item has a non-empty link, by exact hash otherwise. */
    method IsSeen(item: ParsedItem) returns (seen: bool)
      ensures Present(item.link) ==> (seen <==> exists i :: 0 <= i < |rows| && rows[i].link == item.link)
      ensures !Present(item.link) ==> (seen <==> exists i :: 0 <= i < |rows| && rows[i].contentHash == item.contentHash)
    {
      if Present(item.link) {
        seen := LinkStored(rows, item.link.value);
      } else {
        seen := HashStored(rows, item.contentHash);
      }
    }

    /** `is_empty` */
    method IsEmpty() returns (empty: bool)
      ensures empty <==> |rows| == 0
    {
      empty := |rows| == 0;
    }

    /**
     * `mark_seen`: appends one row under the next id exactly when neither the
     * item's non-NULL link nor its hash is stored yet; otherwise nothing changes.
     */
    method MarkSeen(item: ParsedItem)
      requires Valid()
      modifies this
      ensures Valid()
      ensures Snapshot() == Insert(old(Snapshot()), item)
      ensures Conflicts(old(rows), item) ==> rows == old(rows) && lastId == old(lastId) + 1
      ensures !Conflicts(old(rows), item) ==>
                rows == old(rows) + [Row(old(lastId) + 1, item.title, item.link, item.contentHash)] &&
                lastId == old(lastId) + 1
    {
      var clash := Conflicts(rows, item);
      ghost var next := Insert(Snapshot(), item);
      InsertKeepsWellFormed(Snapshot(), item);
      if !clash {
        rows := rows + [Row(lastId + 1, item.title, item.link, item.contentHash)];
      }
      lastId := lastId + 1;
      assert Snapshot() == next;
    }
  }

  // ---------------------------------------------------------------- properties

  /** Insert-or-ignore keeps both unique indexes and the id order, gaps and all. */
  lemma InsertKeepsWellFormed(t: Table, item: ParsedItem)
    requires WellFormed(t)
    ensures WellFormed(Insert(t, item))
  {
    if !Conflicts(t.rows, item) {
      var rows := Insert(t, item).rows;
      forall i, j | 0 <= i < j < |rows|
        ensures (rows[i].link.Some? ==> rows[i].link != rows[j].link) && rows[i].contentHash != rows[j].contentHash
      {
        if j == |t.rows| {
          assert rows[i] == t.rows[i];
        }
      }
    }
  }

  /**
   * One row is appended exactly when nothing clashes; the old rows stay as
   * they were, the new row's id is above every existing id, and the sequence
   * moves on by one either way.
   */
  lemma InsertAppendsOrIgnores(t: Table, item: ParsedItem)
    requires WellFormed(t)
    ensures Conflicts(t.rows, item) <==> Insert(t, item).rows == t.rows
    ensures Insert(t, item).lastId == t.lastId + 1
    ensures !Conflicts(t.rows, item) <==> |Insert(t, item).rows| == |t.rows| + 1
    ensures Insert(t, item).rows[..|t.rows|] == t.rows
    ensures !Conflicts(t.rows, item) ==>
              var r := Insert(t, item).rows[|t.rows|];
              && r.title == item.title && r.link == item.link && r.contentHash == item.contentHash
              && forall i :: 0 <= i < |t.rows| ==> t.rows[i].id < r.id
  {
  }

  /** Marking the same item twice leaves the rows as marking it once; only the sequence moves on. */
  lemma {:induction false} InsertIdempotent(t: Table, item: ParsedItem)
    ensures Insert(Insert(t, item), item).rows == Insert(t, item).rows
    ensures Insert(Insert(t, item), item).lastId == t.lastId + 2
  {
    if !Conflicts(t.rows, item) {
      var rows := Insert(t, item).rows;
      assert rows[|t.rows|].contentHash == item.contentHash;
      assert HashStored(rows, item.contentHash);
    }
  }

  /** An item the store reports as seen is ignored by insert-or-ignore: no row changes. */
  lemma SeenMeansIgnored(t: Table, item: ParsedItem)
    requires Seen(t.rows, item)
    ensures Insert(t, item).rows == t.rows
  {
  }

  /** Whatever clashes with the table keeps clashing after further inserts; so does whatever is seen. */
  lemma InsertMonotone(t: Table, item: ParsedItem, other: ParsedItem)
    ensures Conflicts(t.rows, other) ==> Conflicts(Insert(t, item).rows, other)
    ensures Seen(t.rows, other) ==> Seen(Insert(t, item).rows, other)
  {
    var rows := Insert(t, item).rows;
    assert forall i :: 0 <= i < |t.rows| ==> rows[i] == t.rows[i];
  }

  /**
   * After `mark_seen(item)`, `is_seen(item)` holds except in two cases: a
   * truthy link that is new while the hash is already stored under another
   * row, or the link `""` (looked up by hash) that is already stored while
   * the hash is not.
   */
  lemma {:induction false} SeenAfterInsert(t: Table, item: ParsedItem)
    ensures Seen(Insert(t, item).rows, item) <==>
              !(Present(item.link) && !LinkStored(t.rows, item.link.value) && HashStored(t.rows, item.contentHash)) &&
              !(item.link == Some("") && LinkStored(t.rows, "") && !HashStored(t.rows, item.contentHash))
  {
    var rows := Insert(t, item).rows;
    if !Conflicts(t.rows, item) {
      assert rows[|t.rows|] == RowFor(t, item);
      if Present(item.link) {
        assert LinkStored(rows, item.link.value);
      } else {
        assert HashStored(rows, item.contentHash);
      }
    }
  }

  /** Two link-less items with different new hashes both get a row: NULL links never collide. */
  lemma {:induction false} NullLinksNeverCollide(t: Table, a: ParsedItem, b: ParsedItem)
    requires a.link.None? && b.link.None? && a.contentHash != b.contentHash
    requires !HashStored(t.rows, a.contentHash) && !HashStored(t.rows, b.contentHash)
    ensures |Insert(Insert(t, a), b).rows| == |t.rows| + 2
  {
    var t1 := Insert(t, a);
    assert t1.rows == t.rows + [RowFor(t, a)];
  }

  /** Once an item's row is in, a second item with the same link is ignored, whatever its hash. */
  lemma {:induction false} SameLinkStoredOnce(t: Table, a: ParsedItem, b: ParsedItem)
    requires a.link.Some? && a.link == b.link && !Conflicts(t.rows, a)
    ensures Conflicts(Insert(t, a).rows, b)
    ensures Insert(Insert(t, a), b).rows == Insert(t, a).rows
  {
    var t1 := Insert(t, a);
    assert t1.rows[|t.rows|].link == a.link;
    assert LinkStored(t1.rows, a.link.value);
  }

  /**
   * An ignored insert still uses up an id: marking `a`, marking it again and
   * then marking a different `b` leaves `b` under id 3, not 2.
   */
  lemma IgnoredInsertUsesId(a: ParsedItem, b: ParsedItem)
    requires a.contentHash != b.contentHash && (b.link.None? || b.link != a.link)
    ensures Insert(Insert(Insert(Table([], 0), a), a), b).rows
         == [Row(1, a.title, a.link, a.contentHash), Row(3, b.title, b.link, b.contentHash)]
  {
    var t1 := Insert(Table([], 0), a);
    assert t1.rows == [Row(1, a.title, a.link, a.contentHash)];
    assert t1.rows[0].contentHash == a.contentHash;
    assert HashStored(t1.rows, a.contentHash);
    var t2 := Insert(t1, a);
    assert t2 == Table(t1.rows, 2);
  }

  /** Rows holding the same entries clash with, and report as seen, the same items. */
  lemma SameEntriesSameAnswers(r1: seq<Row>, r2: seq<Row>, item: ParsedItem)
    requires Entries(r1) == Entries(r2)
    ensures Conflicts(r1, item) == Conflicts(r2, item)
    ensures Seen(r1, item) == Seen(r2, item)
  {
    forall i | 0 <= i < |r1|
      ensures r1[i].link == r2[i].link && r1[i].contentHash == r2[i].contentHash
    {
      assert Entries(r1)[i] == Entries(r2)[i];
    }
  }

  /** Insert-or-ignore depends on the stored entries, not on the ids they sit under. */
  lemma InsertSameEntries(t: Table, u: Table, item: ParsedItem)
    requires Entries(t.rows) == Entries(u.rows)
    ensures Entries(Insert(t, item).rows) == Entries(Insert(u, item).rows)
  {
    SameEntriesSameAnswers(t.rows, u.rows, item);
    if !Conflicts(t.rows, item) {
      var e := Entry(item.title, item.link, item.contentHash);
      assert Entries(Insert(t, item).rows) == Entries(t.rows) + [e];
      assert Entries(Insert(u, item).rows) == Entries(u.rows) + [e];
    }
  }

  /** Appending a row stores its link and its hash, and nothing else new. */
  lemma StoredAppend(rows: seq<Row>, r: Row, link: string, hash: string)
    ensures LinkStored(rows + [r], link) <==> LinkStored(rows, link) || r.link == Some(link)
    ensures HashStored(rows + [r], hash) <==> HashStored(rows, hash) || r.contentHash == hash
  {
    var all := rows + [r];
    assert all[|rows|] == r;
    assert forall i :: 0 <= i < |rows| ==> all[i] == rows[i];
  }
}
