/** The part of SQLite that the initialisation script relies on, stated over
    values: a store is the set of table names in its catalogue plus the rows of
    the three tables the script creates, and each SQL statement the script
    issues is a function from store to store. */
module SqliteStore {

  datatype Option<T> = None | Some(value: T)

  /** A text timestamp as produced by `datetime('now')`; its value is not interpreted. */
  type Timestamp = string

  /** A row of `app_info`. Its `id` and `created_at` columns are not modelled. */
  datatype InfoRow = InfoRow(key: string, value: string)

  /** A row of `users`. */
  datatype User = User(id: int, username: string, email: string, createdAt: Timestamp)

  /** A row of `notes`. */
  datatype Note = Note(id: int, title: string, content: string, createdAt: Timestamp, updatedAt: Timestamp)

  /** The database file: the names of its tables, the rows of each of the
      script's tables in rowid order, and the `sqlite_sequence` entry for
      `notes` (the largest rowid `notes` has ever handed out, 0 if none). */
  datatype Store = Store(
    tables: set<string>,
    appInfo: seq<InfoRow>,
    users: seq<User>,
    notes: seq<Note>,
    notesSeq: int)

  const AppInfoTable: string := "app_info"
  const UsersTable: string := "users"
  const NotesTable: string := "notes"
  /** The internal table SQLite creates alongside the first AUTOINCREMENT table. */
  const SequenceTable: string := "sqlite_sequence"

  /** A database file that does not exist yet: `sqlite3.connect` creates it empty. */
  const Empty: Store := Store({}, [], [], [], 0)

  /** What the engine guarantees of every store: `key` is UNIQUE in `app_info`,
      `id` is the PRIMARY KEY of `notes`, AUTOINCREMENT's sequence entry is
      at least every id it handed out, and a table that is not in the
      catalogue has no rows and no sequence entry. */
  ghost predicate Valid(s: Store) {
    && UniqueKeys(s.appInfo)
    && DistinctIds(s.notes)
    && (forall i :: 0 <= i < |s.notes| ==> s.notes[i].id <= s.notesSeq)
    && (AppInfoTable !in s.tables ==> s.appInfo == [])
    && (UsersTable !in s.tables ==> s.users == [])
    && (NotesTable !in s.tables ==> s.notes == [] && s.notesSeq == 0)
  }

  // ---------------------------------------------------------------------
  // CREATE TABLE IF NOT EXISTS <name> (id INTEGER PRIMARY KEY AUTOINCREMENT, ...)
  // ---------------------------------------------------------------------

  /** Creating a table that already exists does nothing; otherwise the name
      joins the catalogue, and because the table has an AUTOINCREMENT key,
      so does `sqlite_sequence`. No rows change. */
  function CreateTable(s: Store, name: string): (r: Store)
    ensures name in r.tables && s.tables <= r.tables
    ensures r.tables <= s.tables + {name, SequenceTable}
    ensures name !in s.tables ==> SequenceTable in r.tables
    ensures name in s.tables ==> r == s
    ensures r.appInfo == s.appInfo && r.users == s.users
    ensures r.notes == s.notes && r.notesSeq == s.notesSeq
  {
    if name in s.tables then s
    else s.(tables := s.tables + {name, SequenceTable})
  }

  // ---------------------------------------------------------------------
  // app_info: a table whose `key` column is UNIQUE
  // ---------------------------------------------------------------------

  /** The keys present in `rows`. */
  function Keys(rows: seq<InfoRow>): set<string> {
    if rows == [] then {} else {rows[0].key} + Keys(rows[1..])
  }

  /** No key occurs in two rows. */
  predicate UniqueKeys(rows: seq<InfoRow>) {
    rows == [] || (rows[0].key !in Keys(rows[1..]) && UniqueKeys(rows[1..]))
  }

  /** `SELECT value FROM app_info WHERE key = ?`. */
  function Lookup(rows: seq<InfoRow>, key: string): Option<string> {
    if rows == [] then None
    else if rows[0].key == key then Some(rows[0].value)
    else Lookup(rows[1..], key)
  }

  /** `DELETE FROM app_info WHERE key = ?`: the rows with another key, in order. */
  function WithoutKey(rows: seq<InfoRow>, key: string): seq<InfoRow> {
    if rows == [] then []
    else (if rows[0].key == key then [] else [rows[0]]) + WithoutKey(rows[1..], key)
  }

  /** `INSERT OR REPLACE INTO app_info (key, value) VALUES (?, ?)`: on a
      conflict with the UNIQUE key, SQLite deletes the conflicting row and
      inserts the new one, which takes a fresh, larger rowid. The key then
      reads back the new value, every other key reads as before, and the table
      gains a row only when the key was absent. */
  function InsertOrReplace(rows: seq<InfoRow>, key: string, value: string): (r: seq<InfoRow>)
    ensures |r| > 0 && r[|r| - 1] == InfoRow(key, value)
    ensures |r| <= |rows| + 1
  {
    WithoutKeyFacts(rows, key);
    WithoutKey(rows, key) + [InfoRow(key, value)]
  }

  /** What `InsertOrReplace` promises: the key reads back the new value,
      every other key reads as before, the key set gains exactly `key`, the
      keys stay unique, and a row is added only when the key was absent. */
  lemma {:induction false} InsertOrReplaceFacts(rows: seq<InfoRow>, key: string, value: string)
    ensures var r := InsertOrReplace(rows, key, value);
      && Lookup(r, key) == Some(value)
      && (forall k :: k != key ==> Lookup(r, k) == Lookup(rows, k))
      && Keys(r) == Keys(rows) + {key}
      && (UniqueKeys(rows) ==> UniqueKeys(r))
      && (UniqueKeys(rows) ==> |r| == if key in Keys(rows) then |rows| else |rows| + 1)
  {
    var rest := WithoutKey(rows, key);
    var row := InfoRow(key, value);
    WithoutKeyFacts(rows, key);
    KeysAppend(rest, [row]);
    LookupAppend(rest, [row], key);
    forall k | k != key ensures Lookup(rest + [row], k) == Lookup(rows, k) {
      LookupAppend(rest, [row], k);
      LookupFound(rows, k);
      assert Lookup([row], k) == Lookup([row][1..], k) == None;
    }
    if UniqueKeys(rows) {
      UniqueAppend(rest, [row]);
    }
  }

  lemma {:induction false} KeysAppend(a: seq<InfoRow>, b: seq<InfoRow>)
    ensures Keys(a + b) == Keys(a) + Keys(b)
  {
    if a != [] {
      assert (a + b)[1..] == a[1..] + b;
      KeysAppend(a[1..], b);
    } else {
      assert a + b == b;
    }
  }

  lemma {:induction false} LookupAppend(a: seq<InfoRow>, b: seq<InfoRow>, key: string)
    ensures Lookup(a + b, key) == if key in Keys(a) then Lookup(a, key) else Lookup(b, key)
  {
    if a != [] {
      assert (a + b)[1..] == a[1..] + b;
      LookupAppend(a[1..], b, key);
    } else {
      assert a + b == b;
    }
  }

  /** A key reads back a value exactly when some row holds it. */
  lemma {:induction false} LookupFound(rows: seq<InfoRow>, key: string)
    ensures Lookup(rows, key).Some? <==> key in Keys(rows)
  {
    if rows != [] {
      LookupFound(rows[1..], key);
    }
  }

  lemma {:induction false} UniqueAppend(a: seq<InfoRow>, b: seq<InfoRow>)
    requires UniqueKeys(a) && UniqueKeys(b) && Keys(a) !! Keys(b)
    ensures UniqueKeys(a + b)
  {
    if a != [] {
      assert (a + b)[1..] == a[1..] + b;
      UniqueAppend(a[1..], b);
      KeysAppend(a[1..], b);
    } else {
      assert a + b == b;
    }
  }

  /** Deleting by key removes exactly that key and keeps the other rows. */
  lemma {:induction false} WithoutKeyFacts(rows: seq<InfoRow>, key: string)
    ensures Keys(WithoutKey(rows, key)) == Keys(rows) - {key}
    ensures forall k :: k != key ==> Lookup(WithoutKey(rows, key), k) == Lookup(rows, k)
    ensures key !in Keys(rows) ==> WithoutKey(rows, key) == rows
    ensures |WithoutKey(rows, key)| <= |rows|
    ensures UniqueKeys(rows) ==> UniqueKeys(WithoutKey(rows, key))
    ensures UniqueKeys(rows) ==>
      |WithoutKey(rows, key)| == if key in Keys(rows) then |rows| - 1 else |rows|
  {
    if rows != [] {
      var head := if rows[0].key == key then [] else [rows[0]];
      var tail := WithoutKey(rows[1..], key);
      WithoutKeyFacts(rows[1..], key);
      KeysAppend(head, tail);
      forall k | k != key ensures Lookup(head + tail, k) == Lookup(rows, k) {
        LookupAppend(head, tail, k);
      }
      if rows[0].key == key {
        assert head + tail == tail;
      } else if UniqueKeys(rows) {
        UniqueAppend(head, tail);
      }
      if key !in Keys(rows) {
        assert head + tail == [rows[0]] + rows[1..];
      }
    }
  }

  /** Deleting by key from a one-row table. */
  lemma WithoutKeySingle(row: InfoRow, key: string)
    ensures WithoutKey([row], key) == if row.key == key then [] else [row]
  {
    assert [row][1..] == [];
  }

  /** Deleting by key distributes over concatenation. */
  lemma {:induction false} WithoutKeyAppend(a: seq<InfoRow>, b: seq<InfoRow>, key: string)
    ensures WithoutKey(a + b, key) == WithoutKey(a, key) + WithoutKey(b, key)
  {
    if a != [] {
      assert (a + b)[1..] == a[1..] + b;
      WithoutKeyAppend(a[1..], b, key);
    } else {
      assert a + b == b;
    }
  }

  /** Every row's key is among the keys. */
  lemma {:induction false} KeyAt(rows: seq<InfoRow>, i: nat)
    requires i < |rows|
    ensures rows[i].key in Keys(rows)
  {
    if i > 0 {
      KeyAt(rows[1..], i - 1);
    }
  }

  /** `key` is UNIQUE: under `UniqueKeys` no two rows share a key, and the
      row count equals the number of distinct keys. */
  lemma {:induction false} UniqueKeysMeaning(rows: seq<InfoRow>)
    requires UniqueKeys(rows)
    ensures forall i, j :: 0 <= i < j < |rows| ==> rows[i].key != rows[j].key
    ensures |Keys(rows)| == |rows|
  {
    if rows != [] {
      UniqueKeysMeaning(rows[1..]);
      forall i, j | 0 <= i < j < |rows| ensures rows[i].key != rows[j].key {
        if i == 0 {
          KeyAt(rows[1..], j - 1);
        } else {
          assert rows[i] == rows[1..][i - 1] && rows[j] == rows[1..][j - 1];
        }
      }
    }
  }

  /** Whatever the store, a table has at least as many rows as distinct keys. */
  lemma {:induction false} KeysAtMostRows(rows: seq<InfoRow>)
    ensures |Keys(rows)| <= |rows|
  {
    if rows != [] {
      KeysAtMostRows(rows[1..]);
    }
  }

  // ---------------------------------------------------------------------
  // notes: INSERT with an AUTOINCREMENT primary key
  // ---------------------------------------------------------------------

  /** The largest of `floor` and every id in `notes`. */
  function MaxId(notes: seq<Note>, floor: int): (m: int)
    ensures m >= floor
    ensures forall i :: 0 <= i < |notes| ==> notes[i].id <= m
    ensures m == floor || exists i :: 0 <= i < |notes| && notes[i].id == m
  {
    if notes == [] then floor
    else
      var m := MaxId(notes[1..], floor);
      if notes[0].id > m then notes[0].id else m
  }

  /** No two notes share an id. */
  predicate DistinctIds(notes: seq<Note>) {
    forall i, j :: 0 <= i < j < |notes| ==> notes[i].id != notes[j].id
  }

  /** The first id AUTOINCREMENT gives on an empty table. */
  function FirstNoteId(notesSeq: int): (id: int)
    ensures id >= 1 && id > notesSeq
    ensures id == 1 || id == notesSeq + 1
  {
    if notesSeq < 0 then 1 else notesSeq + 1
  }

  /** The rowid AUTOINCREMENT assigns. The engine's candidate is 1 on an
      empty table and one more than the largest id otherwise; AUTOINCREMENT
      raises it to one more than the `sqlite_sequence` entry when that is
      larger. */
  function NextNoteId(s: Store): (id: int)
    ensures id > s.notesSeq
    ensures forall i :: 0 <= i < |s.notes| ==> s.notes[i].id < id
    ensures s.notes == [] ==> id >= 1
    ensures id == s.notesSeq + 1 || (s.notes == [] && id == 1)
         || exists i :: 0 <= i < |s.notes| && id == s.notes[i].id + 1
  {
    if s.notes == [] then FirstNoteId(s.notesSeq)
    else
      MaxId(s.notes, s.notesSeq) + 1
  }

  /** `INSERT INTO notes (title, content, created_at, updated_at) VALUES
      (?, ?, datetime('now'), datetime('now'))`: one row is appended with an
      id no row has ever had, both timestamps are the one `now` of this
      statement, the sequence entry advances to that id, and nothing else
      changes. */
  function InsertNote(s: Store, title: string, content: string, now: Timestamp): (r: Store)
    ensures |r.notes| == |s.notes| + 1 && r.notes[..|s.notes|] == s.notes
    ensures r.notes[|s.notes|] == Note(r.notesSeq, title, content, now, now)
    ensures r.notesSeq > s.notesSeq
    ensures forall i :: 0 <= i < |s.notes| ==> s.notes[i].id < r.notesSeq
    ensures DistinctIds(s.notes) ==> DistinctIds(r.notes)
    ensures r.tables == s.tables && r.appInfo == s.appInfo && r.users == s.users
  {
    var id := NextNoteId(s);
    var r := s.(notes := s.notes + [Note(id, title, content, now, now)], notesSeq := id);
    assert r.notes[..|s.notes|] == s.notes;
    r
  }

  // ---------------------------------------------------------------------
  // SELECT COUNT(*) FROM sqlite_master WHERE type='table' AND name NOT LIKE 'sqlite_%'
  // ---------------------------------------------------------------------

  /** SQLite's LIKE folds case for ASCII letters only. */
  function AsciiLower(c: char): char {
    if 'A' <= c <= 'Z' then (c as int + 32) as char else c
  }

  /** `name LIKE 'sqlite_%'`: the letters `sqlite` in any case, then one
      character of any kind (`_` is a wildcard), then anything. */
  predicate LikeSqlitePattern(name: string): (b: bool)
    ensures b ==> |name| >= 7
    ensures |name| >= 7 && name[..7] == "sqlite_" ==> b
    ensures |name| >= 7 && name[..6] == "SQLite" ==> b
  {
    |name| >= 7 && forall i :: 0 <= i < 6 ==> AsciiLower(name[i]) == "sqlite"[i]
  }

  /** A subset is no larger, and strictly smaller when it misses an element. */
  lemma SubsetCard(a: set<string>, b: set<string>, x: string)
    requires a <= b
    ensures |a| <= |b|
    ensures x in b && x !in a ==> |a| < |b|
  {
    assert b == a + (b - a);
    assert a * (b - a) == {};
    if x in b && x !in a {
      assert x in b - a;
    }
  }

  /** The tables the statistics query counts: never `sqlite_sequence`, and
      every table whose name is shorter than seven characters. */
  function UserTables(tables: set<string>): (u: set<string>)
    ensures u <= tables && SequenceTable !in u
    ensures forall t :: t in tables && |t| < 7 ==> t in u
  {
    assert LikeSqlitePattern(SequenceTable);
    set t | t in tables && !LikeSqlitePattern(t)
  }
}
