# Notes-app database initialiser, modelled in Dafny

`database/init_db.py` prepares the SQLite file behind a simple notes
application. Its routine (lines 29–97) is meant to be safe to run any
number of times:

- it creates the tables `app_info`, `users` and `notes` if they are missing;
- it upserts four fixed `app_info` rows (`project_name`, `version`, `author`,
  `description`) with `INSERT OR REPLACE` on the UNIQUE `key` column;
- it seeds two notes ("Welcome", "Tips") only when `notes` is empty;
- it commits, then reads back the number of user tables and the number of
  `app_info` rows.

The model has three modules.

- `SqliteStore` (`sqlite_store.dfy`) is the part of SQLite the script relies
  on, stated over values. A `Store` holds the table catalogue (a set of
  names) and the rows of the three tables in rowid order. It also holds the
  `sqlite_sequence` entry for `notes`. Each statement kind is a function:
  - `CREATE TABLE IF NOT EXISTS` is `CreateTable`. It is a no-op on an
    existing name. Otherwise it adds the name and, because the table has an
    AUTOINCREMENT key, `sqlite_sequence` as well.
  - `INSERT OR REPLACE` on the UNIQUE key is `InsertOrReplace`. It deletes the
    conflicting row and appends the new one.
  - `INSERT INTO notes` is `InsertNote`. The AUTOINCREMENT id is 1 on an
    empty table and one more than the largest existing id otherwise, raised
    to one more than the `sqlite_sequence` entry when that is larger.
  - The statistics query's `name NOT LIKE 'sqlite_%'` is `LikeSqlitePattern`.
    Here `_` is a one-character wildcard and ASCII letters match in any case.
- `SqliteConnection` (`sqlite_connection.dfy`) is the open connection and
  cursor as a class. Its fields are the database state. Each write statement
  the script executes is a method that updates those fields in place and is
  specified by the matching `SqliteStore` function; each `COUNT(*)` read is a
  method that returns its count and changes nothing.
- `InitDb` (`init_db.dfy`) is the routine itself. `Init` is the write phase
  as one transition on a `Store`, and `Stats` is the statistics read.
  `RunInit` executes the script's statements one by one on a `Connection`
  and is proved to reach `Init` of the old state. The lemmas state what the
  routine promises: which tables exist, what `app_info` holds, when exactly
  two seed notes appear, and that a second run leaves the modelled state
  (the catalogue, the `app_info` keys and values in row order, and `notes`)
  exactly as the first run left it.

Clock readings are parameters. `datetime('now')` is fixed within one SQL
statement but not across statements. The two seed inserts are separate
statements, so `Init` takes one timestamp for each (`welcomeNow`, `tipsNow`).
Within each seed row, `created_at` and `updated_at` are equal. The two rows
share a timestamp only when both statements read the same clock value.

Two details of the code:
- The table count uses `NOT LIKE 'sqlite_%'`, whose `_` is a one-character
  wildcard. So the count leaves out any table whose name is `sqlite` (in any
  ASCII case) followed by at least one character, not only `sqlite_…` names.
- `notes.title` and `notes.content` are only `NOT NULL`. Nothing requires
  them to be non-empty, so the model does not either.

## Model

| member | source | states |
|---|---|---|
| `SqliteStore.CreateTable` | database/init_db.py:34-63 | an existing table is left as it is (the whole store is unchanged); a missing one joins the catalogue together with `sqlite_sequence`; no earlier table disappears and no rows change |
| `SqliteStore.InsertOrReplace` | database/init_db.py:66-73 | REPLACE appends the new row last, holding exactly the given key and value, and grows the table by at most one row; `InsertOrReplaceFacts` gives the rest of its contract |
| `SqliteStore.InsertOrReplaceFacts` | database/init_db.py:66-73 | after `INSERT OR REPLACE` the key reads back the new value; every other key reads as before; the key set gains exactly that key; keys stay unique; the row count grows by one exactly when the key was absent |
| `SqliteStore.WithoutKeyFacts` | database/init_db.py:37 | the delete half of REPLACE on the UNIQUE key removes exactly that key, keeps every other key's value, is a no-op on an absent key, and removes one row when the keys are unique |
| `SqliteStore.UniqueKeysMeaning` | database/init_db.py:37 | under the UNIQUE constraint no two `app_info` rows share a key, and the row count equals the number of distinct keys |
| `SqliteStore.KeysAtMostRows` | database/init_db.py:94-95 | `COUNT(*)` on `app_info` is at least the number of distinct keys |
| `SqliteStore.LikeSqlitePattern` | database/init_db.py:91 | a name matches `'sqlite_%'` only if it has at least seven characters; every `sqlite_…` name matches, and so does `SQLite` followed by any character, since `_` is a wildcard and the match ignores ASCII case |
| `SqliteStore.UserTables` | database/init_db.py:91 | the tables the statistics query counts are a subset of the catalogue that never includes `sqlite_sequence` and always includes every table whose name is shorter than seven characters |
| `SqliteStore.MaxId` | database/init_db.py:57 | the result is at least the floor and every id, and is either the floor or one of the ids |
| `SqliteStore.FirstNoteId` | database/init_db.py:57 | on an empty table the AUTOINCREMENT id is at least 1 and above the sequence entry, and is one of those two bounds, so a negative entry gives 1 |
| `SqliteStore.NextNoteId` | database/init_db.py:57 | the AUTOINCREMENT id is larger than the `sqlite_sequence` entry and than every existing note id, is at least 1 on an empty table, and is one more than the entry, one more than an existing id, or 1 on an empty table |
| `SqliteStore.InsertNote` | database/init_db.py:79-86 | one note is appended after the unchanged old ones, with an id never used before; its `created_at` and `updated_at` are both the statement's `now`; ids stay distinct; no other table changes |
| `SqliteConnection.Connection.Open` | database/init_db.py:30 | the connection's state is the file's contents |
| `SqliteConnection.Connection.CreateTableIfNotExists` | database/init_db.py:34-63 | the new state is `CreateTable` of the old; the table exists and no earlier table is lost |
| `SqliteConnection.Connection.InsertOrReplaceAppInfo` | database/init_db.py:66-73 | the new state is the old one with `app_info` upserted; the key reads back the value; key uniqueness is kept |
| `SqliteConnection.Connection.CountNotes` | database/init_db.py:76-77 | returns the number of notes, which is zero exactly when the table is empty |
| `SqliteConnection.Connection.InsertNote` | database/init_db.py:79-86 | the new state is `InsertNote` of the old: one row appended whose two timestamps are `now`, and the sequence entry advanced |
| `SqliteConnection.Connection.CountUserTables` | database/init_db.py:91-92 | returns the number of tables whose name is not `LIKE 'sqlite_%'`; it is positive when any such table exists |
| `SqliteConnection.Connection.CountAppInfo` | database/init_db.py:94-95 | returns the `app_info` row count, which is at least the number of distinct keys |
| `InitDb.ApplySchema` | database/init_db.py:34-63 | the three `CREATE TABLE IF NOT EXISTS` statements add the three declared tables to the catalogue, plus `sqlite_sequence` exactly when one of them was missing; no row and no sequence entry changes |
| `InitDb.UpsertMetadata` | database/init_db.py:66-73 | the four upserts make the key set the old one plus the four metadata keys, and keep the keys unique; `UpsertMetadataFacts` and `UpsertMetadataShape` give the values and the row order |
| `InitDb.SeedNotes` | database/init_db.py:75-86 | `notes` gets exactly two rows when it was empty and is left as it was otherwise (the whole store is then unchanged); the other tables are untouched; note ids stay distinct |
| `InitDb.Init` | database/init_db.py:29-86 | after the write phase the three declared tables and every earlier table exist; the `app_info` key set is the old one plus the four; `users` is untouched; `notes` gets exactly two rows if it was empty, and otherwise it is unchanged along with its sequence entry |
| `InitDb.Stats` | database/init_db.py:91-95 | the reported table count is at most the catalogue's size, and strictly less when `sqlite_sequence` exists; under the UNIQUE key the record count is the number of distinct `app_info` keys |
| `InitDb.RunInit` | database/init_db.py:29-97 | the statement-by-statement run reaches `Init` of the old state; the reported statistics are `Stats` of the new state; at least 3 tables and 4 records are reported |
| `InitDb.InitTables` | database/init_db.py:34-63 | after init the tables are the old ones plus `app_info`, `users` and `notes`, plus `sqlite_sequence` exactly when one of the three had to be created; `users` gets no rows |
| `InitDb.InitParts` | database/init_db.py:29-86 | init changes the catalogue only by the schema and `app_info` only by the four upserts, and writes no `users` row |
| `InitDb.UpsertMetadataFacts` | database/init_db.py:66-73 | after the four upserts each fixed key maps to its fixed value; other keys read as before; the key set gains exactly the four; keys stay unique |
| `InitDb.UpsertMetadataShape` | database/init_db.py:66-73 | the four upserts leave the rows with other keys in their order, followed by the four metadata rows in source order |
| `InitDb.UpsertMetadataIdempotent` | database/init_db.py:66-73 | upserting the metadata a second time leaves `app_info` exactly as the first time |
| `InitDb.WithoutMetadataKeys` | database/init_db.py:66-73 | the deletions done by the four upserts remove exactly the four metadata keys |
| `InitDb.InitAppInfo` | database/init_db.py:66-73 | after init `project_name`→"database", `version`→"0.1.0", `author`→"John Doe", `description`→""; keys outside those four are unchanged; the key set is the old one plus the four |
| `InitDb.InitKeepsKeysUnique` | database/init_db.py:35-73 | an existing key is replaced, not duplicated: no two rows share a key after init, and the row count is the number of distinct old-or-new keys |
| `InitDb.InitSeedsEmptyNotes` | database/init_db.py:75-86 | on an empty `notes` table, init leaves exactly ("Welcome", …) then ("Tips", …), with the ids `FirstNoteId` of the sequence entry and the one after it; each row carries its own statement's timestamp in both columns |
| `InitDb.SeedEmptyNotes` | database/init_db.py:78-86 | the two guarded inserts on an empty table give exactly the two seed rows, in order, with consecutive fresh ids starting at `FirstNoteId` of the sequence entry |
| `InitDb.NegativeSequenceSeedsFromOne` | database/init_db.py:78-86 | with a hand-edited `sqlite_sequence` entry of -5 and an empty `notes`, the seed rows get ids 1 and 2 |
| `InitDb.InitPreservesValid` | database/init_db.py:34-86 | init keeps the engine's constraints: unique `app_info` keys, distinct note ids, every note id at most the `notes` sequence entry, no rows in a missing table and no sequence entry for a missing `notes` |
| `InitDb.InitIdempotent` | database/init_db.py:34-86 | a second run, at any clock, leaves the modelled store exactly as the first run left it: same tables, same `app_info` keys and values in the same order, no further notes |
| `InitDb.FreshStoreStats` | database/init_db.py:91-95 | on a file that did not exist the catalogue ends as the three tables plus `sqlite_sequence`; 3 tables and 4 `app_info` records are reported; `notes` has two rows |
| `InitDb.FreshUserTables` | database/init_db.py:91-92 | on the catalogue a fresh file ends with, the query counts exactly `app_info`, `users` and `notes` |
| `InitDb.FreshRecords` | database/init_db.py:66-73 | on a fresh file `app_info` ends holding exactly the four metadata rows, in source order |
| `InitDb.SchemaTablesCounted` | database/init_db.py:91-92 | whenever the three declared tables exist, the statistics query counts each of them, so it reports at least 3 |
| `InitDb.InitStatsBounds` | database/init_db.py:91-95 | for any starting store, the reported table count after init is at least 3 and the `app_info` record count at least 4 |

## Left out

- The existence probe and accessibility check (lines 15–27): filesystem and driver I/O that only prints a warning and does not change the resulting state.
- `conn.commit()` and `conn.close()` (lines 88, 97): the write phase is one atomic transition; durability belongs to the SQLite engine.
- Failure to open, read or write the file. A path that cannot be opened or created (a missing directory, no write permission on it) makes `sqlite3.connect` (line 30) raise. A file that is not a database opens, and the error surfaces at the first statement, the `CREATE TABLE` at line 34. A read-only file opens read-only and fails at its first write; on a store that already has the three tables that is the `INSERT OR REPLACE` at line 66. In every case the exception ends the script before the commit at line 88. The model starts from a store that opened and reads and writes correctly.
- Writing `db_connection.txt`, creating `db_visualizer/` and writing `sqlite.env` (lines 99–126): best-effort file I/O with path formatting.
- Console output and the `which sqlite3` subprocess probe (lines 145–154): output and a foreign process call.
- The unused constants `DB_USER`, `DB_PASSWORD`, `DB_PORT` (lines 8–10).
- Real clock values: `datetime('now')` readings are parameters, and their text is not interpreted.
- `app_info.id`, `app_info.created_at` and the `app_info` entry of `sqlite_sequence`: every run deletes and re-inserts the four metadata rows, so each run gives them fresh, larger ids and a new `created_at`, and advances that sequence entry by 4. The model keeps only key and value, so idempotence is stated for the modelled state only. `value` is modelled as text, never NULL.
- Column types and the column lists of tables that already existed: a table is identified by its name only. Name matching is exact, while SQLite compares table names without regard to ASCII case.
- The 64-bit rowid limit at which AUTOINCREMENT fails with "database or disk full": ids are unbounded integers.
- Views, indexes and triggers in `sqlite_master`: the statistics query selects `type='table'`, and the model's catalogue holds only tables.
