/** The schema-and-seed routine of `database/init_db.py`: create three tables
    if they are missing, upsert four `app_info` rows, seed two notes only when
    `notes` is empty, then read back the table count and the `app_info` row
    count. `Init` is the routine as one transition on the store; `RunInit`
    executes it statement by statement on a connection. */
module InitDb {
  import opened SqliteStore
  import opened SqliteConnection

  /** The tables the script declares. */
  const SchemaTables: set<string> := {AppInfoTable, UsersTable, NotesTable}

  /** The four `app_info` rows the script writes on every run, in order. */
  const ProjectName: InfoRow := InfoRow("project_name", "database")
  const Version: InfoRow := InfoRow("version", "0.1.0")
  const Author: InfoRow := InfoRow("author", "John Doe")
  const Description: InfoRow := InfoRow("description", "")
  const Metadata: seq<InfoRow> := [ProjectName, Version, Author, Description]
  const MetadataKeys: set<string> := {ProjectName.key, Version.key, Author.key, Description.key}

  /** The two seed notes. */
  const WelcomeTitle: string := "Welcome"
  const WelcomeContent: string := "This is your first note. You can edit or delete it."
  const TipsTitle: string := "Tips"
  const TipsContent: string :=
    "Use the + button to add a note. Notes are saved automatically when you click Save."

  /** The two numbers the script reports. */
  datatype Statistics = Statistics(tableCount: nat, recordCount: nat)

  // ---------------------------------------------------------------------
  // The routine as a function on stores
  // ---------------------------------------------------------------------

  /** The three `CREATE TABLE IF NOT EXISTS` statements, in source order. */
  function ApplySchema(s: Store): (r: Store)
    ensures r.tables == s.tables + SchemaTables + (if SchemaTables <= s.tables then {} else {SequenceTable})
    ensures r.appInfo == s.appInfo && r.users == s.users
    ensures r.notes == s.notes && r.notesSeq == s.notesSeq
  {
    CreateTable(CreateTable(CreateTable(s, AppInfoTable), UsersTable), NotesTable)
  }

  /** The four `INSERT OR REPLACE INTO app_info` statements, in source order. */
  function UpsertMetadata(rows: seq<InfoRow>): (r: seq<InfoRow>)
    ensures Keys(r) == Keys(rows) + MetadataKeys
    ensures UniqueKeys(rows) ==> UniqueKeys(r)
  {
    var r1 := InsertOrReplace(rows, ProjectName.key, ProjectName.value);
    var r2 := InsertOrReplace(r1, Version.key, Version.value);
    var r3 := InsertOrReplace(r2, Author.key, Author.value);
    InsertOrReplaceFacts(rows, ProjectName.key, ProjectName.value);
    InsertOrReplaceFacts(r1, Version.key, Version.value);
    InsertOrReplaceFacts(r2, Author.key, Author.value);
    InsertOrReplaceFacts(r3, Description.key, Description.value);
    InsertOrReplace(r3, Description.key, Description.value)
  }

  /** The count-guarded seeding: two inserts when `notes` is empty, each
      stamped by its own statement's clock reading. */
  function SeedNotes(s: Store, welcomeNow: Timestamp, tipsNow: Timestamp): (r: Store)
    ensures |r.notes| == if s.notes == [] then 2 else |s.notes|
    ensures s.notes != [] ==> r == s
    ensures r.tables == s.tables && r.appInfo == s.appInfo && r.users == s.users
    ensures DistinctIds(s.notes) ==> DistinctIds(r.notes)
  {
    if |s.notes| == 0 then
      InsertNote(InsertNote(s, WelcomeTitle, WelcomeContent, welcomeNow), TipsTitle, TipsContent, tipsNow)
    else
      s
  }

  /** The whole write phase, committed as one transition. */
  function Init(s: Store, welcomeNow: Timestamp, tipsNow: Timestamp): (r: Store)
    ensures s.tables + SchemaTables <= r.tables
    ensures Keys(r.appInfo) == Keys(s.appInfo) + MetadataKeys
    ensures r.users == s.users
    ensures |r.notes| == if s.notes == [] then 2 else |s.notes|
    ensures s.notes != [] ==> r.notes == s.notes && r.notesSeq == s.notesSeq
  {
    var a := ApplySchema(s);
    SeedNotes(a.(appInfo := UpsertMetadata(a.appInfo)), welcomeNow, tipsNow)
  }

  /** The statistics read after the commit. */
  function Stats(s: Store): (st: Statistics)
    ensures st.tableCount <= |s.tables|
    ensures SequenceTable in s.tables ==> st.tableCount < |s.tables|
    ensures UniqueKeys(s.appInfo) ==> st.recordCount == |Keys(s.appInfo)|
  {
    SubsetCard(UserTables(s.tables), s.tables, SequenceTable);
    var st := Statistics(|UserTables(s.tables)|, |s.appInfo|);
    if UniqueKeys(s.appInfo) then UniqueKeysMeaning(s.appInfo); st else st
  }

  // ---------------------------------------------------------------------
  // The routine executed statement by statement
  // ---------------------------------------------------------------------

  /** The script's write phase and statistics reads on an open connection.
      `welcomeNow` and `tipsNow` are what `datetime('now')` returns in the
      first and the second seed insert. */
  method RunInit(db: Connection, welcomeNow: Timestamp, tipsNow: Timestamp) returns (stats: Statistics)
    modifies db
    ensures db.State() == Init(old(db.State()), welcomeNow, tipsNow)
    ensures stats == Stats(db.State())
    ensures stats.tableCount >= 3 && stats.recordCount >= 4
  {
    db.CreateTableIfNotExists(AppInfoTable);
    db.CreateTableIfNotExists(UsersTable);
    db.CreateTableIfNotExists(NotesTable);

    db.InsertOrReplaceAppInfo(ProjectName.key, ProjectName.value);
    db.InsertOrReplaceAppInfo(Version.key, Version.value);
    db.InsertOrReplaceAppInfo(Author.key, Author.value);
    db.InsertOrReplaceAppInfo(Description.key, Description.value);

    var notesCount := db.CountNotes();
    if notesCount == 0 {
      db.InsertNote(WelcomeTitle, WelcomeContent, welcomeNow);
      db.InsertNote(TipsTitle, TipsContent, tipsNow);
    }

    var tableCount := db.CountUserTables();
    var recordCount := db.CountAppInfo();
    stats := Statistics(tableCount, recordCount);
    InitStatsBounds(old(db.State()), welcomeNow, tipsNow);
  }

  // ---------------------------------------------------------------------
  // What the routine promises
  // ---------------------------------------------------------------------

  /** After init the three tables exist, every earlier table still exists,
      and `sqlite_sequence` appears exactly when one of them had to be
      created. No `users` row is written. */
  lemma {:induction false} InitTables(s: Store, welcomeNow: Timestamp, tipsNow: Timestamp)
    ensures var r := Init(s, welcomeNow, tipsNow);
      && r.tables == s.tables + SchemaTables + (if SchemaTables <= s.tables then {} else {SequenceTable})
      && r.users == s.users
  {
  }

  /** The deletions `UpsertMetadata` performs: every row whose key is one of
      the four metadata keys. */
  function WithoutMetadata(rows: seq<InfoRow>): seq<InfoRow> {
    WithoutKey(WithoutKey(WithoutKey(WithoutKey(rows, ProjectName.key), Version.key), Author.key), Description.key)
  }

  /** The four upserts together: each fixed key reads back its fixed value,
      every other key reads as before, the key set gains exactly the four,
      and keys stay unique. */
  lemma {:induction false} UpsertMetadataFacts(rows: seq<InfoRow>)
    ensures var r := UpsertMetadata(rows);
      && Lookup(r, "project_name") == Some("database")
      && Lookup(r, "version") == Some("0.1.0")
      && Lookup(r, "author") == Some("John Doe")
      && Lookup(r, "description") == Some("")
      && (forall k :: k !in MetadataKeys ==> Lookup(r, k) == Lookup(rows, k))
      && Keys(r) == Keys(rows) + MetadataKeys
      && (UniqueKeys(rows) ==> UniqueKeys(r))
  {
    var r1 := InsertOrReplace(rows, ProjectName.key, ProjectName.value);
    var r2 := InsertOrReplace(r1, Version.key, Version.value);
    var r3 := InsertOrReplace(r2, Author.key, Author.value);
    InsertOrReplaceFacts(rows, ProjectName.key, ProjectName.value);
    InsertOrReplaceFacts(r1, Version.key, Version.value);
    InsertOrReplaceFacts(r2, Author.key, Author.value);
    InsertOrReplaceFacts(r3, Description.key, Description.value);
  }

  /** Upserting a key in front of rows that do not hold it: the old rows
      with that key go, the following rows stay, the new row comes last. */
  lemma {:induction false} UpsertBeforeTail(w: seq<InfoRow>, tail: seq<InfoRow>, row: InfoRow)
    requires WithoutKey(tail, row.key) == tail
    ensures InsertOrReplace(w + tail, row.key, row.value) == WithoutKey(w, row.key) + tail + [row]
  {
    WithoutKeyAppend(w, tail, row.key);
  }

  /** No metadata row carries the key of a later one. */
  lemma {:induction false} MetadataPrefixesKept()
    ensures WithoutKey([ProjectName], Version.key) == [ProjectName]
    ensures WithoutKey([ProjectName, Version], Author.key) == [ProjectName, Version]
    ensures WithoutKey([ProjectName, Version, Author], Description.key) == [ProjectName, Version, Author]
  {
    WithoutKeySingle(ProjectName, Version.key);
    assert [ProjectName, Version] == [ProjectName] + [Version];
    WithoutKeyAppend([ProjectName], [Version], Author.key);
    WithoutKeySingle(ProjectName, Author.key);
    WithoutKeySingle(Version, Author.key);
    assert [ProjectName, Version, Author] == [ProjectName, Version] + [Author];
    WithoutKeyAppend([ProjectName, Version], [Author], Description.key);
    WithoutKeyAppend([ProjectName], [Version], Description.key);
    WithoutKeySingle(ProjectName, Description.key);
    WithoutKeySingle(Version, Description.key);
    WithoutKeySingle(Author, Description.key);
  }

  /** The first two upserts: the rows without either key, then the two rows. */
  lemma {:induction false} UpsertFirstTwo(rows: seq<InfoRow>)
    ensures InsertOrReplace(InsertOrReplace(rows, ProjectName.key, ProjectName.value), Version.key, Version.value)
         == WithoutKey(WithoutKey(rows, ProjectName.key), Version.key) + [ProjectName, Version]
  {
    var w1 := WithoutKey(rows, ProjectName.key);
    MetadataPrefixesKept();
    UpsertBeforeTail(w1, [ProjectName], Version);
    assert WithoutKey(w1, Version.key) + [ProjectName] + [Version]
        == WithoutKey(w1, Version.key) + [ProjectName, Version];
  }

  /** The third upsert after the first two. */
  lemma {:induction false} UpsertThird(w2: seq<InfoRow>)
    ensures InsertOrReplace(w2 + [ProjectName, Version], Author.key, Author.value)
         == WithoutKey(w2, Author.key) + [ProjectName, Version, Author]
  {
    MetadataPrefixesKept();
    UpsertBeforeTail(w2, [ProjectName, Version], Author);
    assert WithoutKey(w2, Author.key) + [ProjectName, Version] + [Author]
        == WithoutKey(w2, Author.key) + [ProjectName, Version, Author];
  }

  /** The fourth upsert after the first three. */
  lemma {:induction false} UpsertFourth(w3: seq<InfoRow>)
    ensures InsertOrReplace(w3 + [ProjectName, Version, Author], Description.key, Description.value)
         == WithoutKey(w3, Description.key) + Metadata
  {
    MetadataPrefixesKept();
    UpsertBeforeTail(w3, [ProjectName, Version, Author], Description);
    assert WithoutKey(w3, Description.key) + [ProjectName, Version, Author] + [Description]
        == WithoutKey(w3, Description.key) + Metadata;
  }

  /** The upsert leaves the rows with other keys in their order, followed by
      the four metadata rows in source order. */
  lemma {:induction false} UpsertMetadataShape(rows: seq<InfoRow>)
    ensures UpsertMetadata(rows) == WithoutMetadata(rows) + Metadata
  {
    var w2 := WithoutKey(WithoutKey(rows, ProjectName.key), Version.key);
    var w3 := WithoutKey(w2, Author.key);
    UpsertFirstTwo(rows);
    UpsertThird(w2);
    UpsertFourth(w3);
  }

  /** Deleting the metadata keys distributes over concatenation. */
  lemma {:induction false} WithoutMetadataAppend(a: seq<InfoRow>, b: seq<InfoRow>)
    ensures WithoutMetadata(a + b) == WithoutMetadata(a) + WithoutMetadata(b)
  {
    WithoutKeyAppend(a, b, ProjectName.key);
    var a1, b1 := WithoutKey(a, ProjectName.key), WithoutKey(b, ProjectName.key);
    WithoutKeyAppend(a1, b1, Version.key);
    var a2, b2 := WithoutKey(a1, Version.key), WithoutKey(b1, Version.key);
    WithoutKeyAppend(a2, b2, Author.key);
    var a3, b3 := WithoutKey(a2, Author.key), WithoutKey(b2, Author.key);
    WithoutKeyAppend(a3, b3, Description.key);
  }

  /** A metadata row is deleted by the upsert of its own key. */
  lemma {:induction false} WithoutMetadataOfMetadataRow(row: InfoRow)
    requires row in Metadata
    ensures WithoutMetadata([row]) == []
  {
    WithoutKeySingle(row, ProjectName.key);
    if row != ProjectName {
      WithoutKeySingle(row, Version.key);
      if row != Version {
        WithoutKeySingle(row, Author.key);
        if row != Author {
          WithoutKeySingle(row, Description.key);
        }
      }
    }
  }

  /** The deletions remove exactly the four metadata keys. */
  lemma {:induction false} WithoutMetadataKeys(rows: seq<InfoRow>)
    ensures Keys(WithoutMetadata(rows)) == Keys(rows) - MetadataKeys
  {
    var w1 := WithoutKey(rows, ProjectName.key);
    var w2 := WithoutKey(w1, Version.key);
    var w3 := WithoutKey(w2, Author.key);
    WithoutKeyFacts(rows, ProjectName.key);
    WithoutKeyFacts(w1, Version.key);
    WithoutKeyFacts(w2, Author.key);
    WithoutKeyFacts(w3, Description.key);
  }

  /** Rows without metadata keys pass through the deletions unchanged. */
  lemma {:induction false} WithoutMetadataNoop(rows: seq<InfoRow>)
    requires Keys(rows) !! MetadataKeys
    ensures WithoutMetadata(rows) == rows
  {
    WithoutKeyFacts(rows, ProjectName.key);
    WithoutKeyFacts(rows, Version.key);
    WithoutKeyFacts(rows, Author.key);
    WithoutKeyFacts(rows, Description.key);
  }

  /** The upsert of the four keys deletes every metadata row. */
  lemma {:induction false} WithoutMetadataOfMetadata()
    ensures WithoutMetadata(Metadata) == []
  {
    WithoutMetadataAppend([ProjectName, Version, Author], [Description]);
    WithoutMetadataAppend([ProjectName, Version], [Author]);
    WithoutMetadataAppend([ProjectName], [Version]);
    WithoutMetadataOfMetadataRow(ProjectName);
    WithoutMetadataOfMetadataRow(Version);
    WithoutMetadataOfMetadataRow(Author);
    WithoutMetadataOfMetadataRow(Description);
    assert Metadata == [ProjectName, Version, Author] + [Description];
    assert [ProjectName, Version, Author] == [ProjectName, Version] + [Author];
    assert [ProjectName, Version] == [ProjectName] + [Version];
  }

  /** Upserting the metadata twice gives the same rows as upserting it once. */
  lemma {:induction false} UpsertMetadataIdempotent(rows: seq<InfoRow>)
    ensures UpsertMetadata(UpsertMetadata(rows)) == UpsertMetadata(rows)
  {
    var x := WithoutMetadata(rows);
    calc {
      UpsertMetadata(UpsertMetadata(rows));
      { UpsertMetadataShape(rows); }
      UpsertMetadata(x + Metadata);
      { UpsertMetadataShape(x + Metadata); }
      WithoutMetadata(x + Metadata) + Metadata;
      { WithoutMetadataAppend(x, Metadata); }
      (WithoutMetadata(x) + WithoutMetadata(Metadata)) + Metadata;
      { WithoutMetadataKeys(rows); WithoutMetadataNoop(x); WithoutMetadataOfMetadata(); }
      (x + []) + Metadata;
      { assert x + [] == x; UpsertMetadataShape(rows); }
      UpsertMetadata(rows);
    }
  }

  /** Init touches `app_info` only through the upserts, the catalogue only
      through the schema, and `users` not at all. */
  lemma {:induction false} InitParts(s: Store, welcomeNow: Timestamp, tipsNow: Timestamp)
    ensures var r := Init(s, welcomeNow, tipsNow);
      && r.tables == ApplySchema(s).tables
      && r.appInfo == UpsertMetadata(s.appInfo)
      && r.users == s.users
  {
  }

  /** After init `app_info` maps the four fixed keys to their fixed values,
      every other key reads as before, and the key set is the old one plus
      the four. */
  lemma {:induction false} InitAppInfo(s: Store, welcomeNow: Timestamp, tipsNow: Timestamp)
    ensures var r := Init(s, welcomeNow, tipsNow);
      && Lookup(r.appInfo, "project_name") == Some("database")
      && Lookup(r.appInfo, "version") == Some("0.1.0")
      && Lookup(r.appInfo, "author") == Some("John Doe")
      && Lookup(r.appInfo, "description") == Some("")
      && (forall k :: k !in MetadataKeys ==> Lookup(r.appInfo, k) == Lookup(s.appInfo, k))
      && Keys(r.appInfo) == Keys(s.appInfo) + MetadataKeys
  {
    InitParts(s, welcomeNow, tipsNow);
    UpsertMetadataFacts(s.appInfo);
  }

  /** `key` stays UNIQUE: an existing key is replaced, not duplicated, so the
      row count afterwards is the number of distinct keys, old and new. */
  lemma {:induction false} InitKeepsKeysUnique(s: Store, welcomeNow: Timestamp, tipsNow: Timestamp)
    requires UniqueKeys(s.appInfo)
    ensures var r := Init(s, welcomeNow, tipsNow);
      && UniqueKeys(r.appInfo)
      && (forall i, j :: 0 <= i < j < |r.appInfo| ==> r.appInfo[i].key != r.appInfo[j].key)
      && |r.appInfo| == |Keys(s.appInfo) + MetadataKeys|
  {
    InitParts(s, welcomeNow, tipsNow);
    UpsertMetadataFacts(s.appInfo);
    UniqueKeysMeaning(UpsertMetadata(s.appInfo));
  }

  /** On an empty `notes` table init appends exactly the two seed rows, in
      order, with the next two AUTOINCREMENT ids; each row's two timestamps
      are its own statement's clock reading. */
  lemma {:induction false} InitSeedsEmptyNotes(s: Store, welcomeNow: Timestamp, tipsNow: Timestamp)
    requires s.notes == []
    ensures var r := Init(s, welcomeNow, tipsNow);
      && r.notes == [Note(FirstNoteId(s.notesSeq), WelcomeTitle, WelcomeContent, welcomeNow, welcomeNow),
                     Note(FirstNoteId(s.notesSeq) + 1, TipsTitle, TipsContent, tipsNow, tipsNow)]
      && r.notesSeq == FirstNoteId(s.notesSeq) + 1
  {
    var a := ApplySchema(s);
    var b := a.(appInfo := UpsertMetadata(a.appInfo));
    assert b.notes == [] && b.notesSeq == s.notesSeq;
    SeedEmptyNotes(b, welcomeNow, tipsNow);
  }

  /** The two seed inserts on an empty `notes` table. */
  lemma {:induction false} SeedEmptyNotes(b: Store, welcomeNow: Timestamp, tipsNow: Timestamp)
    requires b.notes == []
    ensures var r := SeedNotes(b, welcomeNow, tipsNow);
      && r.notes == [Note(FirstNoteId(b.notesSeq), WelcomeTitle, WelcomeContent, welcomeNow, welcomeNow),
                     Note(FirstNoteId(b.notesSeq) + 1, TipsTitle, TipsContent, tipsNow, tipsNow)]
      && r.notesSeq == FirstNoteId(b.notesSeq) + 1
  {
    var c := InsertNote(b, WelcomeTitle, WelcomeContent, welcomeNow);
    assert c.notesSeq == FirstNoteId(b.notesSeq);
    assert MaxId(c.notes, c.notesSeq) == c.notesSeq;
  }

  /** A hand-edited negative `sqlite_sequence` entry does not carry into
      the seed ids: on an empty table AUTOINCREMENT starts from 1. */
  lemma {:induction false} NegativeSequenceSeedsFromOne(welcomeNow: Timestamp, tipsNow: Timestamp)
    ensures var r := Init(Store({NotesTable, SequenceTable}, [], [], [], -5), welcomeNow, tipsNow);
      && |r.notes| == 2 && r.notes[0].id == 1 && r.notes[1].id == 2
      && r.notesSeq == 2
  {
    InitSeedsEmptyNotes(Store({NotesTable, SequenceTable}, [], [], [], -5), welcomeNow, tipsNow);
  }

  /** Init keeps every constraint the engine enforces. */
  lemma {:induction false} InitPreservesValid(s: Store, welcomeNow: Timestamp, tipsNow: Timestamp)
    requires Valid(s)
    ensures Valid(Init(s, welcomeNow, tipsNow))
  {
    InitParts(s, welcomeNow, tipsNow);
    UpsertMetadataFacts(s.appInfo);
  }

  /** Running the routine a second time, at any later clock, leaves the
      modelled store as the first run left it: same tables, same `app_info`
      keys and values in the same order, no further seed rows. (The ids and
      `created_at` of the rewritten `app_info` rows are not modelled.) */
  lemma {:induction false} InitIdempotent(s: Store, t1: Timestamp, t2: Timestamp, t3: Timestamp, t4: Timestamp)
    ensures Init(Init(s, t1, t2), t3, t4) == Init(s, t1, t2)
  {
    var r := Init(s, t1, t2);
    InitParts(s, t1, t2);
    assert SchemaTables <= r.tables;
    assert ApplySchema(r) == r;
    UpsertMetadataIdempotent(s.appInfo);
    assert r.(appInfo := UpsertMetadata(r.appInfo)) == r;
    assert r.notes != [];
  }

  /** On a file that did not exist, the script reports 3 tables (the three
      it declares; `sqlite_sequence` is excluded) and 4 `app_info` records,
      and `notes` holds the two seed rows. */
  lemma {:induction false} FreshStoreStats(welcomeNow: Timestamp, tipsNow: Timestamp)
    ensures var r := Init(Empty, welcomeNow, tipsNow);
      && r.tables == {AppInfoTable, UsersTable, NotesTable, SequenceTable}
      && Stats(r) == Statistics(3, 4)
      && |r.notes| == 2
  {
    var r := Init(Empty, welcomeNow, tipsNow);
    InitTables(Empty, welcomeNow, tipsNow);
    assert !(SchemaTables <= Empty.tables) by {
      assert AppInfoTable !in Empty.tables;
    }
    assert r.tables == {AppInfoTable, UsersTable, NotesTable, SequenceTable};
    FreshUserTables();
    assert |UserTables(r.tables)| == 3;
    FreshRecords(welcomeNow, tipsNow);
    assert |r.appInfo| == 4;
  }

  /** On the catalogue a fresh file ends with, the statistics query counts
      exactly the three declared tables. */
  lemma {:induction false} FreshUserTables()
    ensures UserTables({AppInfoTable, UsersTable, NotesTable, SequenceTable}) == SchemaTables
    ensures |SchemaTables| == 3
  {
    assert !LikeSqlitePattern(AppInfoTable) by {
      assert AsciiLower(AppInfoTable[0]) != "sqlite"[0];
    }
  }

  /** On a fresh file `app_info` ends with exactly the four metadata rows. */
  lemma {:induction false} FreshRecords(welcomeNow: Timestamp, tipsNow: Timestamp)
    ensures Init(Empty, welcomeNow, tipsNow).appInfo == Metadata
  {
    InitParts(Empty, welcomeNow, tipsNow);
    UpsertMetadataShape([]);
    assert WithoutMetadata([]) == [];
  }

  /** The three declared tables are counted whenever they exist. */
  lemma {:induction false} SchemaTablesCounted(tables: set<string>)
    requires SchemaTables <= tables
    ensures SchemaTables <= UserTables(tables)
    ensures |UserTables(tables)| >= 3
  {
    var u := UserTables(tables);
    assert AsciiLower(AppInfoTable[0]) != "sqlite"[0];
    assert SchemaTables <= u;
    assert |SchemaTables| == 3;
    assert u == SchemaTables + (u - SchemaTables);
    assert SchemaTables * (u - SchemaTables) == {};
  }

  /** Whatever the store, after init the report counts at least the three
      declared tables and at least the four metadata records. */
  lemma {:induction false} InitStatsBounds(s: Store, welcomeNow: Timestamp, tipsNow: Timestamp)
    ensures var st := Stats(Init(s, welcomeNow, tipsNow));
      st.tableCount >= 3 && st.recordCount >= 4
  {
    var r := Init(s, welcomeNow, tipsNow);
    UpsertMetadataShape(ApplySchema(s).appInfo);
    assert |r.appInfo| >= |Metadata|;
    InitTables(s, welcomeNow, tipsNow);
    SchemaTablesCounted(r.tables);
  }
}
