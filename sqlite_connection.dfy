/** An open `sqlite3` connection and its cursor: the database state lives in
    the fields, and each statement the initialisation script executes is a
    method that updates them in place, specified by the matching function of
    SqliteStore. */
module SqliteConnection {
  import opened SqliteStore

  class Connection {
    var tables: set<string>
    var appInfo: seq<InfoRow>
    var users: seq<User>
    var notes: seq<Note>
    var notesSeq: int

    /** The database as a value. */
    function State(): Store
      reads this
    {
      Store(tables, appInfo, users, notes, notesSeq)
    }

    /** `sqlite3.connect(path)`: opens the file's current contents. */
    constructor Open(file: Store)
      ensures State() == file
    {
      tables := file.tables;
      appInfo := file.appInfo;
      users := file.users;
      notes := file.notes;
      notesSeq := file.notesSeq;
    }

    /** `CREATE TABLE IF NOT EXISTS name (id INTEGER PRIMARY KEY AUTOINCREMENT, ...)`. */
    method CreateTableIfNotExists(name: string)
      modifies this
      ensures State() == CreateTable(old(State()), name)
      ensures name in tables && old(tables) <= tables
    {
      if name !in tables {
        tables := tables + {name, SequenceTable};
      }
    }

    /** `INSERT OR REPLACE INTO app_info (key, value) VALUES (?, ?)`. */
    method InsertOrReplaceAppInfo(key: string, value: string)
      modifies this
      ensures State() == old(State()).(appInfo := InsertOrReplace(old(appInfo), key, value))
      ensures Lookup(appInfo, key) == Some(value)
      ensures old(UniqueKeys(appInfo)) ==> UniqueKeys(appInfo)
    {
      InsertOrReplaceFacts(appInfo, key, value);
      appInfo := InsertOrReplace(appInfo, key, value);
    }

    /** `SELECT COUNT(*) FROM notes`. */
    method CountNotes() returns (n: nat)
      ensures n == |notes|
      ensures n == 0 <==> notes == []
    {
      n := |notes|;
    }

    /** `INSERT INTO notes (title, content, created_at, updated_at)
        VALUES (?, ?, datetime('now'), datetime('now'))`, where `now` is the
        clock as this statement reads it. */
    method InsertNote(title: string, content: string, now: Timestamp)
      modifies this
      ensures State() == SqliteStore.InsertNote(old(State()), title, content, now)
      ensures notes == old(notes) + [Note(notesSeq, title, content, now, now)]
      ensures notesSeq > old(notesSeq)
    {
      var id := NextNoteId(State());
      notes := notes + [Note(id, title, content, now, now)];
      notesSeq := id;
    }

    /** `SELECT COUNT(*) FROM sqlite_master WHERE type='table' AND name NOT LIKE 'sqlite_%'`. */
    method CountUserTables() returns (n: nat)
      ensures n == |UserTables(tables)|
      ensures forall t :: t in tables && !LikeSqlitePattern(t) ==> n > 0
    {
      n := |UserTables(tables)|;
    }

    /** `SELECT COUNT(*) FROM app_info`. */
    method CountAppInfo() returns (n: nat)
      ensures n == |appInfo|
      ensures n >= |Keys(appInfo)|
    {
      KeysAtMostRows(appInfo);
      n := |appInfo|;
    }
  }
}
