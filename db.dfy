/** The SQLite file of the daemon: its table catalogue, the rows of the
    tables the daemon reads and writes, the schema set-up run on first
    connection, and the process-wide cached connection.

    The file is a `Database` object whose fields are the catalogue and the
    rows; `DbState` is its value, on which the specifications are stated.
    Opening a path on disk is not modelled: `Connector.Connect` is handed the
    database that the path names. */
module Db {
  import opened Common
  import opened Records

  /** The tables whose presence means the schema exists. */
  const TABLES: seq<string> := ["event", "bid", "action", "action_type"]

  /** The order in which the schema set-up creates them. */
  const CREATE_ORDER: seq<string> := ["event", "action_type", "bid", "action"]

  /** The rows the schema set-up puts into `action_type`. */
  const ACTION_TYPES: seq<string> := ["validation", "host"]

  /** A row of `event`; `args` is the argument mapping whose JSON text the
      column holds. */
  datatype EventRow = EventRow(txHash: string, blockNumber: int, name: string, args: Args)

  /** A row of `bid`; every column except `tx_hash` may be NULL. */
  datatype BidRow = BidRow(
    txHash: string, bidId: Value, bidder: Value, bidValue: Value, validationPool: Value,
    fileHash: Value, fileSize: Value, hoster: Value, pinned: Value, pinnedTxhash: Value,
    accepted: Value, acceptedTxhash: Value, validated: Value)

  /** The catalogue (`sqlite_master`'s table names) and the rows of the
      `event`, `bid` and `action_type` tables. The `action` table never
      receives rows. */
  datatype DbState = DbState(tables: set<string>, events: seq<EventRow>, bids: seq<BidRow>, actionTypes: seq<string>)

  /** A value as the sqlite3 module binds it: Python booleans are integers. */
  function Bound(v: Value): (r: Value)
    ensures !r.Bool?
    ensures !v.Bool? ==> r == v
  {
    if v.Bool? then Int(if v.b then 1 else 0) else v
  }

  /** The unique index `event_single` on (tx_hash, name). */
  predicate EventKeysUnique(rows: seq<EventRow>)
  {
    forall i, j :: 0 <= i < j < |rows| ==> (rows[i].txHash, rows[i].name) != (rows[j].txHash, rows[j].name)
  }

  /** A stored event with this transaction hash and name. */
  predicate HasEventKey(rows: seq<EventRow>, txHash: string, name: string)
  {
    exists i :: 0 <= i < |rows| && rows[i].txHash == txHash && rows[i].name == name
  }

  /** The UNIQUE columns of `bid`: no two rows share a tx_hash, and no two
      share a bid_id (SQL NULLs never clash with each other). */
  predicate BidKeysUnique(rows: seq<BidRow>)
  {
    forall i, j :: 0 <= i < j < |rows| ==>
      rows[i].txHash != rows[j].txHash && (rows[i].bidId == Null || rows[i].bidId != rows[j].bidId)
  }

  /** Inserting a bid with these keys would violate a UNIQUE constraint. */
  predicate BidClash(rows: seq<BidRow>, txHash: string, bidId: Value)
  {
    exists i :: 0 <= i < |rows| && (rows[i].txHash == txHash || (bidId != Null && rows[i].bidId == bidId))
  }

  /** What SQLite guarantees of any file: a table that is not in the
      catalogue has no rows, and the UNIQUE constraints hold. */
  predicate Consistent(st: DbState)
  {
    && ("event" !in st.tables ==> st.events == [])
    && ("bid" !in st.tables ==> st.bids == [])
    && ("action_type" !in st.tables ==> st.actionTypes == [])
    && EventKeysUnique(st.events)
    && BidKeysUnique(st.bids)
  }

  /** A file no statement has touched. */
  function Empty(): DbState
  {
    DbState({}, [], [], [])
  }

  /** Every table of TABLES is in the catalogue. */
  predicate StructureOk(st: DbState)
  {
    forall t :: t in TABLES ==> t in st.tables
  }

  // ---------------------------------------------------------------------------
  // Schema set-up
  // ---------------------------------------------------------------------------

  /** The CREATE TABLE statements, in order: the first name already in the
      catalogue raises OperationalError, and the tables created before it
      stay (a CREATE outside a transaction takes effect at once). */
  function CreateTables(st: DbState, names: seq<string>): (Option<Error>, DbState)
    decreases |names|
  {
    if names == [] then (None, st)
    else if names[0] in st.tables then (Some(OperationalError), st)
    else CreateTables(st.(tables := st.tables + {names[0]}), names[1..])
  }

  /** `init_structure(connect)`: the four CREATE statements, then the two
      `action_type` rows. */
  function InitSpec(st: DbState): (Option<Error>, DbState)
  {
    var (err, st') := CreateTables(st, CREATE_ORDER);
    if err.Some? then (err, st')
    else (None, st'.(actionTypes := st'.actionTypes + ACTION_TYPES))
  }

  lemma {:induction false} CreateTablesFacts(st: DbState, names: seq<string>)
    requires forall i, j :: 0 <= i < j < |names| ==> names[i] != names[j]
    ensures var (err, st') := CreateTables(st, names);
      && (err.None? <==> forall n :: n in names ==> n !in st.tables)
      && (err.Some? ==> err.value == OperationalError)
      && (err.None? ==> st'.tables == st.tables + set n | n in names)
      && st.tables <= st'.tables
      && st'.events == st.events && st'.bids == st.bids && st'.actionTypes == st.actionTypes
    decreases |names|
  {
    if names != [] {
      var st1 := st.(tables := st.tables + {names[0]});
      CreateTablesFacts(st1, names[1..]);
      assert forall n :: n in names <==> n == names[0] || n in names[1..];
      assert names[0] !in names[1..] by {
        forall k | 0 <= k < |names[1..]| ensures names[1..][k] != names[0] {
          assert names[1..][k] == names[k + 1];
        }
      }
    }
  }

  /** Set-up succeeds exactly when none of the four tables exists yet. On a
      file without them it leaves every table of TABLES in the catalogue,
      `action_type` holding exactly 'validation' then 'host' after what was
      there, and the other tables as they were. */
  lemma InitSpecFacts(st: DbState)
    ensures var (err, st') := InitSpec(st);
      && (err.None? <==> forall t :: t in TABLES ==> t !in st.tables)
      && (err.Some? ==> err.value == OperationalError)
      && (err.None? ==> StructureOk(st') && st'.tables == st.tables + set t | t in TABLES
                        && st'.actionTypes == st.actionTypes + ACTION_TYPES)
      && st'.events == st.events && st'.bids == st.bids && st.tables <= st'.tables
  {
    assert forall i, j :: 0 <= i < j < |CREATE_ORDER| ==> CREATE_ORDER[i] != CREATE_ORDER[j];
    CreateTablesFacts(st, CREATE_ORDER);
    assert forall t :: t in TABLES <==> t in CREATE_ORDER by {
      assert TABLES == ["event", "bid", "action", "action_type"];
      assert CREATE_ORDER == ["event", "action_type", "bid", "action"];
    }
  }

  /** On a new file, set-up succeeds and leaves `event` and `bid` empty and
      `action_type` holding exactly ['validation', 'host']. */
  lemma InitEmpty()
    ensures var (err, st) := InitSpec(Empty());
      err.None? && StructureOk(st) && st.events == [] && st.bids == [] && st.actionTypes == ["validation", "host"]
  {
    InitSpecFacts(Empty());
  }

  /** A file holding some of the tables but not all of them can never be
      set up: the first CREATE of an existing table raises. */
  lemma InitPartialFails(st: DbState, t: string)
    requires t in TABLES && t in st.tables
    ensures InitSpec(st).0 == Some(OperationalError)
  {
    InitSpecFacts(st);
  }

  /** Set-up keeps a file consistent. */
  lemma InitKeepsConsistent(st: DbState)
    requires Consistent(st)
    ensures Consistent(InitSpec(st).1)
  {
    InitSpecFacts(st);
  }

  /** What `connect` does to the file it connects to: set-up when the
      schema is missing, nothing otherwise. */
  function ConnectSpec(st: DbState): (Option<Error>, DbState)
  {
    if StructureOk(st) then (None, st) else InitSpec(st)
  }

  /** An initialised file is never set up again, a successful connection
      leaves the schema in place, and connecting a second time changes
      nothing. */
  lemma ConnectSpecFacts(st: DbState)
    ensures StructureOk(st) ==> ConnectSpec(st) == (None, st)
    ensures ConnectSpec(st).0.None? ==> StructureOk(ConnectSpec(st).1)
    ensures ConnectSpec(st).0.None? ==> ConnectSpec(ConnectSpec(st).1) == ConnectSpec(st)
    ensures Consistent(st) ==> Consistent(ConnectSpec(st).1)
  {
    InitSpecFacts(st);
    if Consistent(st) && !StructureOk(st) {
      InitKeepsConsistent(st);
    }
  }

  // ---------------------------------------------------------------------------
  // The file and the connection
  // ---------------------------------------------------------------------------

  class Database {
    var tables: set<string>
    var events: seq<EventRow>
    var bids: seq<BidRow>
    var actionTypes: seq<string>

    function State(): DbState
      reads this
    {
      DbState(tables, events, bids, actionTypes)
    }

    /** A new, empty file. */
    constructor ()
      ensures State() == Empty()
    {
      tables := {};
      events := [];
      bids := [];
      actionTypes := [];
    }
  }

  /** `structure_exists(connect)`: looks up the tables of TABLES in order
      and answers false at the first one missing. */
  method StructureExists(db: Database) returns (b: bool)
    ensures b <==> StructureOk(db.State())
  {
    for i := 0 to |TABLES|
      invariant forall k :: 0 <= k < i ==> TABLES[k] in db.tables
    {
      if TABLES[i] !in db.tables {
        return false;
      }
    }
    return true;
  }

  /** One CREATE TABLE statement. */
  method CreateTable(db: Database, name: string) returns (err: Option<Error>)
    modifies db
    ensures (err, db.State()) == CreateTables(old(db.State()), [name])
  {
    if name in db.tables {
      return Some(OperationalError);
    }
    db.tables := db.tables + {name};
    return None;
  }

  /** `init_structure(connect)`. */
  method InitStructure(db: Database) returns (err: Option<Error>)
    modifies db
    ensures (err, db.State()) == InitSpec(old(db.State()))
  {
    ghost var st0 := db.State();
    var order := CREATE_ORDER;
    assert order[1..] == ["action_type", "bid", "action"];
    assert order[2..] == ["bid", "action"];
    assert order[3..] == ["action"];
    err := CreateTable(db, "event");
    if err.Some? {
      return;
    }
    assert CreateTables(st0, order) == CreateTables(db.State(), order[1..]);
    err := CreateTable(db, "action_type");
    if err.Some? {
      return;
    }
    assert CreateTables(st0, order) == CreateTables(db.State(), order[2..]);
    err := CreateTable(db, "bid");
    if err.Some? {
      return;
    }
    assert CreateTables(st0, order) == CreateTables(db.State(), order[3..]);
    err := CreateTable(db, "action");
    if err.Some? {
      return;
    }
    ghost var created := db.State();
    assert CreateTables(st0, order) == (None, created);
    db.actionTypes := db.actionTypes + ["validation"];
    db.actionTypes := db.actionTypes + ["host"];
    assert db.actionTypes == created.actionTypes + ACTION_TYPES;
  }

  /** The process-wide `cached_connection` and the two functions that use
      it. */
  class Connector {
    var cached: Database?

    /** At start-up there is no cached connection. */
    constructor ()
      ensures cached == null
    {
      cached := null;
    }

    /** `connect(filename)`, with `file` the database the path names: the
        first file connected to is cached and every later call uses it
        whatever file it is given; the schema is set up only when
        `structure_exists` is false, and the cached connection is
        returned unless set-up raised. */
    method Connect(file: Database) returns (r: Result<Database>)
      modifies this, if cached == null then file else cached
      ensures cached == if old(cached) == null then file else old(cached)
      ensures cached != null
      ensures var c := cached;
        var (err, st) := ConnectSpec(old(c.State()));
        c != null && c.State() == st && (if err.None? then r.Ok? && r.value == c else r == Err(err.value))
    {
      if cached == null {
        cached := file;
      }
      var present := StructureExists(cached);
      if !present {
        var err := InitStructure(cached);
        if err.Some? {
          return Err(err.value);
        }
      }
      return Ok(cached);
    }

    /** `cursor(filename)`: a cursor on the cached connection, connecting to
        `filename` first when there is none; with neither it raises. */
    method Cursor(filename: Option<Database>) returns (r: Result<Database>)
      modifies this, if cached == null && filename.Some? then filename.value else null
      ensures old(cached) == null && filename.None? ==> r == Err(CursorError) && cached == null
      ensures old(cached) != null ==> r.Ok? && r.value == old(cached) && cached == old(cached)
      ensures old(cached) == null && filename.Some? ==>
        cached == filename.value &&
        var (err, st) := ConnectSpec(old(filename.value.State()));
        filename.value.State() == st && (if err.None? then r.Ok? && r.value == filename.value else r == Err(err.value))
    {
      if cached == null {
        if filename.None? {
          return Err(CursorError);
        }
        r := Connect(filename.value);
        if r.Err? {
          return;
        }
      }
      return Ok(cached);
    }
  }
}
