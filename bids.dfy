/** The `bid` table: storing a BidSuccessful event as a bid row, and the two
    queries that list the bids still to pin and the bids still to validate. */
module Bids {
  import opened Common
  import opened Records
  import opened Db

  /** The event arguments `store_bid` binds, read as attributes of the
      argument mapping. */
  datatype BidInfo = BidInfo(bidId: Value, bidder: Value, bidValue: Value, validationPool: Value,
                             fileSize: Value, fileHash: Value)

  /** `evnt['args'].<name>`: AttributeError when the mapping has no such key. */
  function Attr(ev: Event, name: string): (r: Result<Value>)
    ensures r.Ok? <==> Lookup(ev.args, name).Some?
    ensures r.Ok? ==> r.value == Lookup(ev.args, name).value
    ensures r.Err? ==> r.error == AttributeError
  {
    match Lookup(ev.args, name)
    case None => Err(AttributeError)
    case Some(v) => Ok(v)
  }

  function BidInfoOf(ev: Event): Result<BidInfo>
  {
    var bidId :- Attr(ev, "bidId");
    var bidder :- Attr(ev, "bidder");
    var bidValue :- Attr(ev, "bidValue");
    var validationPool :- Attr(ev, "validationPool");
    var fileSize :- Attr(ev, "fileSize");
    var fileHash :- Attr(ev, "fileHash");
    Ok(BidInfo(bidId, bidder, bidValue, validationPool, fileSize, fileHash))
  }

  /** Every bound integer fits SQLite's 64 bits. */
  predicate InfoFits(b: BidInfo)
  {
    FitsSqlite(b.bidId) && FitsSqlite(b.bidder) && FitsSqlite(b.bidValue)
    && FitsSqlite(b.validationPool) && FitsSqlite(b.fileSize) && FitsSqlite(b.fileHash)
  }

  /** The row the INSERT writes: the seven bound columns, NULL elsewhere. */
  function NewBidRow(txHash: string, b: BidInfo): BidRow
  {
    BidRow(txHash, Bound(b.bidId), Bound(b.bidder), Bound(b.bidValue), Bound(b.validationPool),
           Bound(b.fileHash), Bound(b.fileSize), Null, Null, Null, Null, Null, Null)
  }

  /** What `store_bid` needs to get past its checks: the BidSuccessful name,
      the six arguments, the `bid` table and 64-bit integers. */
  predicate BidAccepted(tables: set<string>, ev: Event)
  {
    ev.name == "BidSuccessful" && BidInfoOf(ev).Ok? && "bid" in tables && InfoFits(BidInfoOf(ev).value)
  }

  /** `store_bid(conn, evnt)`: AssertionError for another event name;
      AttributeError for a missing argument; OperationalError without a
      `bid` table; OverflowError for an integer wider than 64 bits; a silent
      no-op when the tx_hash or the bid_id is already stored; otherwise one
      new row. */
  function StoreBidSpec(st: DbState, ev: Event): (Option<Error>, DbState)
  {
    if ev.name != "BidSuccessful" then (Some(AssertionError), st)
    else match BidInfoOf(ev)
      case Err(e) => (Some(e), st)
      case Ok(b) =>
        if "bid" !in st.tables then (Some(OperationalError), st)
        else if !InfoFits(b) then (Some(OverflowError), st)
        else if BidClash(st.bids, ev.txhash, Bound(b.bidId)) then (None, st)
        else (None, st.(bids := st.bids + [NewBidRow(ev.txhash, b)]))
  }

  /** `store_bid` succeeds exactly when its checks pass; it only ever
      appends to `bid`, and then a row with the event's tx_hash or bid_id is
      stored. */
  lemma StoreBidFacts(st: DbState, ev: Event)
    ensures var (err, st') := StoreBidSpec(st, ev);
      && (err.None? <==> BidAccepted(st.tables, ev))
      && (ev.name != "BidSuccessful" ==> err == Some(AssertionError))
      && st'.tables == st.tables && st'.events == st.events && st'.actionTypes == st.actionTypes
      && st.bids <= st'.bids && |st'.bids| <= |st.bids| + 1
      && (err.None? ==> BidClash(st'.bids, ev.txhash, Bound(BidInfoOf(ev).value.bidId)))
      && (err.Some? ==> st' == st)
  {
    var (err, st') := StoreBidSpec(st, ev);
    if err.None? {
      var b := BidInfoOf(ev).value;
      if !BidClash(st.bids, ev.txhash, Bound(b.bidId)) {
        assert st'.bids[|st.bids|].txHash == ev.txhash;
      }
    }
  }

  /** A bid whose tx_hash or bid_id is already stored leaves the file
      exactly as it was, whatever its other fields. */
  lemma StoreBidDuplicate(st: DbState, ev: Event)
    requires BidAccepted(st.tables, ev)
    requires BidClash(st.bids, ev.txhash, Bound(BidInfoOf(ev).value.bidId))
    ensures StoreBidSpec(st, ev) == (None, st)
  {
  }

  /** Storing the same bid twice is storing it once, whether the first
      call raised or not. */
  lemma StoreBidIdempotent(st: DbState, ev: Event)
    ensures StoreBidSpec(StoreBidSpec(st, ev).1, ev) == StoreBidSpec(st, ev)
  {
    StoreBidFacts(st, ev);
  }

  /** `store_bid` keeps the UNIQUE constraints of `bid`. */
  lemma StoreBidKeepsConsistent(st: DbState, ev: Event)
    requires Consistent(st)
    ensures Consistent(StoreBidSpec(st, ev).1)
  {
    var (err, st') := StoreBidSpec(st, ev);
    if err.None? && st' != st {
      var b := BidInfoOf(ev).value;
      var row := NewBidRow(ev.txhash, b);
      assert st'.bids == st.bids + [row];
      forall i, j | 0 <= i < j < |st'.bids|
        ensures st'.bids[i].txHash != st'.bids[j].txHash
             && (st'.bids[i].bidId == Null || st'.bids[i].bidId != st'.bids[j].bidId)
      {
        if j == |st.bids| {
          assert st'.bids[i] == st.bids[i];
          assert !(st.bids[i].txHash == ev.txhash || (Bound(b.bidId) != Null && st.bids[i].bidId == Bound(b.bidId)));
        }
      }
    }
  }

  /** `store_bid(conn, evnt)`. */
  method StoreBid(db: Database, ev: Event) returns (err: Option<Error>)
    modifies db
    ensures (err, db.State()) == StoreBidSpec(old(db.State()), ev)
  {
    if ev.name != "BidSuccessful" {
      return Some(AssertionError);
    }
    var info := BidInfoOf(ev);
    if info.Err? {
      return Some(info.error);
    }
    var b := info.value;
    if "bid" !in db.tables {
      return Some(OperationalError);
    }
    if !InfoFits(b) {
      return Some(OverflowError);
    }
    var clash := exists i :: 0 <= i < |db.bids| &&
                   (db.bids[i].txHash == ev.txhash || (Bound(b.bidId) != Null && db.bids[i].bidId == Bound(b.bidId)));
    if clash {
      return None;
    }
    db.bids := db.bids + [NewBidRow(ev.txhash, b)];
    return None;
  }

  // ---------------------------------------------------------------------------
  // The two queries
  // ---------------------------------------------------------------------------

  /** SQL `column = true` and `column = false`: SQLite keeps booleans as 1
      and 0, and a NULL column matches neither. */
  predicate SqlTrue(v: Value) { v == Int(1) || v == Bool(true) }
  predicate SqlFalse(v: Value) { v == Int(0) || v == Bool(false) }

  /** SQL `column != :me`: NULL when the column is NULL, so such a row never
      matches. */
  predicate SqlDiffers(v: Value, me: string) { v != Null && v != Str(me) }

  /** The WHERE clause of `get_bids_to_pin`. */
  predicate AwaitingPin(row: BidRow, me: string)
  {
    SqlDiffers(row.bidder, me) && SqlFalse(row.pinned)
  }

  /** The WHERE clause of `get_bids_to_validate`. */
  predicate AwaitingValidation(row: BidRow, me: string)
  {
    SqlDiffers(row.hoster, me) && SqlTrue(row.pinned) && (row.validated == Null || SqlFalse(row.validated))
  }

  datatype PinRecord = PinRecord(bidId: Value, bidder: Value, fileHash: Value, fileSize: Value, validated: Value)
  datatype ValidateRecord = ValidateRecord(bidId: Value, hoster: Value, fileHash: Value, fileSize: Value, validated: Value)

  function PinRecordOf(row: BidRow): PinRecord
  {
    PinRecord(row.bidId, row.bidder, row.fileHash, row.fileSize, row.validated)
  }

  function ValidateRecordOf(row: BidRow): ValidateRecord
  {
    ValidateRecord(row.bidId, row.hoster, row.fileHash, row.fileSize, row.validated)
  }

  /** The rows the SELECT of `get_bids_to_pin` returns, in table order. */
  function PinRows(rows: seq<BidRow>, me: string): seq<BidRow>
  {
    if rows == [] then []
    else (if AwaitingPin(rows[0], me) then [rows[0]] else []) + PinRows(rows[1..], me)
  }

  /** The rows the SELECT of `get_bids_to_validate` returns, in table order. */
  function ValidateRows(rows: seq<BidRow>, me: string): seq<BidRow>
  {
    if rows == [] then []
    else (if AwaitingValidation(rows[0], me) then [rows[0]] else []) + ValidateRows(rows[1..], me)
  }

  lemma {:induction false} PinRowsExact(rows: seq<BidRow>, me: string)
    ensures |PinRows(rows, me)| <= |rows|
    ensures forall row :: row in PinRows(rows, me) <==> row in rows && AwaitingPin(row, me)
  {
    if rows != [] {
      PinRowsExact(rows[1..], me);
      assert forall row :: row in rows <==> row == rows[0] || row in rows[1..];
    }
  }

  lemma {:induction false} ValidateRowsExact(rows: seq<BidRow>, me: string)
    ensures |ValidateRows(rows, me)| <= |rows|
    ensures forall row :: row in ValidateRows(rows, me) <==> row in rows && AwaitingValidation(row, me)
  {
    if rows != [] {
      ValidateRowsExact(rows[1..], me);
      assert forall row :: row in rows <==> row == rows[0] || row in rows[1..];
    }
  }

  /** A freshly stored bid is neither awaiting a pin nor awaiting
      validation: its `pinned` column is NULL. */
  lemma NewBidListedNowhere(txHash: string, b: BidInfo, me: string)
    ensures !AwaitingPin(NewBidRow(txHash, b), me) && !AwaitingValidation(NewBidRow(txHash, b), me)
  {
  }

  /** No bid row has a `pinned` value: what every file written only by
      `init_structure`, `store_events` and `store_bid` looks like, since
      none of them sets the column. */
  predicate NothingPinned(st: DbState)
  {
    forall i :: 0 <= i < |st.bids| ==> st.bids[i].pinned == Null
  }

  /** `store_bid` never sets `pinned`. */
  lemma StoreBidNeverPins(st: DbState, ev: Event)
    requires NothingPinned(st)
    ensures NothingPinned(StoreBidSpec(st, ev).1)
  {
    var st' := StoreBidSpec(st, ev).1;
    forall i | 0 <= i < |st'.bids| ensures st'.bids[i].pinned == Null {
      if i >= |st.bids| {
        assert st'.bids[i] == NewBidRow(ev.txhash, BidInfoOf(ev).value);
      }
    }
  }

  /** On such a file both queries come back empty, for every address. */
  lemma {:induction false} UnpinnedAwaitsNothing(rows: seq<BidRow>, me: string)
    requires forall i :: 0 <= i < |rows| ==> rows[i].pinned == Null
    ensures PinRows(rows, me) == [] && ValidateRows(rows, me) == []
  {
    if rows != [] {
      UnpinnedAwaitsNothing(rows[1..], me);
    }
  }

  /** What `get_bids_to_pin(conn, my_address)` returns: OperationalError
      without a `bid` table; otherwise one record per row whose bidder is not
      NULL and not me and whose `pinned` is false, in table order, with the
      five columns copied from it. */
  function ToPin(st: DbState, me: string): (r: Result<seq<PinRecord>>)
    ensures r.Err? <==> "bid" !in st.tables
    ensures r.Err? ==> r.error == OperationalError
    ensures r.Ok? ==> |r.value| == |PinRows(st.bids, me)|
                      && forall k :: 0 <= k < |r.value| ==> r.value[k] == PinRecordOf(PinRows(st.bids, me)[k])
    ensures r.Ok? ==> forall p :: p in r.value <==> exists row :: row in st.bids && AwaitingPin(row, me) && p == PinRecordOf(row)
  {
    if "bid" !in st.tables then Err(OperationalError)
    else
      PinListing(st.bids, me);
      Ok(PinRecordsOf(PinRows(st.bids, me)))
  }

  function PinRecordsOf(rows: seq<BidRow>): (recs: seq<PinRecord>)
    ensures |recs| == |rows| && forall k :: 0 <= k < |rows| ==> recs[k] == PinRecordOf(rows[k])
  {
    seq(|rows|, k requires 0 <= k < |rows| => PinRecordOf(rows[k]))
  }

  lemma PinListing(bids: seq<BidRow>, me: string)
    ensures forall p :: p in PinRecordsOf(PinRows(bids, me)) <==> exists row :: row in bids && AwaitingPin(row, me) && p == PinRecordOf(row)
  {
    var rows := PinRows(bids, me);
    var recs := PinRecordsOf(rows);
    PinRowsExact(bids, me);
    forall k | 0 <= k < |recs| ensures rows[k] in bids && AwaitingPin(rows[k], me) {
      assert rows[k] in rows;
    }
    forall row | row in bids && AwaitingPin(row, me) ensures PinRecordOf(row) in recs {
      assert row in rows;
      var k :| 0 <= k < |rows| && rows[k] == row;
      assert recs[k] == PinRecordOf(row);
    }
  }

  /** What `get_bids_to_validate(conn, my_address)` returns: OperationalError
      without a `bid` table; otherwise one record per row whose hoster is not
      NULL and not me, whose `pinned` is true and whose `validated` is NULL or
      false, in table order, with the five columns copied from it. */
  function ToValidate(st: DbState, me: string): (r: Result<seq<ValidateRecord>>)
    ensures r.Err? <==> "bid" !in st.tables
    ensures r.Err? ==> r.error == OperationalError
    ensures r.Ok? ==> |r.value| == |ValidateRows(st.bids, me)|
                      && forall k :: 0 <= k < |r.value| ==> r.value[k] == ValidateRecordOf(ValidateRows(st.bids, me)[k])
    ensures r.Ok? ==> forall p :: p in r.value <==>
                        exists row :: row in st.bids && AwaitingValidation(row, me) && p == ValidateRecordOf(row)
  {
    if "bid" !in st.tables then Err(OperationalError)
    else
      ValidateListing(st.bids, me);
      Ok(ValidateRecordsOf(ValidateRows(st.bids, me)))
  }

  function ValidateRecordsOf(rows: seq<BidRow>): (recs: seq<ValidateRecord>)
    ensures |recs| == |rows| && forall k :: 0 <= k < |rows| ==> recs[k] == ValidateRecordOf(rows[k])
  {
    seq(|rows|, k requires 0 <= k < |rows| => ValidateRecordOf(rows[k]))
  }

  lemma ValidateListing(bids: seq<BidRow>, me: string)
    ensures forall p :: p in ValidateRecordsOf(ValidateRows(bids, me)) <==> exists row :: row in bids && AwaitingValidation(row, me) && p == ValidateRecordOf(row)
  {
    var rows := ValidateRows(bids, me);
    var recs := ValidateRecordsOf(rows);
    ValidateRowsExact(bids, me);
    forall k | 0 <= k < |recs| ensures rows[k] in bids && AwaitingValidation(rows[k], me) {
      assert rows[k] in rows;
    }
    forall row | row in bids && AwaitingValidation(row, me) ensures ValidateRecordOf(row) in recs {
      assert row in rows;
      var k :| 0 <= k < |rows| && rows[k] == row;
      assert recs[k] == ValidateRecordOf(row);
    }
  }

  /** `get_bids_to_pin(conn, my_address)`. */
  method GetBidsToPin(db: Database, me: string) returns (r: Result<seq<PinRecord>>)
    ensures r == ToPin(db.State(), me)
  {
    if "bid" !in db.tables {
      return Err(OperationalError);
    }
    var res := PinRows(db.bids, me);
    var bids: seq<PinRecord> := [];
    if |res| < 1 {
      assert bids == ToPin(db.State(), me).value;
      return Ok(bids);
    }
    for i := 0 to |res|
      invariant |bids| == i
      invariant forall k :: 0 <= k < i ==> bids[k] == PinRecordOf(res[k])
    {
      bids := bids + [PinRecordOf(res[i])];
    }
    assert bids == ToPin(db.State(), me).value;
    return Ok(bids);
  }

  /** `get_bids_to_validate(conn, my_address)`. */
  method GetBidsToValidate(db: Database, me: string) returns (r: Result<seq<ValidateRecord>>)
    ensures r == ToValidate(db.State(), me)
  {
    if "bid" !in db.tables {
      return Err(OperationalError);
    }
    var res := ValidateRows(db.bids, me);
    var bids: seq<ValidateRecord> := [];
    if |res| < 1 {
      assert bids == ToValidate(db.State(), me).value;
      return Ok(bids);
    }
    for i := 0 to |res|
      invariant |bids| == i
      invariant forall k :: 0 <= k < i ==> bids[k] == ValidateRecordOf(res[k])
    {
      bids := bids + [ValidateRecordOf(res[i])];
    }
    assert bids == ToValidate(db.State(), me).value;
    return Ok(bids);
  }
}
