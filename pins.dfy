/** The `pin` table's writer, `store_pin`: it reads three arguments of a
    Pinned event and INSERTs them into `pin`, a table the daemon's schema
    does not have. The `pin` rows themselves are not modelled. */
module Pins {
  import opened Common
  import opened Records
  import opened Db
  import opened Bids

  /** The event arguments `store_pin` binds. */
  datatype PinInfo = PinInfo(bidId: Value, hoster: Value, fileHash: Value)

  /** The parameter dictionary is built before the statement runs, key by
      key, so a missing argument raises AttributeError first. */
  function PinInfoOf(ev: Event): Result<PinInfo>
  {
    var bidId :- Attr(ev, "bidId");
    var hoster :- Attr(ev, "hoster");
    var fileHash :- Attr(ev, "fileHash");
    Ok(PinInfo(bidId, hoster, fileHash))
  }

  /** What `store_pin` needs to get past its checks. */
  predicate PinAccepted(tables: set<string>, ev: Event)
  {
    && ev.name == "Pinned" && PinInfoOf(ev).Ok? && "pin" in tables
    && var p := PinInfoOf(ev).value;
       FitsSqlite(p.bidId) && FitsSqlite(p.hoster) && FitsSqlite(p.fileHash)
  }

  /** `store_pin(conn, evnt)`: AssertionError for another event name;
      AttributeError for a missing argument; OperationalError when the
      catalogue has no `pin` table; OverflowError for an integer wider than
      64 bits. It writes nothing the model keeps, so only the error is
      returned. */
  function StorePinSpec(tables: set<string>, ev: Event): (err: Option<Error>)
    ensures err.None? <==> PinAccepted(tables, ev)
    ensures ev.name != "Pinned" ==> err == Some(AssertionError)
    ensures err.Some? ==> err.value in {AssertionError, AttributeError, OperationalError, OverflowError}
  {
    if ev.name != "Pinned" then Some(AssertionError)
    else match PinInfoOf(ev)
      case Err(e) => Some(e)
      case Ok(p) =>
        if "pin" !in tables then Some(OperationalError)
        else if !(FitsSqlite(p.bidId) && FitsSqlite(p.hoster) && FitsSqlite(p.fileHash)) then Some(OverflowError)
        else None
  }

  /** Without a `pin` table a Pinned event is never stored: it raises
      AttributeError when one of bidId, hoster and fileHash is missing and
      OperationalError otherwise. */
  lemma NoPinTable(tables: set<string>, ev: Event)
    requires "pin" !in tables && ev.name == "Pinned"
    ensures var err := StorePinSpec(tables, ev);
      && (err == Some(AttributeError) <==> !("bidId" in Keys(ev.args) && "hoster" in Keys(ev.args) && "fileHash" in Keys(ev.args)))
      && (err == Some(OperationalError) <==> "bidId" in Keys(ev.args) && "hoster" in Keys(ev.args) && "fileHash" in Keys(ev.args))
  {
    LookupIsKey(ev.args, "bidId");
    LookupIsKey(ev.args, "hoster");
    LookupIsKey(ev.args, "fileHash");
  }

  /** The schema `init_structure` creates has no `pin` table, so on a file
      the daemon set up every Pinned event fails in `store_pin`. */
  lemma DaemonSchemaRejectsPins(st: DbState, ev: Event)
    requires InitSpec(st).0.None? && "pin" !in st.tables
    requires ev.name == "Pinned"
    ensures StorePinSpec(InitSpec(st).1.tables, ev).Some?
  {
    InitSpecFacts(st);
    assert "pin" !in set t | t in TABLES by {
      assert TABLES == ["event", "bid", "action", "action_type"];
    }
  }
}
