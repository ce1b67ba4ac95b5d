/** The `event` table: storing a batch of events (insert, skip duplicates,
    dispatch by name) and reading the stored events back. */
module Events {
  import opened Common
  import opened Records
  import opened Db
  import opened Bids
  import opened Pins

  /** `json.dumps` accepts every argument value except raw bytes. */
  predicate JsonEncodable(a: Args)
  {
    forall i :: 0 <= i < |a| ==> !a[i].1.Bytes?
  }

  /** A write into the pin store that `store_events` makes: the `pin` row
      of a stored Pinned event, and the `store_accept` call for an Accepted
      event. Neither is part of the modelled state, so they are recorded. */
  datatype Call = StorePin(ev: Event) | StoreAccept(ev: Event)

  function RowOf(ev: Event): EventRow
  {
    EventRow(ev.txhash, ev.blockNumber, ev.name, ev.args)
  }

  /** The INSERT of one event: TypeError when its arguments cannot be
      written as JSON, OperationalError without an `event` table,
      OverflowError for a block number wider than 64 bits, nothing when
      (tx_hash, name) is already stored, one new row otherwise. */
  function InsertEvent(st: DbState, ev: Event): (Option<Error>, DbState)
  {
    if !JsonEncodable(ev.args) then (Some(TypeError), st)
    else if "event" !in st.tables then (Some(OperationalError), st)
    else if !FitsSqlite(Int(ev.blockNumber)) then (Some(OverflowError), st)
    else if HasEventKey(st.events, ev.txhash, ev.name) then (None, st)
    else (None, st.(events := st.events + [RowOf(ev)]))
  }

  /** The dispatch by event name that follows every insert, duplicate or
      not: Pinned goes to `store_pin`, BidSuccessful to `store_bid`,
      Accepted to `store_accept`, any other name nowhere. */
  function DispatchEvent(st: DbState, ev: Event): (Option<Error>, DbState, seq<Call>)
  {
    if ev.name == "Pinned" then
      var err := StorePinSpec(st.tables, ev);
      if err.Some? then (err, st, []) else (None, st, [StorePin(ev)])
    else if ev.name == "BidSuccessful" then
      var (err, st') := StoreBidSpec(st, ev);
      (err, st', [])
    else if ev.name == "Accepted" then (None, st, [StoreAccept(ev)])
    else (None, st, [])
  }

  /** One event of `store_events`: its insert, then its dispatch. */
  function StoreOneSpec(st: DbState, ev: Event): (Option<Error>, DbState, seq<Call>)
  {
    var (e1, s1) := InsertEvent(st, ev);
    if e1.Some? then (e1, s1, []) else DispatchEvent(s1, ev)
  }

  /** Prepends calls made earlier to an outcome. */
  function After(calls: seq<Call>, out: (Option<Error>, DbState, seq<Call>)): (Option<Error>, DbState, seq<Call>)
  {
    (out.0, out.1, calls + out.2)
  }

  /** `store_events(conn, events)`: the error that stopped it, if any, the
      file afterwards (what was written before an error stays), and the
      calls made into the pin store. */
  function StoreAll(st: DbState, evs: seq<Event>): (Option<Error>, DbState, seq<Call>)
    decreases |evs|
  {
    if evs == [] then (None, st, [])
    else
      var (e, s, c) := StoreOneSpec(st, evs[0]);
      if e.Some? then (e, s, c) else After(c, StoreAll(s, evs[1..]))
  }

  /** The calls into the pin store for a batch: one per Pinned or Accepted
      event, in batch order, whatever is already stored. */
  function CallsOf(evs: seq<Event>): seq<Call>
  {
    if evs == [] then []
    else
      (if evs[0].name == "Pinned" then [StorePin(evs[0])]
       else if evs[0].name == "Accepted" then [StoreAccept(evs[0])] else [])
      + CallsOf(evs[1..])
  }

  /** What an event needs to be stored and dispatched without an error. */
  predicate EventAccepted(tables: set<string>, ev: Event)
  {
    JsonEncodable(ev.args) && "event" in tables && FitsSqlite(Int(ev.blockNumber))
    && (ev.name == "BidSuccessful" ==> BidAccepted(tables, ev))
    && (ev.name == "Pinned" ==> PinAccepted(tables, ev))
  }

  /** The effect of a batch is already in the file: every event's key is
      stored, and every bid event clashes with a stored bid. */
  predicate Absorbed(st: DbState, evs: seq<Event>)
  {
    forall k :: 0 <= k < |evs| ==>
      HasEventKey(st.events, evs[k].txhash, evs[k].name)
      && (evs[k].name == "BidSuccessful" && BidInfoOf(evs[k]).Ok? ==>
            BidClash(st.bids, evs[k].txhash, Bound(BidInfoOf(evs[k]).value.bidId)))
  }

  lemma HasEventKeyPrefix(rows: seq<EventRow>, longer: seq<EventRow>, txHash: string, name: string)
    requires HasEventKey(rows, txHash, name) && rows <= longer
    ensures HasEventKey(longer, txHash, name)
  {
    var i :| 0 <= i < |rows| && rows[i].txHash == txHash && rows[i].name == name;
    assert longer[i] == rows[i];
  }

  lemma BidClashPrefix(rows: seq<BidRow>, longer: seq<BidRow>, txHash: string, bidId: Value)
    requires BidClash(rows, txHash, bidId) && rows <= longer
    ensures BidClash(longer, txHash, bidId)
  {
    var i :| 0 <= i < |rows| && (rows[i].txHash == txHash || (bidId != Null && rows[i].bidId == bidId));
    assert longer[i] == rows[i];
  }

  /** One event: its insert and its dispatch. */
  lemma OneEventFacts(st: DbState, ev: Event)
    ensures var (e1, s1) := InsertEvent(st, ev);
      && s1.tables == st.tables && s1.bids == st.bids && s1.actionTypes == st.actionTypes
      && st.events <= s1.events
      && (e1.None? ==> HasEventKey(s1.events, ev.txhash, ev.name))
      && (e1.None? ==>
        var (e2, s2, c2) := DispatchEvent(s1, ev);
        && s2.tables == st.tables && s2.events == s1.events && s2.actionTypes == st.actionTypes
        && st.bids <= s2.bids
        && (e2.None? ==> c2 == CallsOf([ev]))
        && (e2.Some? ==> s2 == s1 && c2 == [])
        && (e2.None? && ev.name == "BidSuccessful" ==> BidClash(s2.bids, ev.txhash, Bound(BidInfoOf(ev).value.bidId))))
      && (e1.None? && DispatchEvent(s1, ev).0.None? <==> EventAccepted(st.tables, ev))
  {
    var (e1, s1) := InsertEvent(st, ev);
    if e1.None? && !HasEventKey(st.events, ev.txhash, ev.name) {
      assert s1.events[|st.events|] == RowOf(ev);
    }
    StoreBidFacts(s1, ev);
  }

  /** What a batch leaves behind makes it a no-op when replayed: run again
      on any file with the same catalogue whose `event` and `bid` tables
      extend the ones the first run left, it raises the same error, makes
      the same calls and writes nothing. */
  lemma {:induction false} RerunFrom(st: DbState, evs: seq<Event>, u: DbState)
    requires u.tables == st.tables
    requires StoreAll(st, evs).1.events <= u.events && StoreAll(st, evs).1.bids <= u.bids
    ensures StoreAll(u, evs) == (StoreAll(st, evs).0, u, StoreAll(st, evs).2)
    decreases |evs|
  {
    if evs != [] {
      var ev := evs[0];
      OneEventFacts(st, ev);
      var (e1, s1) := InsertEvent(st, ev);
      if e1.None? {
        var (e2, s2, c2) := DispatchEvent(s1, ev);
        if e2.None? {
          StoreAllFrame(s2, evs[1..]);
          var fin := StoreAll(s2, evs[1..]).1;
          HasEventKeyPrefix(s1.events, u.events, ev.txhash, ev.name);
          assert InsertEvent(u, ev) == (None, u);
          if ev.name == "BidSuccessful" {
            BidClashPrefix(s2.bids, u.bids, ev.txhash, Bound(BidInfoOf(ev).value.bidId));
            StoreBidDuplicate(u, ev);
          }
          assert DispatchEvent(u, ev) == (None, u, c2);
          RerunFrom(s2, evs[1..], u);
        } else {
          HasEventKeyPrefix(s1.events, u.events, ev.txhash, ev.name);
          assert InsertEvent(u, ev) == (None, u);
          StoreBidFacts(u, ev);
          StoreBidFacts(s1, ev);
        }
      }
    }
  }

  /** A batch never changes the catalogue or `action_type`, and only
      appends to `event` and `bid`. */
  lemma {:induction false} StoreAllFrame(st: DbState, evs: seq<Event>)
    ensures var (err, st', calls) := StoreAll(st, evs);
      && st'.tables == st.tables && st'.actionTypes == st.actionTypes
      && st.events <= st'.events && st.bids <= st'.bids
    decreases |evs|
  {
    if evs != [] {
      OneEventFacts(st, evs[0]);
      var (e1, s1) := InsertEvent(st, evs[0]);
      if e1.None? {
        var (e2, s2, c2) := DispatchEvent(s1, evs[0]);
        if e2.None? {
          StoreAllFrame(s2, evs[1..]);
        }
      }
    }
  }

  /** A batch is stored without an error exactly when each of its events
      passes its checks, and then the calls into the pin store are those of
      `CallsOf`, duplicates included. */
  lemma {:induction false} StoreAllSucceeds(st: DbState, evs: seq<Event>)
    ensures StoreAll(st, evs).0.None? <==> forall k :: 0 <= k < |evs| ==> EventAccepted(st.tables, evs[k])
    ensures StoreAll(st, evs).0.None? ==> StoreAll(st, evs).2 == CallsOf(evs)
    decreases |evs|
  {
    if evs != [] {
      OneEventFacts(st, evs[0]);
      var (e1, s1) := InsertEvent(st, evs[0]);
      if e1.None? {
        var (e2, s2, c2) := DispatchEvent(s1, evs[0]);
        if e2.None? {
          StoreAllSucceeds(s2, evs[1..]);
        }
      }
      assert forall k :: 1 <= k < |evs| ==> evs[k] == evs[1..][k - 1];
    }
  }

  /** After a successful batch the file has absorbed it: every event's
      (tx_hash, name) has a row. */
  lemma {:induction false} StoreAllAbsorbs(st: DbState, evs: seq<Event>)
    requires StoreAll(st, evs).0.None?
    ensures Absorbed(StoreAll(st, evs).1, evs)
    decreases |evs|
  {
    if evs != [] {
      OneEventFacts(st, evs[0]);
      var (e1, s1) := InsertEvent(st, evs[0]);
      var (e2, s2, c2) := DispatchEvent(s1, evs[0]);
      StoreAllAbsorbs(s2, evs[1..]);
      StoreAllFrame(s2, evs[1..]);
      var st' := StoreAll(st, evs).1;
      var ev := evs[0];
      HasEventKeyPrefix(s2.events, st'.events, ev.txhash, ev.name);
      if ev.name == "BidSuccessful" && BidInfoOf(ev).Ok? {
        BidClashPrefix(s2.bids, st'.bids, ev.txhash, Bound(BidInfoOf(ev).value.bidId));
      }
      assert forall k :: 1 <= k < |evs| ==> evs[k] == evs[1..][k - 1];
    }
  }

  /** A batch the file has already absorbed changes nothing. */
  lemma {:induction false} StoreAbsorbedIsNoop(st: DbState, evs: seq<Event>)
    requires Absorbed(st, evs)
    requires forall k :: 0 <= k < |evs| ==> EventAccepted(st.tables, evs[k])
    ensures StoreAll(st, evs) == (None, st, CallsOf(evs))
    decreases |evs|
  {
    if evs != [] {
      var ev := evs[0];
      assert InsertEvent(st, ev) == (None, st);
      if ev.name == "BidSuccessful" {
        StoreBidDuplicate(st, ev);
      }
      assert forall k :: 1 <= k < |evs| ==> evs[k] == evs[1..][k - 1];
      StoreAbsorbedIsNoop(st, evs[1..]);
    }
  }

  /** Storing the same batch twice leaves the file as storing it once,
      raises the same error and makes the same calls, whether or not the
      first run stopped at an error. */
  lemma StoreAllIdempotent(st: DbState, evs: seq<Event>)
    ensures StoreAll(StoreAll(st, evs).1, evs) == StoreAll(st, evs)
  {
    StoreAllFrame(st, evs);
    RerunFrom(st, evs, StoreAll(st, evs).1);
  }

  /** Without a `pin` table, a batch holding a Pinned event never completes:
      it stops at that event, or at an error before it. */
  lemma PinnedEndsBatch(st: DbState, evs: seq<Event>, k: nat)
    requires "pin" !in st.tables
    requires k < |evs| && evs[k].name == "Pinned"
    ensures StoreAll(st, evs).0.Some?
  {
    StoreAllSucceeds(st, evs);
    assert !EventAccepted(st.tables, evs[k]);
  }

  /** A batch keeps the file consistent, whether it ends in an error or
      not. */
  lemma {:induction false} StoreAllKeepsConsistent(st: DbState, evs: seq<Event>)
    requires Consistent(st)
    ensures Consistent(StoreAll(st, evs).1)
    decreases |evs|
  {
    if evs != [] {
      var ev := evs[0];
      var (e1, s1) := InsertEvent(st, ev);
      if e1.None? && !HasEventKey(st.events, ev.txhash, ev.name) {
        forall i, j | 0 <= i < j < |s1.events|
          ensures (s1.events[i].txHash, s1.events[i].name) != (s1.events[j].txHash, s1.events[j].name)
        {
          if j == |st.events| {
            assert s1.events[i] == st.events[i];
          }
        }
      }
      assert Consistent(s1);
      if e1.None? {
        var (e2, s2, c2) := DispatchEvent(s1, ev);
        StoreBidKeepsConsistent(s1, ev);
        if e2.None? {
          StoreAllKeepsConsistent(s2, evs[1..]);
        }
      }
    }
  }

  // ---------------------------------------------------------------------------
  // One batch of `process_events`
  // ---------------------------------------------------------------------------

  /** The rows a batch adds: one per event whose (tx_hash, name) is neither
      stored nor carried by an earlier event of the batch. */
  function FreshRows(seen: seq<EventRow>, evs: seq<Event>): seq<EventRow>
    decreases |evs|
  {
    if evs == [] then []
    else if HasEventKey(seen, evs[0].txhash, evs[0].name) then FreshRows(seen, evs[1..])
    else [RowOf(evs[0])] + FreshRows(seen + [RowOf(evs[0])], evs[1..])
  }

  lemma {:induction false} StoreAllRows(st: DbState, evs: seq<Event>)
    requires StoreAll(st, evs).0.None?
    ensures StoreAll(st, evs).1.events == st.events + FreshRows(st.events, evs)
    decreases |evs|
  {
    if evs != [] {
      var (e1, s1) := InsertEvent(st, evs[0]);
      var (e2, s2, c2) := DispatchEvent(s1, evs[0]);
      OneEventFacts(st, evs[0]);
      StoreAllRows(s2, evs[1..]);
    }
  }

  /** The names of a batch. */
  function NamesOf(evs: seq<Event>): set<string>
  {
    set k | 0 <= k < |evs| :: evs[k].name
  }

  lemma NamesOfCons(evs: seq<Event>)
    requires evs != []
    ensures NamesOf(evs) == {evs[0].name} + NamesOf(evs[1..])
  {
    var rest := evs[1..];
    forall m ensures m in NamesOf(evs) <==> m == evs[0].name || m in NamesOf(rest) {
      if m in NamesOf(evs) {
        var k :| 0 <= k < |evs| && evs[k].name == m;
        if k > 0 { assert rest[k - 1] == evs[k]; }
      }
      if m in NamesOf(rest) {
        var k :| 0 <= k < |rest| && rest[k].name == m;
        assert evs[k + 1] == rest[k];
      }
    }
  }

  /** What the batch lemmas below require: the events share the
      transaction hash `tx`, and `done` holds exactly the batch names that
      already have a row under `tx`. */
  predicate BatchSetting(seen: seq<EventRow>, evs: seq<Event>, tx: string, done: set<string>)
  {
    && (forall k :: 0 <= k < |evs| ==> evs[k].txhash == tx)
    && (forall n :: n in done ==> HasEventKey(seen, tx, n))
    && (forall i :: 0 <= i < |seen| && seen[i].txHash == tx ==> seen[i].name !in NamesOf(evs) || seen[i].name in done)
  }

  /** The row an event gets is the row of the first event of its name. */
  predicate FirstOfName(r: EventRow, evs: seq<Event>, done: set<string>)
  {
    exists k :: 0 <= k < |evs| && r == RowOf(evs[k]) && evs[k].name !in done
                && forall j :: 0 <= j < k ==> evs[j].name != evs[k].name
  }

  /** Going one event further in a batch keeps the setting. */
  lemma BatchSettingStep(seen: seq<EventRow>, evs: seq<Event>, tx: string, done: set<string>)
    requires evs != [] && BatchSetting(seen, evs, tx, done)
    ensures HasEventKey(seen, tx, evs[0].name) ==> evs[0].name in done && BatchSetting(seen, evs[1..], tx, done)
    ensures !HasEventKey(seen, tx, evs[0].name) ==>
      evs[0].name !in done && BatchSetting(seen + [RowOf(evs[0])], evs[1..], tx, done + {evs[0].name})
  {
    var ev := evs[0];
    NamesOfCons(evs);
    if !HasEventKey(seen, tx, ev.name) {
      var seen' := seen + [RowOf(ev)];
      forall n | n in done + {ev.name} ensures HasEventKey(seen', tx, n) {
        if n in done {
          HasEventKeyPrefix(seen, seen', tx, n);
        } else {
          assert seen'[|seen|] == RowOf(ev);
        }
      }
    }
  }

  lemma FirstOfNameShift(r: EventRow, evs: seq<Event>, done: set<string>)
    requires evs != [] && evs[0].name in done
    requires FirstOfName(r, evs[1..], done)
    ensures FirstOfName(r, evs, done)
  {
    var rest := evs[1..];
    var k :| 0 <= k < |rest| && r == RowOf(rest[k]) && rest[k].name !in done
             && forall j :: 0 <= j < k ==> rest[j].name != rest[k].name;
    assert evs[k + 1] == rest[k];
    forall j | 0 <= j < k + 1 ensures evs[j].name != evs[k + 1].name {
      if j > 0 { assert evs[j] == rest[j - 1]; }
    }
  }

  /** Every added row is the row of the first event of its name, and that
      name was not stored before. */
  lemma {:induction false} FreshRowsFromFirst(seen: seq<EventRow>, evs: seq<Event>, tx: string, done: set<string>)
    requires BatchSetting(seen, evs, tx, done)
    ensures forall r :: r in FreshRows(seen, evs) ==> FirstOfName(r, evs, done)
    decreases |evs|
  {
    if evs != [] {
      var ev := evs[0];
      BatchSettingStep(seen, evs, tx, done);
      if HasEventKey(seen, tx, ev.name) {
        FreshRowsFromFirst(seen, evs[1..], tx, done);
        forall r | r in FreshRows(seen, evs[1..]) ensures FirstOfName(r, evs, done) {
          FirstOfNameShift(r, evs, done);
        }
      } else {
        var done' := done + {ev.name};
        FreshRowsFromFirst(seen + [RowOf(ev)], evs[1..], tx, done');
        forall r | r in FreshRows(seen, evs) ensures FirstOfName(r, evs, done) {
          if r != RowOf(evs[0]) {
            FirstOfNameShift(r, evs, done');
            var k :| 0 <= k < |evs| && r == RowOf(evs[k]) && evs[k].name !in done'
                     && forall j :: 0 <= j < k ==> evs[j].name != evs[k].name;
          } else {
            assert evs[0].name !in done;
          }
        }
      }
    }
  }

  predicate RowNamesDistinct(rows: seq<EventRow>)
  {
    forall i, j :: 0 <= i < j < |rows| ==> rows[i].name != rows[j].name
  }

  /** The added rows have distinct names. */
  lemma {:induction false} FreshRowsDistinct(seen: seq<EventRow>, evs: seq<Event>, tx: string, done: set<string>)
    requires BatchSetting(seen, evs, tx, done)
    ensures RowNamesDistinct(FreshRows(seen, evs))
    decreases |evs|
  {
    if evs != [] {
      var ev := evs[0];
      BatchSettingStep(seen, evs, tx, done);
      assert ev.txhash == tx;
      if HasEventKey(seen, tx, ev.name) {
        FreshRowsDistinct(seen, evs[1..], tx, done);
        var tail := FreshRows(seen, evs[1..]);
        assert HasEventKey(seen, ev.txhash, ev.name);
        assert FreshRows(seen, evs) == tail;
      } else {
        var seen' := seen + [RowOf(ev)];
        var done' := done + {ev.name};
        FreshRowsDistinct(seen', evs[1..], tx, done');
        FreshRowsFromFirst(seen', evs[1..], tx, done');
        var tail := FreshRows(seen', evs[1..]);
        var rows := [RowOf(ev)] + tail;
        assert FreshRows(seen, evs) == rows;
        forall i, j | 0 <= i < j < |rows| ensures rows[i].name != rows[j].name {
          if i == 0 {
            assert rows[j] == tail[j - 1];
            assert FirstOfName(tail[j - 1], evs[1..], done');
            var k :| 0 <= k < |evs[1..]| && tail[j - 1] == RowOf(evs[1..][k]) && evs[1..][k].name !in done'
                     && forall m :: 0 <= m < k ==> evs[1..][m].name != evs[1..][k].name;
            assert rows[j].name == evs[1..][k].name != ev.name;
            assert rows[i] == RowOf(ev);
          } else {
            assert rows[i] == tail[i - 1] && rows[j] == tail[j - 1];
          }
        }
      }
    }
  }

  /** Every batch name not stored before gets a row. */
  lemma {:induction false} FreshRowsCover(seen: seq<EventRow>, evs: seq<Event>, tx: string, done: set<string>)
    requires BatchSetting(seen, evs, tx, done)
    ensures forall x :: x in NamesOf(evs) && x !in done ==> exists r :: r in FreshRows(seen, evs) && r.name == x
    decreases |evs|
  {
    if evs != [] {
      var ev := evs[0];
      NamesOfCons(evs);
      BatchSettingStep(seen, evs, tx, done);
      if HasEventKey(seen, tx, ev.name) {
        FreshRowsCover(seen, evs[1..], tx, done);
      } else {
        var seen' := seen + [RowOf(ev)];
        FreshRowsCover(seen', evs[1..], tx, done + {ev.name});
        assert RowOf(ev) in FreshRows(seen, evs);
      }
    }
  }

  /** The batch `process_events` hands over carries one transaction hash, so
      on a file with no event under that hash, a successful `store_events`
      adds one row per distinct event name of the batch, taken from the
      first event of that name, and nothing else. */
  lemma BatchStoresFirstOfEachName(st: DbState, evs: seq<Event>, tx: string)
    requires forall k :: 0 <= k < |evs| ==> evs[k].txhash == tx
    requires forall i :: 0 <= i < |st.events| ==> st.events[i].txHash != tx
    requires StoreAll(st, evs).0.None?
    ensures var added := FreshRows(st.events, evs);
      && StoreAll(st, evs).1.events == st.events + added
      && (forall r :: r in added ==>
            exists k :: 0 <= k < |evs| && r == RowOf(evs[k]) && forall j :: 0 <= j < k ==> evs[j].name != evs[k].name)
      && (forall i, j :: 0 <= i < j < |added| ==> added[i].name != added[j].name)
      && (forall x :: x in NamesOf(evs) <==> exists r :: r in added && r.name == x)
  {
    StoreAllRows(st, evs);
    assert BatchSetting(st.events, evs, tx, {});
    FreshRowsFromFirst(st.events, evs, tx, {});
    FreshRowsDistinct(st.events, evs, tx, {});
    FreshRowsCover(st.events, evs, tx, {});
    forall r | r in FreshRows(st.events, evs) ensures r.name in NamesOf(evs) {
      assert FirstOfName(r, evs, {});
    }
  }

  /** None of the modelled writes sets `pinned`, so on a file they alone
      have written `get_bids_to_pin` and `get_bids_to_validate` find
      nothing. */
  lemma {:induction false} StoreAllNeverPins(st: DbState, evs: seq<Event>)
    requires NothingPinned(st)
    ensures NothingPinned(StoreAll(st, evs).1)
    decreases |evs|
  {
    if evs != [] {
      var (e1, s1) := InsertEvent(st, evs[0]);
      if e1.None? {
        StoreBidNeverPins(s1, evs[0]);
        var (e2, s2, c2) := DispatchEvent(s1, evs[0]);
        if e2.None? {
          StoreAllNeverPins(s2, evs[1..]);
        }
      }
    }
  }

  /** The INSERT of `store_events` for one event. */
  method InsertOne(db: Database, ev: Event) returns (err: Option<Error>)
    modifies db
    ensures (err, db.State()) == InsertEvent(old(db.State()), ev)
  {
    if !JsonEncodable(ev.args) {
      return Some(TypeError);
    }
    if "event" !in db.tables {
      return Some(OperationalError);
    }
    if !FitsSqlite(Int(ev.blockNumber)) {
      return Some(OverflowError);
    }
    var duplicate := exists k :: 0 <= k < |db.events| && db.events[k].txHash == ev.txhash && db.events[k].name == ev.name;
    if !duplicate {
      db.events := db.events + [RowOf(ev)];
    }
    return None;
  }

  /** The body of the loop of `store_events`: insert, then dispatch. */
  method StoreOne(db: Database, ev: Event) returns (err: Option<Error>, calls: seq<Call>)
    modifies db
    ensures (err, db.State(), calls) == StoreOneSpec(old(db.State()), ev)
  {
    calls := [];
    err := InsertOne(db, ev);
    if err.Some? {
      return;
    }
    if ev.name == "Pinned" {
      err := StorePinSpec(db.tables, ev);
      if err.None? {
        calls := [StorePin(ev)];
      }
    } else if ev.name == "BidSuccessful" {
      err := StoreBid(db, ev);
    } else if ev.name == "Accepted" {
      calls := [StoreAccept(ev)];
    }
  }

  /** `store_events(conn, events)`. */
  method StoreEvents(db: Database, evs: seq<Event>) returns (err: Option<Error>, calls: seq<Call>)
    modifies db
    ensures (err, db.State(), calls) == StoreAll(old(db.State()), evs)
  {
    calls := [];
    if |evs| < 1 {
      return None, calls;
    }
    ghost var st0 := db.State();
    assert evs[0..] == evs;
    ghost var whole := StoreAll(st0, evs);
    assert [] + whole.2 == whole.2;
    for i := 0 to |evs|
      invariant StoreAll(st0, evs) == After(calls, StoreAll(db.State(), evs[i..]))
    {
      assert evs[i..][0] == evs[i] && evs[i..][1..] == evs[i + 1..];
      var e, c := StoreOne(db, evs[i]);
      if e.Some? {
        return e, calls + c;
      }
      ghost var rest := StoreAll(db.State(), evs[i + 1..]);
      assert calls + (c + rest.2) == (calls + c) + rest.2;
      calls := calls + c;
    }
    assert evs[|evs|..] == [];
    assert calls + [] == calls;
    return None, calls;
  }

  /** A row of `get_stored_events`: `event_id` is the row's rowid. */
  datatype StoredEvent = StoredEvent(eventId: int, txHash: string, blockNumber: int, name: string, args: Args)

  /** `get_stored_events(conn)`: one record per row of `event`, in table
      order; rows are never deleted, so the rowid of row `i` is `i + 1`. */
  method GetStoredEvents(db: Database) returns (r: Result<seq<StoredEvent>>)
    ensures "event" !in db.tables <==> r.Err?
    ensures r.Err? ==> r.error == OperationalError
    ensures r.Ok? ==> |r.value| == |db.events|
    ensures r.Ok? ==> forall i :: 0 <= i < |db.events| ==>
      var row := db.events[i];
      r.value[i] == StoredEvent(i + 1, row.txHash, row.blockNumber, row.name, row.args)
  {
    if "event" !in db.tables {
      return Err(OperationalError);
    }
    var events: seq<StoredEvent> := [];
    var res := db.events;
    if |res| < 1 {
      return Ok(events);
    }
    for i := 0 to |res|
      invariant |events| == i
      invariant forall k :: 0 <= k < i ==>
        events[k] == StoredEvent(k + 1, res[k].txHash, res[k].blockNumber, res[k].name, res[k].args)
    {
      var row := res[i];
      events := events + [StoredEvent(i + 1, row.txHash, row.blockNumber, row.name, row.args)];
    }
    return Ok(events);
  }
}
