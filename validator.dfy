/** The validator process: turning the Scatter contract's logs into events,
    storing them, and the loop that picks a pin to validate and waits.

    The node is reached only through its answers: the logs of each round,
    the live bid records and validation counts, and the shuffle are inputs. */
module Validator {
  import opened Common
  import opened Records
  import opened Contracts
  import opened Db
  import opened Bids
  import opened Events
  import opened Logic

  /** Seconds to wait after validating a bid. */
  const STD_PROCESS_DELAY := 3
  /** Seconds to wait when there was nothing to validate. */
  const SETTLED_PROCESS_DELAY := 30

  // ---------------------------------------------------------------------------
  // process_events
  // ---------------------------------------------------------------------------

  /** Every entry of the lookup has inputs, so decoding a log never takes
      the "ABI has no inputs" path. */
  predicate InputsPresent(m: map<string, AbiEntry>)
  {
    forall s :: s in m ==> |m[s].inputs| > 0
  }

  /** `gen_signature` refuses entries without inputs, so a lookup
      `events_from_abi` builds only holds entries with inputs. */
  lemma LookupEntriesHaveInputs(abi: seq<AbiEntry>, keccak: Keccak)
    ensures EventLookup(abi, keccak).Ok? ==> InputsPresent(EventLookup(abi, keccak).value)
  {
    EventLookupSpec(abi, keccak);
    if EventLookup(abi, keccak).Ok? {
      var m := EventLookup(abi, keccak).value;
      forall s | s in m ensures |m[s].inputs| > 0 {
        var i :| 0 <= i < |abi| && abi[i] == m[s];
      }
    }
  }

  function Prepend(evs: seq<Event>, r: Result<seq<Event>>): Result<seq<Event>>
  {
    if r.Err? then r else Ok(evs + r.value)
  }

  /** One log of the loop: IndexError without topics; nothing when the first
      topic is not a known event signature; otherwise the decoded event
      under the entry's name, stamped with `tx` and `block`. */
  function LogEvents(m: map<string, AbiEntry>, lg: RawLog, tx: string, block: int, decode: Decoder): Result<seq<Event>>
    requires InputsPresent(m)
  {
    if |lg.topics| == 0 then Err(IndexError)
    else
      var sig := HexString(lg.topics[0]);
      if sig !in m then Ok([])
      else
        var d := DecodeLog(m[sig], lg, decode);
        if d.Err? then Err(d.error)
        else Ok([Event(m[sig].name, d.value.args, tx, block)])
  }

  /** The loop of `process_events` over the logs not yet processed; the
      first failing log ends it. */
  function ProcessLogs(m: map<string, AbiEntry>, rest: seq<RawLog>, tx: string, block: int, decode: Decoder): Result<seq<Event>>
    requires InputsPresent(m)
    decreases |rest|
  {
    if rest == [] then Ok([])
    else
      match LogEvents(m, rest[0], tx, block, decode)
      case Err(e) => Err(e)
      case Ok(head) => Prepend(head, ProcessLogs(m, rest[1..], tx, block, decode))
  }

  /** `process_events(contract, logs)`: the lookup is built first, and every
      event is stamped with the transaction hash and block number of the
      FIRST log. */
  function ProcessSpec(abi: seq<AbiEntry>, logs: seq<RawLog>, keccak: Keccak, decode: Decoder): Result<seq<Event>>
  {
    LookupEntriesHaveInputs(abi, keccak);
    match EventLookup(abi, keccak)
    case Err(e) => Err(e)
    case Ok(m) =>
      if logs == [] then Ok([])
      else ProcessLogs(m, logs, HexString(logs[0].transactionHash), logs[0].blockNumber, decode)
  }

  /** The names of the entries the logs' first topics select, in log order. */
  function MatchedNames(m: map<string, AbiEntry>, rest: seq<RawLog>): seq<string>
    decreases |rest|
  {
    if rest == [] then []
    else MatchedName(m, rest[0]) + MatchedNames(m, rest[1..])
  }

  /** The name of the entry a log's first topic selects, if any. */
  function MatchedName(m: map<string, AbiEntry>, lg: RawLog): seq<string>
  {
    if |lg.topics| > 0 && HexString(lg.topics[0]) in m then [m[HexString(lg.topics[0])].name] else []
  }

  function EventNames(evs: seq<Event>): (ns: seq<string>)
    ensures |ns| == |evs| && forall k :: 0 <= k < |evs| ==> ns[k] == evs[k].name
  {
    seq(|evs|, k requires 0 <= k < |evs| => evs[k].name)
  }

  /** Every event carries transaction hash `tx` and block number `block`. */
  predicate Stamped(evs: seq<Event>, tx: string, block: int)
  {
    forall k :: 0 <= k < |evs| ==> evs[k].txhash == tx && evs[k].blockNumber == block
  }

  lemma StampedAppend(a: seq<Event>, b: seq<Event>, tx: string, block: int)
    requires Stamped(a, tx, block) && Stamped(b, tx, block)
    ensures Stamped(a + b, tx, block)
  {
    forall k | 0 <= k < |a + b| ensures (a + b)[k].txhash == tx && (a + b)[k].blockNumber == block {
      if k >= |a| {
        assert (a + b)[k] == b[k - |a|];
      }
    }
  }

  lemma EventNamesAppend(a: seq<Event>, b: seq<Event>)
    ensures EventNames(a + b) == EventNames(a) + EventNames(b)
  {
  }

  /** One log gives at most one event, stamped with `tx` and `block` and
      named after the entry its first topic selects. */
  lemma LogEventsShape(m: map<string, AbiEntry>, lg: RawLog, tx: string, block: int, decode: Decoder)
    requires InputsPresent(m)
    ensures var h := LogEvents(m, lg, tx, block, decode);
      h.Ok? ==>
        && |h.value| <= 1
        && Stamped(h.value, tx, block)
        && EventNames(h.value) == MatchedName(m, lg)
  {
  }

  /** Every event of the loop carries the given stamp, there is at most one
      per log, and the names are those of the matched entries in log order,
      whatever the decoder returns. */
  lemma {:induction false} ProcessLogsShape(m: map<string, AbiEntry>, rest: seq<RawLog>, tx: string, block: int, decode: Decoder)
    requires InputsPresent(m)
    ensures var r := ProcessLogs(m, rest, tx, block, decode);
      r.Ok? ==>
        && |r.value| <= |rest|
        && Stamped(r.value, tx, block)
        && EventNames(r.value) == MatchedNames(m, rest)
    decreases |rest|
  {
    if rest != [] {
      var r := ProcessLogs(m, rest, tx, block, decode);
      if r.Ok? {
        var h := LogEvents(m, rest[0], tx, block, decode).value;
        var t := ProcessLogs(m, rest[1..], tx, block, decode).value;
        ProcessLogsShape(m, rest[1..], tx, block, decode);
        LogEventsShape(m, rest[0], tx, block, decode);
        assert r.value == h + t;
        EventNamesAppend(h, t);
        StampedAppend(h, t, tx, block);
      }
    }
  }

  /** A log without topics fails the whole batch. */
  lemma {:induction false} ProcessLogsMissingTopic(m: map<string, AbiEntry>, rest: seq<RawLog>, tx: string, block: int, decode: Decoder)
    requires InputsPresent(m)
    requires exists i :: 0 <= i < |rest| && |rest[i].topics| == 0
    ensures ProcessLogs(m, rest, tx, block, decode).Err?
    decreases |rest|
  {
    if |rest[0].topics| != 0 {
      var i :| 0 <= i < |rest| && |rest[i].topics| == 0;
      assert rest[1..][i - 1] == rest[i];
      ProcessLogsMissingTopic(m, rest[1..], tx, block, decode);
    }
  }

  /** What `process_events` promises: it fails when the ABI has an event
      entry without name or inputs, and otherwise every event carries the
      first log's transaction hash and block number, at most one per log,
      named after an event entry of the ABI. */
  lemma ProcessEventsStamps(abi: seq<AbiEntry>, logs: seq<RawLog>, keccak: Keccak, decode: Decoder)
    ensures !AllEventsSignable(abi) ==> ProcessSpec(abi, logs, keccak, decode).Err?
    ensures var r := ProcessSpec(abi, logs, keccak, decode);
      r.Ok? && logs != [] ==>
        && |r.value| <= |logs|
        && (forall k :: 0 <= k < |r.value| ==>
              && r.value[k].txhash == HexString(logs[0].transactionHash)
              && r.value[k].blockNumber == logs[0].blockNumber
              && exists j :: 0 <= j < |abi| && IsEvent(abi[j]) && abi[j].name == r.value[k].name)
    ensures logs == [] ==> (ProcessSpec(abi, logs, keccak, decode).Ok? <==> AllEventsSignable(abi))
  {
    EventLookupSpec(abi, keccak);
    LookupEntriesHaveInputs(abi, keccak);
    var r := ProcessSpec(abi, logs, keccak, decode);
    if r.Ok? && logs != [] {
      var m := EventLookup(abi, keccak).value;
      var tx := HexString(logs[0].transactionHash);
      ProcessLogsShape(m, logs, tx, logs[0].blockNumber, decode);
      forall k | 0 <= k < |r.value|
        ensures exists j :: 0 <= j < |abi| && IsEvent(abi[j]) && abi[j].name == r.value[k].name
      {
        MatchedNamesFromLookup(m, logs, r.value[k].name);
        var s :| s in m && m[s].name == r.value[k].name;
        var j :| 0 <= j < |abi| && abi[j] == m[s];
      }
    }
  }

  lemma {:induction false} MatchedNamesFromLookup(m: map<string, AbiEntry>, rest: seq<RawLog>, n: string)
    requires n in MatchedNames(m, rest)
    ensures exists s :: s in m && m[s].name == n
    decreases |rest|
  {
    var h := MatchedName(m, rest[0]);
    assert MatchedNames(m, rest) == h + MatchedNames(m, rest[1..]);
    if n !in h {
      MatchedNamesFromLookup(m, rest[1..], n);
    }
  }

  /** `process_events(contract, logs)`. */
  method ProcessEvents(abi: seq<AbiEntry>, logs: seq<RawLog>, keccak: Keccak, decode: Decoder)
    returns (r: Result<seq<Event>>)
    ensures r == ProcessSpec(abi, logs, keccak, decode)
  {
    var events: seq<Event> := [];
    var lookup := EventsFromAbi(abi, keccak);
    if lookup.Err? {
      return Err(lookup.error);
    }
    var eventLookup := lookup.value;
    LookupEntriesHaveInputs(abi, keccak);
    if |logs| == 0 {
      return Ok(events);
    }
    ghost var tx := HexString(logs[0].transactionHash);
    ghost var block := logs[0].blockNumber;
    assert logs[0..] == logs;
    ghost var whole := ProcessLogs(eventLookup, logs, tx, block, decode);
    if whole.Ok? {
      assert [] + whole.value == whole.value;
    }
    for i := 0 to |logs|
      invariant Prepend(events, ProcessLogs(eventLookup, logs[i..], tx, block, decode))
                == ProcessLogs(eventLookup, logs, tx, block, decode)
    {
      var eventLog := logs[i];
      assert logs[i..][0] == eventLog && logs[i..][1..] == logs[i + 1..];
      if |eventLog.topics| == 0 {
        return Err(IndexError);
      }
      var topicSig := HexString(eventLog.topics[0]);
      if topicSig in eventLookup {
        var newEvent := EventFromLog(eventLookup[topicSig], eventLog, decode);
        if newEvent.Err? {
          return Err(newEvent.error);
        }
        var ev := Event(eventLookup[topicSig].name, newEvent.value.args,
                        HexString(logs[0].transactionHash), logs[0].blockNumber);
        var rest := ProcessLogs(eventLookup, logs[i + 1..], tx, block, decode);
        if rest.Ok? {
          assert events + ([ev] + rest.value) == (events + [ev]) + rest.value;
        }
        events := events + [ev];
      } else {
        var rest := ProcessLogs(eventLookup, logs[i + 1..], tx, block, decode);
        if rest.Ok? {
          assert [] + rest.value == rest.value;
        }
      }
    }
    assert logs[|logs|..] == [];
    assert events + [] == events;
    return Ok(events);
  }

  // ---------------------------------------------------------------------------
  // fetch_events
  // ---------------------------------------------------------------------------

  /** `fetch_events(conn, web3, scatter)` with `logs` the answer of
      `eth_getLogs`: nothing happens without logs or without events, the
      events are stored otherwise. */
  function FetchSpec(st: DbState, abi: seq<AbiEntry>, logs: seq<RawLog>, keccak: Keccak, decode: Decoder)
    : (Option<Error>, DbState, seq<Call>)
  {
    if logs == [] then (None, st, [])
    else
      match ProcessSpec(abi, logs, keccak, decode)
      case Err(e) => (Some(e), st, [])
      case Ok(evs) => if evs == [] then (None, st, []) else StoreAll(st, evs)
  }

  /** Fetching keeps the schema, only adds rows, and never marks a bid
      pinned; without logs or without decoded events it changes nothing, and
      a decoding error is raised before anything is stored. */
  lemma FetchFrame(st: DbState, abi: seq<AbiEntry>, logs: seq<RawLog>, keccak: Keccak, decode: Decoder)
    ensures var (err, st', calls) := FetchSpec(st, abi, logs, keccak, decode);
      && st'.tables == st.tables && st'.actionTypes == st.actionTypes
      && st.events <= st'.events && st.bids <= st'.bids
      && (NothingPinned(st) ==> NothingPinned(st'))
      && (Consistent(st) ==> Consistent(st'))
      && (logs == [] || ProcessSpec(abi, logs, keccak, decode) == Ok([]) ==> err.None? && st' == st && calls == [])
      && (logs != [] && ProcessSpec(abi, logs, keccak, decode).Err? ==>
            err == Some(ProcessSpec(abi, logs, keccak, decode).error) && st' == st && calls == [])
  {
    if logs != [] {
      var p := ProcessSpec(abi, logs, keccak, decode);
      if p.Ok? && p.value != [] {
        StoreAllFrame(st, p.value);
        if NothingPinned(st) {
          StoreAllNeverPins(st, p.value);
        }
        if Consistent(st) {
          StoreAllKeepsConsistent(st, p.value);
        }
      }
    }
  }

  /** `fetch_events(conn, web3, scatter)`. */
  method FetchEvents(db: Database, abi: seq<AbiEntry>, logs: seq<RawLog>, keccak: Keccak, decode: Decoder)
    returns (err: Option<Error>, calls: seq<Call>)
    modifies db
    ensures (err, db.State(), calls) == FetchSpec(old(db.State()), abi, logs, keccak, decode)
  {
    err, calls := None, [];
    if |logs| > 0 {
      var events := ProcessEvents(abi, logs, keccak, decode);
      if events.Err? {
        return Some(events.error), [];
      }
      if |events.value| > 0 {
        err, calls := StoreEvents(db, events.value);
      }
    }
  }

  // ---------------------------------------------------------------------------
  // validate_run
  // ---------------------------------------------------------------------------

  /** `not my_account or not router_address`: a missing or empty setting. */
  predicate Missing(setting: Option<string>)
  {
    setting.None? || setting.value == ""
  }

  /** The start-up check of `validate_run`: ValidatorError unless both the
      validator account and the router address are set. */
  function StartupCheck(account: Option<string>, router: Option<string>): (r: Option<Error>)
    ensures r.None? <==> account.Some? && account.value != "" && router.Some? && router.value != ""
    ensures r.Some? ==> r.value == ValidatorError
  {
    if Missing(account) || Missing(router) then Some(ValidatorError) else None
  }

  /** What one round ends in: `validate_bid` followed by the short delay, or
      the long delay when there was nothing to validate. */
  datatype Step = Validate(bidId: Value, delay: int) | Idle(delay: int)

  /** `if bid_id > -1`: an integer (or a boolean, which Python compares as
      0 or 1) is compared with -1; any other value raises TypeError. */
  function NextStep(bidId: Value): (r: Result<Step>)
    ensures r.Ok? <==> bidId.Int? || bidId.Bool?
    ensures r.Ok? ==> (r.value.Validate? <==> bidId != Int(-1) && !(bidId.Int? && bidId.i < -1))
    ensures r.Ok? && r.value.Validate? ==> r.value == Validate(bidId, STD_PROCESS_DELAY)
    ensures r.Ok? && r.value.Idle? ==> r.value == Idle(SETTLED_PROCESS_DELAY)
  {
    match bidId
    case Int(i) => Ok(if i > -1 then Validate(bidId, STD_PROCESS_DELAY) else Idle(SETTLED_PROCESS_DELAY))
    case Bool(b) => Ok(Validate(bidId, STD_PROCESS_DELAY))
    case _ => Err(TypeError)
  }

  /** The shuffle of a round puts each list of `n` pins in some order. */
  ghost predicate Shuffles(shuffle: nat -> seq<nat>)
  {
    forall n: nat :: IsPermutation(shuffle(n), n)
  }

  /** What the node answers in one round of the loop. */
  datatype Round = Round(logs: seq<RawLog>, shuffle: nat -> seq<nat>, live: LiveLookup, count: CountLookup)

  ghost predicate EveryRoundShuffles(rounds: seq<Round>)
  {
    forall k :: 0 <= k < |rounds| ==> Shuffles(rounds[k].shuffle)
  }

  /** The bid_ids of the bids awaiting validation by `me`. */
  ghost function AwaitingIds(st: DbState, me: string): set<Value>
  {
    set row | row in st.bids && AwaitingValidation(row, me) :: row.bidId
  }

  /** The listing of a state holds, for each pin, the bid_id of a bid
      awaiting validation by `me`. */
  lemma ToValidateListsAwaiting(st: DbState, me: string)
    ensures ToValidate(st, me).Ok? ==>
      forall k :: 0 <= k < |ToValidate(st, me).value| ==> ToValidate(st, me).value[k].bidId in AwaitingIds(st, me)
  {
    var r := ToValidate(st, me);
    if r.Ok? {
      forall k | 0 <= k < |r.value| ensures r.value[k].bidId in AwaitingIds(st, me) {
        assert r.value[k] in r.value;
      }
    }
  }

  /** The part of an iteration after fetching: list the bids awaiting
      validation by `me`, select one with the `max_file_size` option, and
      decide the step. */
  function StepSpec(st: DbState, me: string, maxFileSize: Option<int>, round: Round): (r: Result<Step>)
    requires Shuffles(round.shuffle)
    ensures r.Ok? ==> DelayMatches(r.value)
  {
    match ToValidate(st, me)
    case Err(e) => Err(e)
    case Ok(pins) =>
      match SelectSpec(pins, map["max_file_size" := maxFileSize], round.shuffle(|pins|), round.live, round.count)
      case Err(e) => Err(e)
      case Ok(bidId) => NextStep(bidId)
  }

  /** One iteration of the loop of `validate_run`: fetch and store the
      events, then choose the step on the new state. */
  function IterationSpec(st: DbState, abi: seq<AbiEntry>, keccak: Keccak, decode: Decoder, me: string,
                         maxFileSize: Option<int>, round: Round): (r: (Result<Step>, DbState, seq<Call>))
    requires Shuffles(round.shuffle)
    ensures r.0.Ok? ==> DelayMatches(r.0.value)
  {
    var (e1, s1, calls) := FetchSpec(st, abi, round.logs, keccak, decode);
    if e1.Some? then (Err(e1.value), s1, calls)
    else (StepSpec(s1, me, maxFileSize, round), s1, calls)
  }

  /** On a schema where no bid has been pinned (and none of the modelled
      operations pins one), a round that fetches without error always ends
      idle for the long delay, whatever the node answers. */
  lemma IdleWhenNothingPinned(st: DbState, abi: seq<AbiEntry>, keccak: Keccak, decode: Decoder, me: string,
                              maxFileSize: Option<int>, round: Round)
    requires Shuffles(round.shuffle)
    requires "bid" in st.tables && NothingPinned(st)
    requires FetchSpec(st, abi, round.logs, keccak, decode).0.None?
    ensures IterationSpec(st, abi, keccak, decode, me, maxFileSize, round).0 == Ok(Idle(SETTLED_PROCESS_DELAY))
  {
    FetchFrame(st, abi, round.logs, keccak, decode);
    var s1 := FetchSpec(st, abi, round.logs, keccak, decode).1;
    UnpinnedAwaitsNothing(s1.bids, me);
  }

  /** A step validates only the bid_id of a bid awaiting validation by
      `me` whose live record passes the bounds, and then waits the short
      delay. */
  lemma ValidatesOnlyEligible(st: DbState, me: string, maxFileSize: Option<int>, round: Round)
    requires Shuffles(round.shuffle)
    ensures var r := StepSpec(st, me, maxFileSize, round);
      r.Ok? && r.value.Validate? ==>
        && r.value.delay == STD_PROCESS_DELAY
        && r.value.bidId in AwaitingIds(st, me)
        && Passes(BoundsOf(map["max_file_size" := maxFileSize]), round.live(r.value.bidId), round.count(r.value.bidId))
  {
    var r := StepSpec(st, me, maxFileSize, round);
    if r.Ok? && r.value.Validate? {
      var pins := ToValidate(st, me).value;
      var options := map["max_file_size" := maxFileSize];
      var perm := round.shuffle(|pins|);
      SelectResult(pins, options, perm, round.live, round.count);
      ToValidateListsAwaiting(st, me);
      var j :| 0 <= j < |perm| && ScannedPast(pins, perm, 0, j, BoundsOf(options), round.live, round.count)
               && r.value.bidId == pins[perm[j]].bidId;
    }
  }

  /** The same for a whole iteration, on the state after fetching. */
  lemma IterationValidatesOnlyEligible(st: DbState, abi: seq<AbiEntry>, keccak: Keccak, decode: Decoder, me: string,
                                       maxFileSize: Option<int>, round: Round)
    requires Shuffles(round.shuffle)
    ensures var (r, s1, calls) := IterationSpec(st, abi, keccak, decode, me, maxFileSize, round);
      r.Ok? && r.value.Validate? ==>
        && r.value.delay == STD_PROCESS_DELAY
        && r.value.bidId in AwaitingIds(s1, me)
        && Passes(BoundsOf(map["max_file_size" := maxFileSize]), round.live(r.value.bidId), round.count(r.value.bidId))
  {
    ValidatesOnlyEligible(FetchSpec(st, abi, round.logs, keccak, decode).1, me, maxFileSize, round);
  }

  /** The selection and decision of one iteration, on the stored state. */
  method ChooseStep(db: Database, me: string, maxFileSize: Option<int>, round: Round) returns (r: Result<Step>)
    requires Shuffles(round.shuffle)
    ensures r == StepSpec(db.State(), me, maxFileSize, round)
  {
    var pins := GetBidsToValidate(db, me);
    if pins.Err? {
      return Err(pins.error);
    }
    var bidId := SelectRandomPinForValidation(pins.value, map["max_file_size" := maxFileSize],
                                              round.shuffle(|pins.value|), round.live, round.count);
    if bidId.Err? {
      return Err(bidId.error);
    }
    r := NextStep(bidId.value);
  }

  /** One iteration of the loop of `validate_run`. */
  method RunIteration(db: Database, abi: seq<AbiEntry>, keccak: Keccak, decode: Decoder, me: string,
                      maxFileSize: Option<int>, round: Round)
    returns (r: Result<Step>, calls: seq<Call>)
    requires Shuffles(round.shuffle)
    modifies db
    ensures (r, db.State(), calls) == IterationSpec(old(db.State()), abi, keccak, decode, me, maxFileSize, round)
  {
    var err;
    err, calls := FetchEvents(db, abi, round.logs, keccak, decode);
    if err.Some? {
      return Err(err.value), calls;
    }
    r := ChooseStep(db, me, maxFileSize, round);
  }

  /** A validation is followed by the short delay, an idle round by the
      long one. */
  predicate DelayMatches(step: Step)
  {
    step.delay == if step.Validate? then STD_PROCESS_DELAY else SETTLED_PROCESS_DELAY
  }

  /** Every step of a run waits as `DelayMatches` says. */
  predicate AllDelaysMatch(steps: seq<Step>)
  {
    forall k :: 0 <= k < |steps| ==> DelayMatches(steps[k])
  }

  lemma AllDelaysMatchCons(step: Step, steps: seq<Step>)
    requires DelayMatches(step) && AllDelaysMatch(steps)
    ensures AllDelaysMatch([step] + steps)
  {
    forall k | 0 <= k < |[step] + steps| ensures DelayMatches(([step] + steps)[k]) {
      if k > 0 {
        assert ([step] + steps)[k] == steps[k - 1];
      }
    }
  }

  lemma RunAfterStep(steps: seq<Step>, calls: seq<Call>, step: Step, c: seq<Call>,
                     out: (Option<Error>, DbState, seq<Step>, seq<Call>))
    ensures RunAfter(steps, calls, RunAfter([step], c, out)) == RunAfter(steps + [step], calls + c, out)
  {
    assert (steps + [step]) + out.2 == steps + ([step] + out.2);
    assert (calls + c) + out.3 == calls + (c + out.3);
  }

  lemma RunAfterEnd(steps: seq<Step>, calls: seq<Call>, out: (Option<Error>, DbState, seq<Step>, seq<Call>))
    requires out.2 == []
    ensures RunAfter(steps, calls, out) == (out.0, out.1, steps, calls + out.3)
  {
    assert steps + [] == steps;
  }

  /** The outcome of the rounds after `steps` and `calls` were done. */
  function RunAfter(steps: seq<Step>, calls: seq<Call>, out: (Option<Error>, DbState, seq<Step>, seq<Call>))
    : (Option<Error>, DbState, seq<Step>, seq<Call>)
  {
    (out.0, out.1, steps + out.2, calls + out.3)
  }

  /** The loop of `validate_run` over the given rounds: an error ends it. */
  function RunSpec(st: DbState, abi: seq<AbiEntry>, keccak: Keccak, decode: Decoder, me: string,
                   maxFileSize: Option<int>, rounds: seq<Round>): (Option<Error>, DbState, seq<Step>, seq<Call>)
    requires EveryRoundShuffles(rounds)
    decreases |rounds|
  {
    if rounds == [] then (None, st, [], [])
    else
      var it := IterationSpec(st, abi, keccak, decode, me, maxFileSize, rounds[0]);
      if it.0.Err? then (Some(it.0.error), it.1, [], it.2)
      else RunAfter([it.0.value], it.2, RunSpec(it.1, abi, keccak, decode, me, maxFileSize, rounds[1..]))
  }

  /** Every step of a run waits 3 seconds after a validation and 30 after
      an idle round, and a run is never longer than its rounds. */
  lemma {:induction false} RunDelays(st: DbState, abi: seq<AbiEntry>, keccak: Keccak, decode: Decoder, me: string,
                                     maxFileSize: Option<int>, rounds: seq<Round>)
    requires EveryRoundShuffles(rounds)
    ensures var (e, st', steps, calls) := RunSpec(st, abi, keccak, decode, me, maxFileSize, rounds);
      && |steps| <= |rounds|
      && (e.None? ==> |steps| == |rounds|)
      && AllDelaysMatch(steps)
    decreases |rounds|
  {
    if rounds != [] {
      var it := IterationSpec(st, abi, keccak, decode, me, maxFileSize, rounds[0]);
      if it.0.Ok? {
        var next := RunSpec(it.1, abi, keccak, decode, me, maxFileSize, rounds[1..]);
        RunDelays(it.1, abi, keccak, decode, me, maxFileSize, rounds[1..]);
        AllDelaysMatchCons(it.0.value, next.2);
      }
    }
  }

  /** The first of the remaining rounds, and how it leads to the rest. */
  method FirstRound(db: Database, abi: seq<AbiEntry>, keccak: Keccak, decode: Decoder, me: string,
                    maxFileSize: Option<int>, rounds: seq<Round>)
    returns (r: Result<Step>, calls: seq<Call>)
    requires rounds != [] && EveryRoundShuffles(rounds)
    modifies db
    ensures RunSpec(old(db.State()), abi, keccak, decode, me, maxFileSize, rounds) ==
      if r.Err? then (Some(r.error), db.State(), [], calls)
      else RunAfter([r.value], calls, RunSpec(db.State(), abi, keccak, decode, me, maxFileSize, rounds[1..]))
  {
    r, calls := RunIteration(db, abi, keccak, decode, me, maxFileSize, rounds[0]);
  }

  /** The loop of `validate_run` over the given rounds, on an open
      database. */
  method RunRounds(db: Database, abi: seq<AbiEntry>, keccak: Keccak, decode: Decoder, me: string,
                   maxFileSize: Option<int>, rounds: seq<Round>)
    returns (err: Option<Error>, steps: seq<Step>, calls: seq<Call>)
    requires EveryRoundShuffles(rounds)
    modifies db
    ensures (err, db.State(), steps, calls) == RunSpec(old(db.State()), abi, keccak, decode, me, maxFileSize, rounds)
  {
    err, steps, calls := None, [], [];
    ghost var whole := RunSpec(db.State(), abi, keccak, decode, me, maxFileSize, rounds);
    assert [] + whole.2 == whole.2 && [] + whole.3 == whole.3;
    var rest := rounds;
    while rest != []
      invariant EveryRoundShuffles(rest)
      invariant whole == RunAfter(steps, calls, RunSpec(db.State(), abi, keccak, decode, me, maxFileSize, rest))
      decreases |rest|
    {
      var r, c := FirstRound(db, abi, keccak, decode, me, maxFileSize, rest);
      if r.Err? {
        RunAfterEnd(steps, calls, (Some(r.error), db.State(), [], c));
        assert whole == (Some(r.error), db.State(), steps, calls + c);
        return Some(r.error), steps, calls + c;
      }
      RunAfterStep(steps, calls, r.value, c, RunSpec(db.State(), abi, keccak, decode, me, maxFileSize, rest[1..]));
      steps, calls, rest := steps + [r.value], calls + c, rest[1..];
    }
    assert RunSpec(db.State(), abi, keccak, decode, me, maxFileSize, rest) == (None, db.State(), [], []);
    RunAfterEnd(steps, calls, (None, db.State(), [], []));
    assert whole == (None, db.State(), steps, calls + []);
    assert calls + [] == calls;
  }

  /** `validate_run(conf)` over the given rounds: the start-up check, the
      connection to `file` (the configured database), then one iteration
      per round until one raises. */
  method ValidateRun(conn: Connector, file: Database, account: Option<string>, router: Option<string>,
                     maxFileSize: Option<int>, abi: seq<AbiEntry>, keccak: Keccak, decode: Decoder,
                     rounds: seq<Round>)
    returns (err: Option<Error>, steps: seq<Step>, calls: seq<Call>)
    requires EveryRoundShuffles(rounds)
    modifies conn, if conn.cached == null then file else conn.cached
    ensures StartupCheck(account, router).Some? ==>
      && err == Some(ValidatorError) && steps == [] && calls == [] && conn.cached == old(conn.cached)
      && unchanged(file) && (old(conn.cached) != null ==> unchanged(old(conn.cached)))
    ensures StartupCheck(account, router).None? ==>
      && conn.cached == (if old(conn.cached) == null then file else old(conn.cached))
      && var c := conn.cached;
         var (cerr, st1) := ConnectSpec(old(c.State()));
         && c != null
         && (cerr.Some? ==> err == cerr && steps == [] && calls == [] && c.State() == st1)
         && (cerr.None? ==> (err, c.State(), steps, calls) == RunSpec(st1, abi, keccak, decode, account.value, maxFileSize, rounds))
  {
    steps, calls := [], [];
    var check := StartupCheck(account, router);
    if check.Some? {
      return check, steps, calls;
    }
    var conned := conn.Connect(file);
    if conned.Err? {
      return Some(conned.error), steps, calls;
    }
    err, steps, calls := RunRounds(conned.value, abi, keccak, decode, account.value, maxFileSize, rounds);
  }
}
