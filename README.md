# scatter-daemon validator core in Dafny

This project models the core of scatter-daemon's validator, with proofs.
scatter-daemon is a Python daemon that watches the Scatter smart contract, keeps a local SQLite record of its events and bids, and picks pinned files to validate. The model covers the following parts:

- **Event-log decoding** (`Contracts`):
  - the signature preimage `Name(type1,type2,...)` that Keccak-256 hashes into a log's first topic (`gen_signature`);
  - the signature-to-event lookup (`events_from_abi`);
  - the split of input types into an indexed set and a data set (`get_types_from_inputs`);
  - the decoding of one log into named arguments (`event_from_log`).
  - Keccak-256 and `eth_abi.decode_abi` are function parameters the model knows nothing about.
- **Batch assembly** (`Validator`):
  - `process_events`, which stamps every event with the first log's transaction hash and block number;
  - the guard of `fetch_events`;
  - the start-up check, the iterations and the per-iteration decision of `validate_run`.
- **The local store** (`Db`, `Events`, `Bids`, `Pins`):
  - The SQLite file is a `Database` object. It holds a table catalogue, the `event` rows (unique on tx_hash and name), the `bid` rows (unique on tx_hash and on bid_id) and the `action_type` rows.
  - `structure_exists` and `init_structure`.
  - The process-wide cached connection (`connect`, `cursor`).
  - `store_events`: insert, silent skip of duplicates, then dispatch by name.
  - `store_pin`, up to its INSERT into a `pin` table the schema does not have.
  - `get_stored_events`, `store_bid` and the two bid queries. SQL NULL semantics apply: a NULL compared with `=` or `!=` never matches.
- **The selection rule** (`Logic`): `select_random_pin_for_validation`, a greedy scan of the pins in a shuffled order. Its bounds come from the options or from `VALIDATION_DEFAULTS`, and its reward check uses Python floor division.
- **Generic helpers** (`Utils`): `get_from_first` and `safe_slice`. An argument of `get_from_first` after the first is a dict or some other value; for the latter the model keeps only what `key in d` does (true, false, or TypeError), since `d[key]` on it raises TypeError.

Python exceptions are `Err` values of `Common.Result`, or `Some(error)` next to a new database state. The exception class is kept: ValueError, KeyError, AttributeError, OperationalError and so on.

Code that changes state is written as methods:
- the loops of `events_from_abi`, `get_types_from_inputs`, `event_from_log`, `process_events` and the selection scan;
- every operation on the database object, and the connection cache.

Each such method is proved equal to a specification function of the old state. The properties are lemmas about those functions.

Values from outside the process are inputs:
- the node's logs and live bid records;
- the validation counts;
- the shuffle, as a permutation;
- the configured account, router address and `max_file_size`.

Two facts about the code as written shape what the proofs show:
- **One transaction hash per batch.** `process_events` stamps every event of a batch with `logs[0]`'s transaction hash. The event table is unique on (tx_hash, name), so a batch stores only the first event of each name (`Events.BatchStoresFirstOfEachName`).
- **Nothing is ever pinned.** No modelled operation sets `pinned`. So on a file set up by the daemon, the listing of bids to validate stays empty, and every round that fetches without error ends idle (`Validator.IdleWhenNothingPinned`).

## Model

| member | source | states |
|---|---|---|
| Common.HexDigits | scatter_daemon/validator/main.py:37 | `.hex()` writes two hex digits per byte |
| Common.HexRoundTrip | scatter_daemon/validator/main.py:37 | the hex text of a byte string reads back to the same bytes, so `.hex()` loses nothing |
| Common.HexStringInjective | scatter_daemon/validator/main.py:37-40 | two topics give the same lookup key only if they are the same bytes |
| Records.LookupPut | scatter_daemon/common/contracts.py:132-140 | `event['args'][name] = v` makes `name` map to `v` and leaves every other key's value alone |
| Records.LookupIsKey | scatter_daemon/common/contracts.py:132-140 | a lookup succeeds exactly for the keys of the mapping |
| Records.PutKeys | scatter_daemon/common/contracts.py:132-140 | assigning keeps the insertion order of existing keys and appends a new key at the end |
| Records.PutKeepsUnique | scatter_daemon/common/contracts.py:132-140 | assigning never duplicates a key |
| Utils.FirstStop | scatter_daemon/common/utils.py:16-19 | the loop stops at the first argument that holds a non-None value for the key or that is not a dict and raises; every earlier argument is passed over |
| Utils.GetFromFirst | scatter_daemon/common/utils.py:11-20 | ValueError exactly when there are no arguments or the first is not a dict; None exactly when no argument stops the loop; the earliest non-None value when a dict stops it first; TypeError when a later non-dict argument stops it first |
| Utils.DictsOnly | scatter_daemon/common/utils.py:11-20 | with dicts only, no error; None exactly when no dict holds a non-None value for the key, otherwise the value of the first that does |
| Utils.NoneIsPassedOver | scatter_daemon/common/utils.py:17-19 | a key that an earlier dict maps to None is taken from the later dict |
| Utils.SliceBound | scatter_daemon/common/utils.py:43-45 | a slice bound is clamped into the list and kept when already inside it |
| Utils.SafeSlice | scatter_daemon/common/utils.py:39-45 | `s[start:end]` when the list reaches `end`, otherwise `s[start:len]`; always a contiguous run of length `max(0, min(end, len) - start)` |
| Contracts.Split | scatter_daemon/common/contracts.py:75 | splitting yields at least one part |
| Contracts.SplitAfterPlainPrefix | scatter_daemon/common/contracts.py:75 | a prefix without separator stays glued to the first part of what follows |
| Contracts.SplitJoin | scatter_daemon/common/contracts.py:75 | joining the types with ',' and splitting again gives the types back |
| Contracts.IndexOf | scatter_daemon/common/contracts.py:75 | the position of the first '(' of the preimage |
| Contracts.PreimageRoundTrip | scatter_daemon/common/contracts.py:74-75 | the hashed text holds exactly the entry's name and its input types in order (parameter names and indexed flags play no part) |
| Contracts.GenSignature | scatter_daemon/common/contracts.py:69-75 | ValueError exactly when name or inputs are empty or the type is neither 'function' nor 'event'; otherwise the hex Keccak of the preimage |
| Contracts.EventSignaturesCons | scatter_daemon/common/contracts.py:84-87 | the event signatures of an ABI are those of its first entry (when an event) and of the rest |
| Contracts.LookupFromUnfold | scatter_daemon/common/contracts.py:84-87 | one step of the loop adds the entry under its signature when it is an event |
| Contracts.LookupFromOk | scatter_daemon/common/contracts.py:84-87 | the loop fails exactly when some event entry has no name or no inputs |
| Contracts.LookupFromKeys | scatter_daemon/common/contracts.py:84-87 | the loop's keys are the earlier keys plus the signatures of the event entries |
| Contracts.LookupFromValues | scatter_daemon/common/contracts.py:84-87 | every new value is an event entry of the ABI with that signature |
| Contracts.LookupFromUntouched | scatter_daemon/common/contracts.py:84-87 | keys no event entry produces keep their earlier values |
| Contracts.LookupFromLast | scatter_daemon/common/contracts.py:84-87 | of two event entries with one signature, the later is kept |
| Contracts.EventLookupSpec | scatter_daemon/common/contracts.py:78-88 | fails exactly when an event entry has no name or inputs; keys are exactly the event signatures; each maps to an event entry with that signature (functions never appear), the last one when two share it |
| Contracts.EventsFromAbi | scatter_daemon/common/contracts.py:78-88 | the loop over the ABI builds exactly the lookup specified above |
| Contracts.LastInputIgnored | scatter_daemon/common/contracts.py:97 | the last input never contributes: replacing it changes nothing |
| Contracts.GetTypesFromInputs | scatter_daemon/common/contracts.py:91-105 | a type is in the indexed (data) set exactly when an input among 0..len-2 of that type has `indexed` True (False); other flags go nowhere |
| Contracts.IndexedWords | scatter_daemon/common/contracts.py:116 | at most two topic words are used, `topics[1]` and `topics[2]`, and none without topics |
| Contracts.DataAlwaysDecoded | scatter_daemon/common/contracts.py:122-125 | the data text is never empty, so the data types are decoded for every log |
| Contracts.DecodeLog | scatter_daemon/common/contracts.py:108-142 | an entry without inputs always gives the empty result, and a successful decode gives it only for such an entry; a decoded event always carries the entry's name |
| Contracts.EventFromLog | scatter_daemon/common/contracts.py:108-142 | the method's two index loops compute exactly the decoded event specified |
| Contracts.AssignOthers | scatter_daemon/common/contracts.py:132-140 | a key that no remaining input names keeps its value |
| Contracts.AssignStores | scatter_daemon/common/contracts.py:132-140 | with distinct input names, value `k` ends up under the name of input `k`, and a successful loop never has more values than inputs |
| Contracts.AssignKeys | scatter_daemon/common/contracts.py:132-140 | writing only new names appends them in input order |
| Contracts.AssignPlaces | scatter_daemon/common/contracts.py:132-140 | value `k` is stored under the name of input `k`, converted for bytes32 in the indexed loop, and there are no more values than inputs |
| Contracts.DecodedArgsPlacement | scatter_daemon/common/contracts.py:127-142 | for an entry with distinct input names, on a successful decode: indexed value `k` lands under input `k`'s name (0x-hex for bytes32) unless data value `k` overwrites it; data values are written only with more than three inputs |
| Db.Bound | scatter_daemon/storage/bids.py:15-27 | sqlite3 binds a Python boolean as an integer and every other value unchanged |
| Db.CreateTablesFacts | scatter_daemon/storage/db.py:33-49 | CREATE TABLE succeeds exactly when none of the names exists (OperationalError otherwise), adds the names to the catalogue and touches no rows |
| Db.InitSpecFacts | scatter_daemon/storage/db.py:28-55 | set-up succeeds exactly when none of TABLES exists; it then leaves the schema complete and appends 'validation', 'host' to `action_type` |
| Db.InitEmpty | scatter_daemon/storage/db.py:28-55 | on a new file, set-up succeeds with `event` and `bid` empty and `action_type` exactly ['validation', 'host'] |
| Db.InitPartialFails | scatter_daemon/storage/db.py:33-49 | a file holding some but not all of the tables can never be set up |
| Db.InitKeepsConsistent | scatter_daemon/storage/db.py:37-46 | set-up keeps the unique constraints |
| Db.ConnectSpecFacts | scatter_daemon/storage/db.py:74-78 | an initialised file is never set up again; a successful connection leaves the schema in place; connecting twice changes nothing more |
| Db.Database.constructor | scatter_daemon/storage/db.py:72 | a new file has no tables and no rows |
| Db.StructureExists | scatter_daemon/storage/db.py:14-25 | true exactly when every name of TABLES is in the catalogue |
| Db.CreateTable | scatter_daemon/storage/db.py:33 | one CREATE TABLE as specified |
| Db.InitStructure | scatter_daemon/storage/db.py:28-55 | the statements in order; an earlier CREATE stays when a later one raises |
| Db.Connector.constructor | scatter_daemon/storage/db.py:9 | no cached connection at start-up |
| Db.Connector.Connect | scatter_daemon/storage/db.py:58-78 | the first file connected is cached and returned ever after; the schema is set up only when missing |
| Db.Connector.Cursor | scatter_daemon/storage/db.py:81-90 | raises without cache and without filename; uses the cache when there is one; otherwise connects first |
| Bids.StoreBidFacts | scatter_daemon/storage/bids.py:10-36 | no error exactly when the checks pass; AssertionError for any other event name; only the bid table changes, by at most one appended row; afterwards a row with the event's tx_hash or bid_id is stored; an error leaves the file as it was |
| Bids.StoreBidDuplicate | scatter_daemon/storage/bids.py:28-31 | a bid whose tx_hash or bid_id is stored leaves the file unchanged, whatever its other fields |
| Bids.StoreBidIdempotent | scatter_daemon/storage/bids.py:10-36 | storing the same bid twice is the same as storing it once, error included |
| Bids.StoreBidKeepsConsistent | scatter_daemon/storage/bids.py:15-27 | storing a bid keeps the unique constraints |
| Bids.StoreBid | scatter_daemon/storage/bids.py:10-36 | the method does what `StoreBidSpec` says |
| Bids.PinRowsExact | scatter_daemon/storage/bids.py:46-48 | a row is listed exactly when its bidder is non-NULL and not me and `pinned` is false |
| Bids.ValidateRowsExact | scatter_daemon/storage/bids.py:73-76 | a row is listed exactly when its hoster is non-NULL and not me, `pinned` is true and `validated` is NULL or false |
| Bids.NewBidListedNowhere | scatter_daemon/storage/bids.py:15-27 | a freshly stored bid (pinned NULL) is in neither listing |
| Bids.StoreBidNeverPins | scatter_daemon/storage/bids.py:15-27 | storing a bid never sets `pinned` |
| Bids.UnpinnedAwaitsNothing | scatter_daemon/storage/bids.py:46-76 | with no row pinned, both queries return [] |
| Bids.ToPin | scatter_daemon/storage/bids.py:39-63 | OperationalError exactly without a bid table; otherwise one record per matching row, in table order, with the five columns copied; a record is listed exactly when it is that of a bid awaiting a pin |
| Bids.PinListing | scatter_daemon/storage/bids.py:46-63 | the records listed are exactly those of the rows whose bidder is not me and that are not pinned |
| Bids.ToValidate | scatter_daemon/storage/bids.py:66-91 | OperationalError exactly without a bid table; otherwise one record per matching row, in table order, with the five columns copied; a record is listed exactly when it is that of a bid awaiting validation |
| Bids.ValidateListing | scatter_daemon/storage/bids.py:73-91 | the records listed are exactly those of the pinned, unvalidated rows whose hoster is not me |
| Bids.GetBidsToPin | scatter_daemon/storage/bids.py:39-63 | the method's loop returns what `ToPin` specifies |
| Bids.GetBidsToValidate | scatter_daemon/storage/bids.py:66-91 | the method's loop returns what `ToValidate` specifies |
| Pins.StorePinSpec | scatter_daemon/storage/pins.py:10-23 | no error exactly when the event is Pinned, has bidId, hoster and fileHash, the catalogue has `pin` and the integers fit 64 bits; AssertionError for another name; no other error classes |
| Pins.NoPinTable | scatter_daemon/storage/pins.py:15-21 | without a `pin` table a Pinned event raises AttributeError exactly when an argument is missing and OperationalError exactly when all three are present |
| Pins.DaemonSchemaRejectsPins | scatter_daemon/storage/db.py:28-55 | the schema `init_structure` creates has no `pin` table, so every Pinned event fails in `store_pin` |
| Events.OneEventFacts | scatter_daemon/storage/events.py:40-66 | an insert only appends to `event` and, when it does not raise, the event's key is stored; a dispatch that raises changes nothing and records no call; one event is stored without error exactly when it is accepted |
| Events.HasEventKeyPrefix | scatter_daemon/storage/events.py:40-51 | a stored event key stays stored when rows are added |
| Events.BidClashPrefix | scatter_daemon/storage/bids.py:28-31 | a clashing bid key stays clashing when rows are added |
| Events.StoreAllFrame | scatter_daemon/storage/events.py:31-66 | storing a batch keeps the catalogue and `action_type` and only appends rows |
| Events.StoreAllSucceeds | scatter_daemon/storage/events.py:37-66 | no error exactly when every event is accepted (a Pinned event needs what `store_pin` needs, a BidSuccessful one what `store_bid` needs); then every event is dispatched by name, duplicates included |
| Events.PinnedEndsBatch | scatter_daemon/storage/events.py:58-59 | without a `pin` table, a batch holding a Pinned event always ends in an error |
| Events.StoreAllAbsorbs | scatter_daemon/storage/events.py:39-51 | after a batch, every event's (txhash, name) has a row, and every bid its row |
| Events.StoreAbsorbedIsNoop | scatter_daemon/storage/events.py:48-51 | a batch whose keys are all stored adds no row and raises nothing |
| Events.RerunFrom | scatter_daemon/storage/events.py:31-66 | replaying a batch on a file with the same catalogue that extends what the first run left raises the same error, makes the same calls and writes nothing |
| Events.StoreAllIdempotent | scatter_daemon/storage/events.py:31-66 | storing a batch twice gives the same error, file and calls as storing it once, whether or not the first run raised |
| Events.StoreAllKeepsConsistent | scatter_daemon/storage/events.py:40-55 | storing keeps the unique constraints |
| Events.StoreAllRows | scatter_daemon/storage/events.py:37-55 | the new event rows are exactly the batch's events whose key was not yet stored, in order |
| Events.NamesOfCons | scatter_daemon/storage/events.py:57 | the names of a batch are its first name and the rest's |
| Events.BatchSettingStep | scatter_daemon/storage/events.py:40-51 | within one batch, each event's insert either skips a stored name or adds its name |
| Events.FirstOfNameShift | scatter_daemon/storage/events.py:40-51 | the first event of a name stays first when a skipped event is put before it |
| Events.FreshRowsFromFirst | scatter_daemon/storage/events.py:40-51 | each new row comes from the first event of its name |
| Events.FreshRowsDistinct | scatter_daemon/storage/events.py:40-51 | the new rows have distinct names |
| Events.FreshRowsCover | scatter_daemon/storage/events.py:40-51 | every name of the batch gets a row |
| Events.BatchStoresFirstOfEachName | scatter_daemon/storage/events.py:40-51 | when a batch shares one txhash, exactly the first event of each name gets an event row |
| Events.StoreAllNeverPins | scatter_daemon/storage/events.py:56-66 | storing events never marks a bid pinned |
| Events.InsertOne | scatter_daemon/storage/events.py:39-55 | one INSERT as specified: TypeError for bytes arguments, OperationalError without table, OverflowError, silent duplicate |
| Events.StoreOne | scatter_daemon/storage/events.py:39-66 | one event: insert, then dispatch by name |
| Events.StoreEvents | scatter_daemon/storage/events.py:31-66 | the loop stores the batch as specified; nothing happens for an empty list |
| Events.GetStoredEvents | scatter_daemon/storage/events.py:11-28 | OperationalError exactly without an event table; otherwise one record per row, in order, with event_id the rowid |
| Logic.BoundOf | scatter_daemon/validator/logic.py:18-22 | each bound is the option when present and not None, the default otherwise |
| Logic.DefaultBounds | scatter_daemon/common/const.py:11-17 | with no option set, or `max_file_size` None as the validator passes it, the bounds are 0, 1073741824, 1000000000, 0 and 2678400 |
| Logic.DefaultBound | scatter_daemon/validator/logic.py:18-22 | with no option set, a bound is its default |
| Logic.FloorDiv | scatter_daemon/validator/logic.py:49 | `//` rounds toward negative infinity for either sign of the divisor |
| Logic.RewardCheck | scatter_daemon/validator/logic.py:49 | with a positive count, `pool // count >= min_reward` exactly when `pool >= min_reward * count` |
| Logic.ZeroCountIgnoresReward | scatter_daemon/validator/logic.py:47-51 | a bid with no validations is never rejected for its reward |
| Logic.SelectFromCases | scatter_daemon/validator/logic.py:27-57 | the scan raises ValueError exactly when it reaches a pin without bid_id, returns -1 when it rejects every pin, and otherwise the bid_id of the first pin that passes |
| Logic.SelectResult | scatter_daemon/validator/logic.py:27-57 | a result other than -1 is the bid_id of the first passing pin in permutation order, and that bid's live record is within the size and duration bounds and the reward check; ValueError only if some pin lacks a bid_id |
| Logic.SelectMinusOneIffNonePasses | scatter_daemon/validator/logic.py:27-57 | when every pin has a bid_id other than -1, the result is -1 exactly when no pin passes, and otherwise a passing pin's bid_id |
| Logic.Scan | scatter_daemon/validator/logic.py:27-57 | the loop returns what `SelectFrom` specifies |
| Logic.SelectRandomPinForValidation | scatter_daemon/validator/logic.py:11-57 | -1 for no pins; otherwise the bounds, then the scan, as `SelectSpec` specifies |
| Validator.LookupEntriesHaveInputs | scatter_daemon/common/contracts.py:71-73 | every entry of a built lookup has inputs, so a matched log is always decoded |
| Validator.LogEventsShape | scatter_daemon/validator/main.py:37-46 | one log gives at most one event, with the batch's stamp, named after the entry its first topic selects |
| Validator.ProcessLogsShape | scatter_daemon/validator/main.py:36-46 | at most one event per log, every one stamped with the batch's hash and block, named after the matched entries in log order |
| Validator.ProcessLogsMissingTopic | scatter_daemon/validator/main.py:37 | a log without topics fails the batch |
| Validator.ProcessEventsStamps | scatter_daemon/validator/main.py:32-47 | fails for an ABI with an unsignable event; otherwise every event carries the first log's transaction hash and block number and the name of an event entry of the ABI |
| Validator.MatchedNamesFromLookup | scatter_daemon/validator/main.py:40-42 | every matched name is the name of an entry of the lookup |
| Validator.ProcessEvents | scatter_daemon/validator/main.py:32-47 | the loop builds the batch as specified |
| Validator.FetchFrame | scatter_daemon/validator/main.py:50-61 | without logs or decoded events nothing changes; a decoding error stores nothing; otherwise rows are only added and nothing gets pinned |
| Validator.FetchEvents | scatter_daemon/validator/main.py:50-61 | the method stores exactly when logs and events are present |
| Validator.StartupCheck | scatter_daemon/validator/main.py:82-83 | ValidatorError exactly when the account or the router address is missing or empty |
| Validator.NextStep | scatter_daemon/validator/main.py:100-109 | a bid_id above -1 means validate then wait 3 seconds; otherwise wait 30; a non-number raises TypeError |
| Validator.ToValidateListsAwaiting | scatter_daemon/storage/bids.py:73-76 | every listed pin is a bid awaiting validation by me |
| Validator.StepSpec | scatter_daemon/validator/main.py:94-109 | the step chosen waits 3 seconds after a validation and 30 otherwise |
| Validator.IterationSpec | scatter_daemon/validator/main.py:89-109 | a round that does not raise ends in a step whose delay matches its kind |
| Validator.IdleWhenNothingPinned | scatter_daemon/validator/main.py:89-109 | with no bid pinned, a round that fetches without error waits 30 seconds, whatever the node answers |
| Validator.ValidatesOnlyEligible | scatter_daemon/validator/main.py:94-106 | a validated bid_id is awaiting validation by me, passes the bounds, and is followed by the 3-second wait |
| Validator.IterationValidatesOnlyEligible | scatter_daemon/validator/main.py:89-106 | the same for a whole round, on the state after fetching |
| Validator.ChooseStep | scatter_daemon/validator/main.py:94-109 | list, select and decide as specified |
| Validator.RunIteration | scatter_daemon/validator/main.py:89-109 | one round: fetch, then choose the step on the new state |
| Validator.RunDelays | scatter_daemon/validator/main.py:100-109 | each step waits 3 seconds after a validation and 30 otherwise; a run without error has one step per round |
| Validator.FirstRound | scatter_daemon/validator/main.py:89-109 | the first round and how it leads into the rest |
| Validator.RunRounds | scatter_daemon/validator/main.py:89-109 | the loop runs round after round until one raises |
| Validator.ValidateRun | scatter_daemon/validator/main.py:72-109 | ValidatorError before connecting when a setting is missing, with the file and any cached database untouched; otherwise connect, then the rounds |

## Left out

- The `while True` loop of `validate_run` is modelled over a finite list of rounds. `time.sleep` is the delay recorded in each step.
- `validate_bid` (it only prints), `validate` and `get_job` are stubs. A `Validate` step records the bid that would be validated.
- Logging and every `print` are not modelled.
- Web3 and contract set-up are not modelled: `init_web3`, `init_router_contract`, `init_scatter_contract` and `load_abi`. The ABI is an input.
- `eth_getLogs`, `getBid` and `getValidationCount` are inputs: the logs and two functions per round.
- An ABI entry or input without `name` or `type` is modelled with the empty string there. In the source, `x['type']` (scatter_daemon/common/contracts.py:74), `abi_inputs[i]['type']` (lines 99 and 101) and `abi['inputs'][i]['type']` and `['name']` (lines 133-140) raise KeyError instead; `gen_signature` itself uses `.get` for the entry's `name` and `type`, which the model follows.
- A log's `data` is the byte string its hex text stands for. The client hands over 0x-prefixed text, so the `len(data) > 0` test at scatter_daemon/common/contracts.py:122 always holds and the data types are always decoded (`Contracts.DataAlwaysDecoded`).
- Keccak-256 and `eth_abi.decode_abi` are function parameters. The decoder receives the type SET, so the order in which Python iterates a set lives inside it.
- `random.shuffle` is a permutation given per round.
- Configuration reading is not modelled. The account, router address and `max_file_size` are inputs.
  - In scatter_daemon/common/config.py, `max_file_size` is written to the root section but read from the validator section, so it reaches the selection as None and the default applies (`Logic.DefaultBounds`).
- Logic.SelectRandomPinForValidation: options hold integers or None. A string option would raise TypeError in the comparisons, and this is not modelled.
- `store_pin` is modelled up to its INSERT (`Pins.StorePinSpec`): its AttributeError, its OperationalError without a `pin` table, its OverflowError. The `pin` rows it would write are not kept; a successful call is recorded as a dispatch call.
- Events.StoreAllSucceeds: an Accepted event is taken to dispatch without error, and is recorded as a call. `store_accept`, imported at scatter_daemon/storage/events.py:5, is not defined in scatter_daemon/storage/pins.py, so the import itself fails in the source.
- The other functions of scatter_daemon/storage/pins.py (`set_pin_validated`, `get_available_pins`) are not part of this model: nothing in the core calls them.
- The JSON text in the `args` column is not modelled. A row holds the argument mapping itself, and `json.loads` of `json.dumps` is taken to give it back.
  - `json.dumps` raising TypeError on raw bytes is modelled.
- SQLite type affinity is not modelled. A value is stored as bound, except that booleans become integers.
- Commits and transactions are not modelled.
- Each row's rowid is its position plus one, since no row is ever deleted.
- The `action` table never receives rows, so it is only a catalogue entry.
- The filesystem side of `connect` is not modelled: the directory creation, the StorageError and `sqlite3.connect` itself. `Connector.Connect` is handed the database the path names.
- The other helpers of scatter_daemon/common/utils.py are not part of this model: `read_json_file`, `address_in_keys` and `is_free_space_available`.
- Validator.ValidateRun: its contract speaks of the cached database through `old`, and it does not restate the properties of the rounds. Those are the lemmas about `IterationSpec` and `RunSpec`.
