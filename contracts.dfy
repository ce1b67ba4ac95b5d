/** Event-log decoding: the signature preimage that is hashed into a log's
    first topic, the lookup from signature to ABI event entry, the split of an
    entry's input types into indexed and data types, and the decoding of one
    log into a name and an argument mapping.

    Keccak-256 and `eth_abi.decode_abi` are foreign code and are parameters
    here (`Keccak`, `Decoder`). `decode_abi` receives a Python SET of type
    names, so the order in which it sees them is whatever the set's iteration
    order is; the decoder parameter receives the set and that order is part of
    what it leaves unspecified. */
module Contracts {
  import opened Common
  import opened Records
  import opened Utils

  /** The `indexed` field of an ABI input: `True`, `False`, some other value,
      or no such key. */
  datatype IndexedFlag = Yes | No | Other | Absent

  /** One ABI input; an absent or empty string is "". */
  datatype AbiInput = AbiInput(name: string, typ: string, indexed: IndexedFlag)

  /** One ABI entry (`type` is `kind` here); an absent or empty field is ""
      or the empty list, which Python treats alike as false. */
  datatype AbiEntry = AbiEntry(name: string, kind: string, inputs: seq<AbiInput>)

  type Word = seq<Byte>

  /** A log as the chain client returns it. `data` holds the bytes that the
      client's 0x-prefixed hex text stands for. */
  datatype RawLog = RawLog(topics: seq<Word>, data: seq<Byte>, transactionHash: Word, blockNumber: int)

  /** Keccak-256 of a text (`Web3.sha3(text=...)`). */
  type Keccak = string -> Word

  /** `eth_abi.decode_abi(types, data)`: the decoded values, or None when it
      raises. */
  type Decoder = (set<string>, seq<Byte>) -> Option<seq<Value>>

  // ---------------------------------------------------------------------------
  // gen_signature
  // ---------------------------------------------------------------------------

  function Types(inputs: seq<AbiInput>): (ts: seq<string>)
    ensures |ts| == |inputs|
    ensures forall i :: 0 <= i < |inputs| ==> ts[i] == inputs[i].typ
  {
    seq(|inputs|, i requires 0 <= i < |inputs| => inputs[i].typ)
  }

  /** `sep.join(parts)`. */
  function Join(parts: seq<string>, sep: char): string
  {
    if |parts| == 0 then ""
    else if |parts| == 1 then parts[0]
    else parts[0] + [sep] + Join(parts[1..], sep)
  }

  /** `s.split(sep)`. */
  function Split(s: string, sep: char): (r: seq<string>)
    ensures |r| >= 1
  {
    if s == [] then [""]
    else
      var rest := Split(s[1..], sep);
      if s[0] == sep then [""] + rest else [[s[0]] + rest[0]] + rest[1..]
  }

  lemma {:induction false} SplitAfterPlainPrefix(x: string, y: string, sep: char)
    requires sep !in x
    ensures Split(x + y, sep) == [x + Split(y, sep)[0]] + Split(y, sep)[1..]
  {
    var S := Split(y, sep);
    if x == [] {
      assert x + y == y;
      assert x + S[0] == S[0];
      assert S == [S[0]] + S[1..];
    } else {
      assert (x + y)[0] == x[0] != sep;
      assert (x + y)[1..] == x[1..] + y;
      SplitAfterPlainPrefix(x[1..], y, sep);
      var rest := Split(x[1..] + y, sep);
      assert rest == [x[1..] + S[0]] + S[1..];
      assert Split(x + y, sep) == [[x[0]] + rest[0]] + rest[1..];
      AppendAssoc([x[0]], x[1..], S[0]);
      assert [x[0]] + x[1..] == x;
    }
  }

  /** Splitting a join gives the parts back when no part holds the
      separator. */
  lemma {:induction false} SplitJoin(parts: seq<string>, sep: char)
    requires |parts| >= 1
    requires forall i :: 0 <= i < |parts| ==> sep !in parts[i]
    ensures Split(Join(parts, sep), sep) == parts
  {
    assert Split([], sep) == [""];
    if |parts| == 1 {
      SplitAfterPlainPrefix(parts[0], [], sep);
      assert parts[0] + [] == parts[0];
      assert parts[0] + "" == parts[0];
    } else {
      var rest := Join(parts[1..], sep);
      assert Join(parts, sep) == parts[0] + ([sep] + rest);
      SplitAfterPlainPrefix(parts[0], [sep] + rest, sep);
      assert ([sep] + rest)[0] == sep;
      assert ([sep] + rest)[1..] == rest;
      assert Split([sep] + rest, sep) == [""] + Split(rest, sep);
      SplitJoin(parts[1..], sep);
      assert parts[0] + "" == parts[0];
      assert parts == [parts[0]] + parts[1..];
    }
  }

  /** The hashed text: `Name(type1,type2,...)`. */
  function Preimage(e: AbiEntry): string
  {
    e.name + "(" + Join(Types(e.inputs), ',') + ")"
  }

  /** The position of the first `c` in `s`, or `|s|`. */
  function IndexOf(s: string, c: char): (i: nat)
    ensures i <= |s|
    ensures i < |s| ==> s[i] == c
    ensures forall j :: 0 <= j < i ==> s[j] != c
  {
    if s == [] then 0 else if s[0] == c then 0 else 1 + IndexOf(s[1..], c)
  }

  /** Reads a preimage back into the entry name and its list of types. */
  function ParsePreimage(p: string): (string, seq<string>)
  {
    var i := IndexOf(p, '(');
    if i + 1 < |p| then (p[..i], Split(p[i + 1..|p| - 1], ',')) else (p, [])
  }

  /** The preimage holds exactly the entry's name and its input types in
      declaration order: parsing it gives them back, so parameter names and
      indexed flags do not enter the signature. */
  lemma PreimageRoundTrip(e: AbiEntry)
    requires '(' !in e.name
    requires |e.inputs| >= 1
    requires forall i :: 0 <= i < |e.inputs| ==> ',' !in e.inputs[i].typ
    ensures ParsePreimage(Preimage(e)) == (e.name, Types(e.inputs))
  {
    var body := Join(Types(e.inputs), ',');
    var p := Preimage(e);
    assert p == e.name + ['('] + body + [')'];
    assert p[|e.name|] == '(';
    assert forall j :: 0 <= j < |e.name| ==> p[j] == e.name[j];
    assert IndexOf(p, '(') == |e.name|;
    assert p[..|e.name|] == e.name;
    assert p[|e.name| + 1..|p| - 1] == body;
    SplitJoin(Types(e.inputs), ',');
  }

  /** The hex signature of an entry, whether or not `gen_signature` accepts
      it. */
  function SignatureOf(e: AbiEntry, keccak: Keccak): string
  {
    HexString(keccak(Preimage(e)))
  }

  /** `gen_signature(abi_entry)`: ValueError when the name, the type or the
      inputs are missing or empty or the type is neither 'function' nor
      'event' (so an event without inputs is refused); otherwise the hex hash
      of the preimage. */
  function GenSignature(e: AbiEntry, keccak: Keccak): (r: Result<string>)
    ensures r.Err? <==> e.name == "" || |e.inputs| == 0 || (e.kind != "function" && e.kind != "event")
    ensures r.Err? ==> r.error == ValueError
    ensures r.Ok? ==> r.value == SignatureOf(e, keccak)
  {
    if e.name == "" || e.kind == "" || |e.inputs| == 0 || e.kind !in {"function", "event"} then
      Err(ValueError)
    else
      Ok(SignatureOf(e, keccak))
  }

  // ---------------------------------------------------------------------------
  // events_from_abi
  // ---------------------------------------------------------------------------

  predicate IsEvent(e: AbiEntry) { e.kind == "event" }

  /** The loop of `events_from_abi` from entry `abi[0]` on, with `acc` the
      lookup built so far. */
  function LookupFrom(abi: seq<AbiEntry>, acc: map<string, AbiEntry>, keccak: Keccak): Result<map<string, AbiEntry>>
    decreases |abi|
  {
    if abi == [] then Ok(acc)
    else if IsEvent(abi[0]) then
      match GenSignature(abi[0], keccak)
      case Err(e) => Err(e)
      case Ok(sig) => LookupFrom(abi[1..], acc[sig := abi[0]], keccak)
    else LookupFrom(abi[1..], acc, keccak)
  }

  /** The result of `events_from_abi(abi)`. */
  function EventLookup(abi: seq<AbiEntry>, keccak: Keccak): Result<map<string, AbiEntry>>
  {
    if |abi| < 1 then Ok(map[]) else LookupFrom(abi, map[], keccak)
  }

  predicate AllEventsSignable(abi: seq<AbiEntry>)
  {
    forall i :: 0 <= i < |abi| && IsEvent(abi[i]) ==> abi[i].name != "" && |abi[i].inputs| > 0
  }

  /** The later of two event entries with one signature wins. */
  predicate LastWithSignature(abi: seq<AbiEntry>, i: int, keccak: Keccak)
    requires 0 <= i < |abi|
  {
    forall j :: i < j < |abi| && IsEvent(abi[j]) ==> SignatureOf(abi[j], keccak) != SignatureOf(abi[i], keccak)
  }

  /** The signatures of the event entries of `abi`. */
  function EventSignatures(abi: seq<AbiEntry>, keccak: Keccak): set<string>
  {
    set i | 0 <= i < |abi| && IsEvent(abi[i]) :: SignatureOf(abi[i], keccak)
  }

  lemma EventSignaturesCons(abi: seq<AbiEntry>, keccak: Keccak)
    requires abi != []
    ensures EventSignatures(abi, keccak) == EventSignatures(abi[1..], keccak)
              + (if IsEvent(abi[0]) then {SignatureOf(abi[0], keccak)} else {})
  {
    var rest := abi[1..];
    forall s | s in EventSignatures(abi, keccak)
      ensures s in EventSignatures(rest, keccak) + (if IsEvent(abi[0]) then {SignatureOf(abi[0], keccak)} else {})
    {
      var i :| 0 <= i < |abi| && IsEvent(abi[i]) && SignatureOf(abi[i], keccak) == s;
      if i > 0 { assert rest[i - 1] == abi[i]; }
    }
    forall s | s in EventSignatures(rest, keccak) ensures s in EventSignatures(abi, keccak) {
      var i :| 0 <= i < |rest| && IsEvent(rest[i]) && SignatureOf(rest[i], keccak) == s;
      assert abi[i + 1] == rest[i];
    }
  }

  /** The step of the loop: what one entry adds to the lookup. */
  function StepLookup(e: AbiEntry, acc: map<string, AbiEntry>, keccak: Keccak): map<string, AbiEntry>
  {
    if IsEvent(e) then acc[SignatureOf(e, keccak) := e] else acc
  }

  lemma LookupFromUnfold(abi: seq<AbiEntry>, acc: map<string, AbiEntry>, keccak: Keccak)
    requires abi != []
    requires IsEvent(abi[0]) ==> abi[0].name != "" && |abi[0].inputs| > 0
    ensures LookupFrom(abi, acc, keccak) == LookupFrom(abi[1..], StepLookup(abi[0], acc, keccak), keccak)
  {
  }

  lemma {:induction false} LookupFromOk(abi: seq<AbiEntry>, acc: map<string, AbiEntry>, keccak: Keccak)
    ensures LookupFrom(abi, acc, keccak).Ok? <==> AllEventsSignable(abi)
    decreases |abi|
  {
    if abi != [] {
      var rest := abi[1..];
      assert forall i :: 1 <= i < |abi| ==> abi[i] == rest[i - 1];
      LookupFromOk(rest, StepLookup(abi[0], acc, keccak), keccak);
      assert AllEventsSignable(abi) <==>
        (IsEvent(abi[0]) ==> abi[0].name != "" && |abi[0].inputs| > 0) && AllEventsSignable(rest);
    }
  }

  lemma {:induction false} LookupFromKeys(abi: seq<AbiEntry>, acc: map<string, AbiEntry>, keccak: Keccak)
    requires LookupFrom(abi, acc, keccak).Ok?
    ensures LookupFrom(abi, acc, keccak).value.Keys == acc.Keys + EventSignatures(abi, keccak)
    decreases |abi|
  {
    if abi != [] {
      LookupFromOk(abi, acc, keccak);
      LookupFromUnfold(abi, acc, keccak);
      LookupFromKeys(abi[1..], StepLookup(abi[0], acc, keccak), keccak);
      EventSignaturesCons(abi, keccak);
    }
  }

  lemma {:induction false} LookupFromValues(abi: seq<AbiEntry>, acc: map<string, AbiEntry>, keccak: Keccak)
    requires LookupFrom(abi, acc, keccak).Ok?
    ensures var m := LookupFrom(abi, acc, keccak).value;
      forall s :: s in m ==>
        ((s in acc && m[s] == acc[s]) || (m[s] in abi && IsEvent(m[s]) && SignatureOf(m[s], keccak) == s))
    decreases |abi|
  {
    if abi != [] {
      LookupFromOk(abi, acc, keccak);
      LookupFromUnfold(abi, acc, keccak);
      LookupFromValues(abi[1..], StepLookup(abi[0], acc, keccak), keccak);
      assert forall e :: e in abi[1..] ==> e in abi;
    }
  }

  lemma {:induction false} LookupFromUntouched(abi: seq<AbiEntry>, acc: map<string, AbiEntry>, keccak: Keccak)
    requires LookupFrom(abi, acc, keccak).Ok?
    ensures var m := LookupFrom(abi, acc, keccak).value;
      forall s :: s in acc && s !in EventSignatures(abi, keccak) ==> s in m && m[s] == acc[s]
    decreases |abi|
  {
    if abi != [] {
      LookupFromOk(abi, acc, keccak);
      LookupFromUnfold(abi, acc, keccak);
      LookupFromUntouched(abi[1..], StepLookup(abi[0], acc, keccak), keccak);
      EventSignaturesCons(abi, keccak);
    }
  }

  lemma {:induction false} LookupFromLast(abi: seq<AbiEntry>, acc: map<string, AbiEntry>, keccak: Keccak)
    requires LookupFrom(abi, acc, keccak).Ok?
    ensures var m := LookupFrom(abi, acc, keccak).value;
      forall i :: 0 <= i < |abi| && IsEvent(abi[i]) && LastWithSignature(abi, i, keccak) ==>
        SignatureOf(abi[i], keccak) in m && m[SignatureOf(abi[i], keccak)] == abi[i]
    decreases |abi|
  {
    if abi != [] {
      var rest := abi[1..];
      var acc' := StepLookup(abi[0], acc, keccak);
      LookupFromOk(abi, acc, keccak);
      LookupFromUnfold(abi, acc, keccak);
      LookupFromLast(rest, acc', keccak);
      var m := LookupFrom(abi, acc, keccak).value;
      forall i | 0 <= i < |abi| && IsEvent(abi[i]) && LastWithSignature(abi, i, keccak)
        ensures SignatureOf(abi[i], keccak) in m && m[SignatureOf(abi[i], keccak)] == abi[i]
      {
        if i > 0 {
          assert rest[i - 1] == abi[i];
          assert LastWithSignature(rest, i - 1, keccak) by {
            forall j | i - 1 < j < |rest| && IsEvent(rest[j])
              ensures SignatureOf(rest[j], keccak) != SignatureOf(rest[i - 1], keccak)
            {
              assert rest[j] == abi[j + 1];
            }
          }
        } else {
          var s := SignatureOf(abi[0], keccak);
          assert forall j :: 0 <= j < |rest| ==> rest[j] == abi[j + 1];
          LookupFromUntouched(rest, acc', keccak);
        }
      }
    }
  }

  /** `events_from_abi(abi)` fails exactly when some event entry has no name
      or no inputs. Otherwise its keys are exactly the signatures of the
      entries whose type is 'event'; every key maps to an event entry of the
      ABI with that signature (so function entries never appear), and to the
      last such entry when two share a signature. */
  lemma EventLookupSpec(abi: seq<AbiEntry>, keccak: Keccak)
    ensures EventLookup(abi, keccak).Ok? <==> AllEventsSignable(abi)
    ensures EventLookup(abi, keccak).Ok? ==>
      var m := EventLookup(abi, keccak).value;
      && m.Keys == EventSignatures(abi, keccak)
      && (forall s :: s in m ==> m[s] in abi && IsEvent(m[s]) && SignatureOf(m[s], keccak) == s)
      && (forall i :: 0 <= i < |abi| && IsEvent(abi[i]) && LastWithSignature(abi, i, keccak) ==>
                       m[SignatureOf(abi[i], keccak)] == abi[i])
  {
    LookupFromOk(abi, map[], keccak);
    if |abi| >= 1 && AllEventsSignable(abi) {
      LookupFromKeys(abi, map[], keccak);
      LookupFromValues(abi, map[], keccak);
      LookupFromLast(abi, map[], keccak);
    }
  }

  /** `events_from_abi(abi)`. */
  method EventsFromAbi(abi: seq<AbiEntry>, keccak: Keccak) returns (r: Result<map<string, AbiEntry>>)
    ensures r == EventLookup(abi, keccak)
  {
    if |abi| < 1 {
      return Ok(map[]);
    }
    var events: map<string, AbiEntry> := map[];
    for i := 0 to |abi|
      invariant LookupFrom(abi[i..], events, keccak) == LookupFrom(abi, map[], keccak)
    {
      var ent := abi[i];
      assert abi[i..][1..] == abi[i + 1..];
      if ent.kind == "event" {
        var sig := GenSignature(ent, keccak);
        if sig.Err? {
          return Err(sig.error);
        }
        events := events[sig.value := ent];
      }
    }
    return Ok(events);
  }

  // ---------------------------------------------------------------------------
  // get_types_from_inputs
  // ---------------------------------------------------------------------------

  datatype TypeSets = TypeSets(indexed: set<string>, data: set<string>)

  /** What `get_types_from_inputs` returns: only inputs `0 .. len - 2` are
      examined; an examined input without an `indexed` key raises KeyError;
      `indexed` True puts its type in the indexed set, False in the data set,
      any other value in neither. */
  function TypesOf(inputs: seq<AbiInput>): Result<TypeSets>
  {
    if exists i :: 0 <= i < |inputs| - 1 && inputs[i].indexed == Absent then Err(KeyError)
    else Ok(TypeSets(set i | 0 <= i < |inputs| - 1 && inputs[i].indexed == Yes :: inputs[i].typ,
                     set i | 0 <= i < |inputs| - 1 && inputs[i].indexed == No :: inputs[i].typ))
  }

  /** The last input never contributes: replacing it changes nothing. */
  lemma LastInputIgnored(inputs: seq<AbiInput>, x: AbiInput, y: AbiInput)
    ensures TypesOf(inputs + [x]) == TypesOf(inputs + [y])
  {
    var a, b := inputs + [x], inputs + [y];
    assert forall i :: 0 <= i < |inputs| ==> a[i] == b[i] == inputs[i];
    assert (set i | 0 <= i < |a| - 1 && a[i].indexed == Yes :: a[i].typ)
        == (set i | 0 <= i < |b| - 1 && b[i].indexed == Yes :: b[i].typ);
    assert (set i | 0 <= i < |a| - 1 && a[i].indexed == No :: a[i].typ)
        == (set i | 0 <= i < |b| - 1 && b[i].indexed == No :: b[i].typ);
  }

  /** `get_types_from_inputs(abi_inputs)`. */
  method GetTypesFromInputs(inputs: seq<AbiInput>) returns (r: Result<TypeSets>)
    ensures r == TypesOf(inputs)
    ensures r.Ok? ==> forall t :: t in r.value.indexed <==>
              exists i :: 0 <= i < |inputs| - 1 && inputs[i].typ == t && inputs[i].indexed == Yes
    ensures r.Ok? ==> forall t :: t in r.value.data <==>
              exists i :: 0 <= i < |inputs| - 1 && inputs[i].typ == t && inputs[i].indexed == No
  {
    var indexedTypes: set<string> := {};
    var dataTypes: set<string> := {};
    var n := |inputs| - 1;
    var i := 0;
    while i < n
      invariant 0 <= i <= Max(n, 0)
      invariant forall j :: 0 <= j < i ==> inputs[j].indexed != Absent
      invariant indexedTypes == set j | 0 <= j < i && inputs[j].indexed == Yes :: inputs[j].typ
      invariant dataTypes == set j | 0 <= j < i && inputs[j].indexed == No :: inputs[j].typ
    {
      var flag := inputs[i].indexed;
      if flag == Absent {
        return Err(KeyError);
      }
      if flag == Yes {
        indexedTypes := indexedTypes + {inputs[i].typ};
      } else if flag == No {
        dataTypes := dataTypes + {inputs[i].typ};
      }
      i := i + 1;
    }
    assert i == Max(n, 0);
    assert indexedTypes == set j | 0 <= j < |inputs| - 1 && inputs[j].indexed == Yes :: inputs[j].typ;
    assert dataTypes == set j | 0 <= j < |inputs| - 1 && inputs[j].indexed == No :: inputs[j].typ;
    return Ok(TypeSets(indexedTypes, dataTypes));
  }

  // ---------------------------------------------------------------------------
  // event_from_log
  // ---------------------------------------------------------------------------

  /** The topic words taken as indexed values: `safe_slice(topics, 1, 3)`,
      that is at most `topics[1]` and `topics[2]`. */
  function IndexedWords(topics: seq<Word>): (ws: seq<Word>)
    ensures |ws| <= 2
    ensures |topics| == 0 ==> ws == []
    ensures |topics| >= 1 ==> ws == topics[1..Min(3, |topics|)]
  {
    SafeSlice(topics, 1, 3)
  }

  /** The value stored for an indexed argument: a bytes32 input's bytes as a
      0x-prefixed hex string (AttributeError when the decoded value is not
      bytes), any other value as decoded. */
  function Normalized(inp: AbiInput, v: Value): Result<Value>
  {
    if inp.typ == "bytes32" then
      (if v.Bytes? then Ok(Str(HexString(v.bs))) else Err(AttributeError))
    else Ok(v)
  }

  function ValueFor(inp: AbiInput, v: Value, normalize: bool): Result<Value>
  {
    if normalize then Normalized(inp, v) else Ok(v)
  }

  /** One of the two index loops of `event_from_log`, from index `i` on:
      value `k` is stored under the name of input `k` (IndexError when there
      is no input `k`). */
  function Assign(inputs: seq<AbiInput>, vals: seq<Value>, i: nat, acc: Args, normalize: bool): Result<Args>
    requires i <= |vals|
    decreases |vals| - i
  {
    if i == |vals| then Ok(acc)
    else if i >= |inputs| then Err(IndexError)
    else match ValueFor(inputs[i], vals[i], normalize)
      case Err(e) => Err(e)
      case Ok(v) => Assign(inputs, vals, i + 1, Put(acc, inputs[i].name, v), normalize)
  }

  /** The `data` field as the client hands it over: 0x-prefixed hex text. */
  function DataText(log: RawLog): string
  {
    HexString(log.data)
  }

  /** The decoded data values: none when the log's data text is empty. */
  function DataValues(ts: TypeSets, log: RawLog, decode: Decoder): Option<seq<Value>>
  {
    if |DataText(log)| > 0 then decode(ts.data, log.data) else Some([])
  }

  /** The data text always holds at least "0x", so the data types are
      decoded for every log, even one without data bytes. */
  lemma DataAlwaysDecoded(ts: TypeSets, log: RawLog, decode: Decoder)
    ensures DataValues(ts, log, decode) == decode(ts.data, log.data)
  {
    assert DataText(log)[..2] == "0x";
  }

  /** The result of `event_from_log(abi, event_log)`. */
  function DecodeLog(abi: AbiEntry, log: RawLog, decode: Decoder): (r: Result<Decoded>)
    ensures |abi.inputs| == 0 ==> r == Ok(NoInputs)
    ensures r.Ok? ==> (r.value.NoInputs? <==> |abi.inputs| == 0)
    ensures r.Ok? && r.value.Decoded? ==> r.value.name == abi.name
  {
    if |abi.inputs| == 0 then Ok(NoInputs)
    else match TypesOf(abi.inputs)
      case Err(e) => Err(e)
      case Ok(ts) =>
        match decode(ts.indexed, Flatten(IndexedWords(log.topics)))
        case None => Err(DecodeError)
        case Some(ind) =>
          match DataValues(ts, log, decode)
          case None => Err(DecodeError)
          case Some(dat) =>
            match Assign(abi.inputs, ind, 0, [], true)
            case Err(e) => Err(e)
            case Ok(args) =>
              if |abi.inputs| > 3 then
                match Assign(abi.inputs, dat, 0, args, false)
                case Err(e) => Err(e)
                case Ok(args') => Ok(Decoded(abi.name, args'))
              else Ok(Decoded(abi.name, args))
  }

  /** `event_from_log(abi, event_log)`. */
  method EventFromLog(abi: AbiEntry, log: RawLog, decode: Decoder) returns (r: Result<Decoded>)
    ensures r == DecodeLog(abi, log, decode)
  {
    if |abi.inputs| == 0 {
      return Ok(NoInputs);
    }
    var types := GetTypesFromInputs(abi.inputs);
    if types.Err? {
      return Err(types.error);
    }
    var ts := types.value;
    var indexedValues := SafeSlice(log.topics, 1, 3);
    var indexedDecoded := decode(ts.indexed, Flatten(indexedValues));
    if indexedDecoded.None? {
      return Err(DecodeError);
    }
    var ind := indexedDecoded.value;
    var dat: seq<Value> := [];
    if |DataText(log)| > 0 {
      var dataDecoded := decode(ts.data, log.data);
      if dataDecoded.None? {
        return Err(DecodeError);
      }
      dat := dataDecoded.value;
    }
    assert DataValues(ts, log, decode) == Some(dat);

    var args: Args := [];
    for i := 0 to |ind|
      invariant Assign(abi.inputs, ind, i, args, true) == Assign(abi.inputs, ind, 0, [], true)
    {
      if i >= |abi.inputs| {
        return Err(IndexError);
      }
      var v := Normalized(abi.inputs[i], ind[i]);
      if v.Err? {
        return Err(v.error);
      }
      args := Put(args, abi.inputs[i].name, v.value);
    }

    if |abi.inputs| > 3 {
      ghost var indexedArgs := args;
      for i := 0 to |dat|
        invariant Assign(abi.inputs, dat, i, args, false) == Assign(abi.inputs, dat, 0, indexedArgs, false)
      {
        if i >= |abi.inputs| {
          return Err(IndexError);
        }
        args := Put(args, abi.inputs[i].name, dat[i]);
      }
    }
    return Ok(Decoded(abi.name, args));
  }

  // ---------------------------------------------------------------------------
  // Which name receives which value
  // ---------------------------------------------------------------------------

  predicate NamesDistinct(inputs: seq<AbiInput>)
  {
    forall i, j :: 0 <= i < j < |inputs| ==> inputs[i].name != inputs[j].name
  }

  function Names(inputs: seq<AbiInput>): (ns: seq<string>)
    ensures |ns| == |inputs|
    ensures forall i :: 0 <= i < |inputs| ==> ns[i] == inputs[i].name
  {
    seq(|inputs|, i requires 0 <= i < |inputs| => inputs[i].name)
  }

  /** A successful loop leaves alone every key that no input from `i` on
      names. */
  lemma {:induction false} AssignOthers(inputs: seq<AbiInput>, vals: seq<Value>, i: nat, acc: Args, normalize: bool, key: string)
    requires i <= |vals|
    requires Assign(inputs, vals, i, acc, normalize).Ok?
    requires forall k :: i <= k < |vals| && k < |inputs| ==> inputs[k].name != key
    ensures Lookup(Assign(inputs, vals, i, acc, normalize).value, key) == Lookup(acc, key)
    decreases |vals| - i
  {
    if i < |vals| {
      var v := ValueFor(inputs[i], vals[i], normalize).value;
      AssignOthers(inputs, vals, i + 1, Put(acc, inputs[i].name, v), normalize, key);
      LookupPut(acc, inputs[i].name, v, key);
    }
  }

  /** With distinct input names, a successful loop stores value `k` (as
      `ValueFor` gives it) under the name of input `k`. */
  lemma {:induction false} AssignStores(inputs: seq<AbiInput>, vals: seq<Value>, i: nat, acc: Args, normalize: bool)
    requires i <= |vals|
    requires NamesDistinct(inputs)
    requires Assign(inputs, vals, i, acc, normalize).Ok?
    ensures i < |vals| ==> |vals| <= |inputs|
    ensures forall k :: i <= k < |vals| ==>
      (ValueFor(inputs[k], vals[k], normalize).Ok?
       && Lookup(Assign(inputs, vals, i, acc, normalize).value, inputs[k].name)
          == Some(ValueFor(inputs[k], vals[k], normalize).value))
    decreases |vals| - i
  {
    if i < |vals| {
      var v := ValueFor(inputs[i], vals[i], normalize).value;
      var acc' := Put(acc, inputs[i].name, v);
      AssignStores(inputs, vals, i + 1, acc', normalize);
      AssignOthers(inputs, vals, i + 1, acc', normalize, inputs[i].name);
      LookupPut(acc, inputs[i].name, v, inputs[i].name);
    }
  }

  /** When the loop writes only new names, it appends them in input order. */
  lemma {:induction false} AssignKeys(inputs: seq<AbiInput>, vals: seq<Value>, i: nat, acc: Args, normalize: bool)
    requires i <= |vals| <= |inputs|
    requires NamesDistinct(inputs)
    requires Assign(inputs, vals, i, acc, normalize).Ok?
    requires forall k :: i <= k < |vals| ==> inputs[k].name !in Keys(acc)
    ensures Keys(Assign(inputs, vals, i, acc, normalize).value) == Keys(acc) + Names(inputs[i..|vals|])
    decreases |vals| - i
  {
    if i < |vals| {
      var v := ValueFor(inputs[i], vals[i], normalize).value;
      var acc' := Put(acc, inputs[i].name, v);
      PutKeys(acc, inputs[i].name, v);
      assert forall k :: i + 1 <= k < |vals| ==> inputs[k].name !in Keys(acc');
      AssignKeys(inputs, vals, i + 1, acc', normalize);
      var ka, n, ns := Keys(acc), inputs[i].name, Names(inputs[i + 1..|vals|]);
      assert Keys(acc') == ka + [n];
      assert Names(inputs[i..|vals|]) == [n] + ns;
      AppendAssoc(ka, [n], ns);
    } else {
      assert Names(inputs[i..|vals|]) == [];
    }
  }

  /** With distinct input names, a successful loop stores value `k` (as
      `ValueFor` gives it) under the name of input `k`, leaves every other key
      as it was, and appends the new keys in input order. */
  lemma AssignPlaces(inputs: seq<AbiInput>, vals: seq<Value>, i: nat, acc: Args, normalize: bool)
    requires i <= |vals|
    requires NamesDistinct(inputs)
    requires Assign(inputs, vals, i, acc, normalize).Ok?
    ensures i < |vals| ==> |vals| <= |inputs|
    ensures var r := Assign(inputs, vals, i, acc, normalize).value;
      && (forall k :: i <= k < |vals| ==>
            (ValueFor(inputs[k], vals[k], normalize).Ok?
             && Lookup(r, inputs[k].name) == Some(ValueFor(inputs[k], vals[k], normalize).value)))
      && (forall key :: (forall k :: i <= k < |vals| ==> inputs[k].name != key) ==> Lookup(r, key) == Lookup(acc, key))
      && (|vals| <= |inputs| && (forall k :: i <= k < |vals| ==> inputs[k].name !in Keys(acc)) ==>
            Keys(r) == Keys(acc) + Names(inputs[i..|vals|]))
  {
    AssignStores(inputs, vals, i, acc, normalize);
    forall key | forall k :: i <= k < |vals| ==> inputs[k].name != key
      ensures Lookup(Assign(inputs, vals, i, acc, normalize).value, key) == Lookup(acc, key)
    {
      AssignOthers(inputs, vals, i, acc, normalize, key);
    }
    if |vals| <= |inputs| && forall k :: i <= k < |vals| ==> inputs[k].name !in Keys(acc) {
      AssignKeys(inputs, vals, i, acc, normalize);
    }
  }

  /** Where `event_from_log` puts the values, for an entry with distinct
      input names. The k-th decoded indexed value goes under the name of
      `inputs[k]` (as hex when that input is bytes32) unless a data value
      overwrites it; data values are written only when there are more than
      three inputs, and then the k-th one goes under the name of `inputs[k]`.
      Without data writes, the keys are the names of the first inputs, one
      per decoded indexed value, in input order. */
  lemma DecodedArgsPlacement(abi: AbiEntry, log: RawLog, decode: Decoder, ts: TypeSets, ind: seq<Value>, dat: seq<Value>)
    requires NamesDistinct(abi.inputs)
    requires |abi.inputs| > 0 && TypesOf(abi.inputs) == Ok(ts)
    requires decode(ts.indexed, Flatten(IndexedWords(log.topics))) == Some(ind)
    requires DataValues(ts, log, decode) == Some(dat)
    requires DecodeLog(abi, log, decode).Ok?
    ensures DecodeLog(abi, log, decode).value.Decoded?
    ensures |ind| <= |abi.inputs|
    ensures |abi.inputs| > 3 ==> |dat| <= |abi.inputs|
    ensures var args := DecodeLog(abi, log, decode).value.args;
      && (forall k :: 0 <= k < |ind| && !(|abi.inputs| > 3 && k < |dat|) ==>
            Normalized(abi.inputs[k], ind[k]).Ok?
            && Lookup(args, abi.inputs[k].name) == Some(Normalized(abi.inputs[k], ind[k]).value))
      && (|abi.inputs| > 3 ==> forall k :: 0 <= k < |dat| ==> Lookup(args, abi.inputs[k].name) == Some(dat[k]))
      && (|abi.inputs| <= 3 || |dat| == 0 ==> Keys(args) == Names(abi.inputs[..|ind|]))
  {
    var inputs := abi.inputs;
    AssignPlaces(inputs, ind, 0, [], true);
    var args := Assign(inputs, ind, 0, [], true).value;
    assert Keys([]) == [];
    if |ind| == 0 {
      assert Keys(args) == [] == Names(inputs[..0]);
    } else {
      assert inputs[0..|ind|] == inputs[..|ind|];
    }
    if |inputs| > 3 {
      AssignPlaces(inputs, dat, 0, args, false);
      var args' := Assign(inputs, dat, 0, args, false).value;
      forall k | 0 <= k < |ind| && k >= |dat|
        ensures Lookup(args', inputs[k].name) == Lookup(args, inputs[k].name)
      {
        forall j | 0 <= j < |dat| ensures inputs[j].name != inputs[k].name {
          assert j < k;
        }
      }
      if |dat| == 0 {
        assert args' == args;
      }
    }
  }
}
