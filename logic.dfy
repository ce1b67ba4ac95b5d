/** The choice of the bid to validate next: the pins are scanned in a random
    order and the first whose live on-chain record meets the size, reward and
    duration bounds is taken.

    The shuffle is the permutation `perm`, and the two contract calls
    (`getBid`, `getValidationCount`) are the functions `live` and `count`,
    all given by the caller. */
module Logic {
  import opened Common
  import opened Utils
  import opened Bids

  /** The bounds used when the options give none. */
  const VALIDATION_DEFAULTS: map<string, Option<int>> := map[
    "min_file_size" := Some(0),
    "max_file_size" := Some(1073741824),
    "min_reward" := Some(1000000000),
    "min_duration" := Some(0),
    "max_duration" := Some(2678400)]

  /** The fields of `getBid(bid_id)` the selection looks at. */
  datatype LiveBid = LiveBid(fileSize: int, validationPool: int, duration: int)

  type LiveLookup = Value -> LiveBid
  type CountLookup = Value -> int

  datatype Bounds = Bounds(minFileSize: int, maxFileSize: int, minReward: int, minDuration: int, maxDuration: int)

  /** `get_from_first(key, options, VALIDATION_DEFAULTS)`: the option when
      it is present and not None, the default otherwise. */
  function BoundOf(key: string, options: map<string, Option<int>>): (b: int)
    requires key in VALIDATION_DEFAULTS && VALIDATION_DEFAULTS[key].Some?
    ensures key in options && options[key].Some? ==> b == options[key].value
    ensures !(key in options && options[key].Some?) ==> b == VALIDATION_DEFAULTS[key].value
  {
    var ds := [Dict(options), Dict(VALIDATION_DEFAULTS)];
    assert HasValue(ds[1], key);
    DictsOnly(key, ds);
    GetFromFirst(key, ds).value.value
  }

  function BoundsOf(options: map<string, Option<int>>): Bounds
  {
    Bounds(BoundOf("min_file_size", options), BoundOf("max_file_size", options), BoundOf("min_reward", options),
           BoundOf("min_duration", options), BoundOf("max_duration", options))
  }

  /** Without options, or with `max_file_size` set to None as the validator
      passes it, the bounds are the defaults. */
  lemma DefaultBounds(options: map<string, Option<int>>)
    requires forall k :: k in options ==> options[k].None?
    ensures BoundsOf(options) == Bounds(0, 1073741824, 1000000000, 0, 2678400)
  {
    DefaultBound("min_file_size", 0, options);
    DefaultBound("max_file_size", 1073741824, options);
    DefaultBound("min_reward", 1000000000, options);
    DefaultBound("min_duration", 0, options);
    DefaultBound("max_duration", 2678400, options);
  }

  lemma DefaultBound(key: string, v: int, options: map<string, Option<int>>)
    requires key in VALIDATION_DEFAULTS && VALIDATION_DEFAULTS[key] == Some(v)
    requires forall k :: k in options ==> options[k].None?
    ensures BoundOf(key, options) == v
  {
  }

  /** Python's `a // b`, which rounds toward negative infinity. */
  function FloorDiv(a: int, b: int): (q: int)
    requires b != 0
    ensures b > 0 ==> q * b <= a < q * b + b
    ensures b < 0 ==> q * b >= a > q * b + b
  {
    if b > 0 then a / b else (-a) / (-b)
  }

  /** With a positive count, the reward check `pool // count >= min_reward`
      holds exactly when the pool is at least `min_reward` times the count. */
  lemma MulMonotone(x: int, y: int, c: int)
    requires c > 0 && x <= y
    ensures x * c <= y * c
  {
    assert y * c == x * c + (y - x) * c;
  }

  lemma RewardCheck(pool: int, count: int, minReward: int)
    requires count > 0
    ensures FloorDiv(pool, count) >= minReward <==> pool >= minReward * count
  {
    var q := FloorDiv(pool, count);
    if q >= minReward {
      MulMonotone(minReward, q, count);
    } else {
      MulMonotone(q + 1, minReward, count);
      assert (q + 1) * count == q * count + count;
    }
  }

  /** The filter of the scan: a pin is rejected when its file is too small
      or too large, when it has validations and the pool per validation is
      below the minimum reward, or when its duration is out of bounds. */
  predicate Passes(b: Bounds, live: LiveBid, validationCount: int)
  {
    !(live.fileSize < b.minFileSize
      || live.fileSize > b.maxFileSize
      || (validationCount != 0 && FloorDiv(live.validationPool, validationCount) < b.minReward)
      || live.duration < b.minDuration
      || live.duration > b.maxDuration)
  }

  /** A bid with no validations yet is never rejected for its reward: only
      its size and duration are checked. */
  lemma ZeroCountIgnoresReward(b: Bounds, live: LiveBid)
    ensures Passes(b, live, 0) <==>
      b.minFileSize <= live.fileSize <= b.maxFileSize && b.minDuration <= live.duration <= b.maxDuration
  {
  }

  /** `perm` holds each index of a list of `n` pins exactly once: what
      `shuffle(list(range(n)))` produces. */
  predicate IsPermutation(perm: seq<nat>, n: nat)
  {
    && |perm| == n
    && (forall i :: 0 <= i < n ==> perm[i] < n)
    && (forall i, j :: 0 <= i < j < n ==> perm[i] != perm[j])
    && (forall x :: 0 <= x < n ==> x in perm)
  }

  /** The pin has a bid_id and its live record passes the filter. */
  predicate PinPasses(pin: ValidateRecord, b: Bounds, live: LiveLookup, count: CountLookup)
  {
    pin.bidId != Null && Passes(b, live(pin.bidId), count(pin.bidId))
  }

  /** The scan went past positions `k .. j - 1` of `perm`: each of those
      pins had a bid_id and was rejected. */
  predicate ScannedPast(pins: seq<ValidateRecord>, perm: seq<nat>, k: nat, j: nat, b: Bounds, live: LiveLookup, count: CountLookup)
    requires forall i :: 0 <= i < |perm| ==> perm[i] < |pins|
    requires k <= j <= |perm|
  {
    forall i :: k <= i < j ==> pins[perm[i]].bidId != Null && !PinPasses(pins[perm[i]], b, live, count)
  }

  /** The loop of `select_random_pin_for_validation` from position `k` of
      the permutation on. */
  function SelectFrom(pins: seq<ValidateRecord>, perm: seq<nat>, k: nat, b: Bounds, live: LiveLookup, count: CountLookup): Result<Value>
    requires forall i :: 0 <= i < |perm| ==> perm[i] < |pins|
    requires k <= |perm|
    decreases |perm| - k
  {
    if k == |perm| then Ok(Int(-1))
    else
      var pin := pins[perm[k]];
      if pin.bidId == Null then Err(ValueError)
      else if Passes(b, live(pin.bidId), count(pin.bidId)) then Ok(pin.bidId)
      else SelectFrom(pins, perm, k + 1, b, live, count)
  }

  /** `select_random_pin_for_validation(scatter, pins, options)` with the
      shuffle `perm`. */
  function SelectSpec(pins: seq<ValidateRecord>, options: map<string, Option<int>>, perm: seq<nat>,
                      live: LiveLookup, count: CountLookup): Result<Value>
    requires IsPermutation(perm, |pins|)
  {
    if |pins| < 1 then Ok(Int(-1)) else SelectFrom(pins, perm, 0, BoundsOf(options), live, count)
  }

  /** What the scan from position `k` returns: ValueError when it reaches a
      pin without bid_id, the bid_id of the first pin that passes, and -1
      when it rejects them all. */
  lemma {:induction false} SelectFromCases(pins: seq<ValidateRecord>, perm: seq<nat>, k: nat, b: Bounds,
                                           live: LiveLookup, count: CountLookup)
    requires forall i :: 0 <= i < |perm| ==> perm[i] < |pins|
    requires k <= |perm|
    ensures var r := SelectFrom(pins, perm, k, b, live, count);
      && (r.Err? <==> exists j :: k <= j < |perm| && ScannedPast(pins, perm, k, j, b, live, count) && pins[perm[j]].bidId == Null)
      && (r.Err? ==> r.error == ValueError)
      && (ScannedPast(pins, perm, k, |perm|, b, live, count) ==> r == Ok(Int(-1)))
      && (r.Ok? && !ScannedPast(pins, perm, k, |perm|, b, live, count) ==>
            exists j :: k <= j < |perm| && ScannedPast(pins, perm, k, j, b, live, count)
                        && PinPasses(pins[perm[j]], b, live, count) && r.value == pins[perm[j]].bidId)
    decreases |perm| - k
  {
    if k < |perm| {
      SelectFromCases(pins, perm, k + 1, b, live, count);
      var pin := pins[perm[k]];
      assert ScannedPast(pins, perm, k, k, b, live, count);
      if pin.bidId != Null && !PinPasses(pin, b, live, count) {
        forall j | k + 1 <= j <= |perm|
          ensures ScannedPast(pins, perm, k, j, b, live, count) <==> ScannedPast(pins, perm, k + 1, j, b, live, count)
        {
        }
      }
    }
  }

  /** The result is the bid_id of the first pin in permutation order that
      passes the filter, and that pin's live record is within the bounds;
      -1 means every pin was rejected; ValueError means a pin without
      bid_id was reached first. */
  lemma SelectResult(pins: seq<ValidateRecord>, options: map<string, Option<int>>, perm: seq<nat>,
                     live: LiveLookup, count: CountLookup)
    requires IsPermutation(perm, |pins|)
    ensures var r := SelectSpec(pins, options, perm, live, count);
      var b := BoundsOf(options);
      && (r.Err? ==> r.error == ValueError && exists i :: 0 <= i < |pins| && pins[i].bidId == Null)
      && (r.Ok? && r.value != Int(-1) ==>
            exists j :: 0 <= j < |perm| && ScannedPast(pins, perm, 0, j, b, live, count)
                        && r.value == pins[perm[j]].bidId
                        && b.minFileSize <= live(r.value).fileSize <= b.maxFileSize
                        && b.minDuration <= live(r.value).duration <= b.maxDuration
                        && (count(r.value) != 0 ==> FloorDiv(live(r.value).validationPool, count(r.value)) >= b.minReward))
  {
    if |pins| >= 1 {
      SelectFromCases(pins, perm, 0, BoundsOf(options), live, count);
    }
  }

  /** When every pin has a bid_id and none has bid_id -1, the result is -1
      exactly when no pin passes the filter, and otherwise a passing pin's
      bid_id. */
  lemma SelectMinusOneIffNonePasses(pins: seq<ValidateRecord>, options: map<string, Option<int>>, perm: seq<nat>,
                                    live: LiveLookup, count: CountLookup)
    requires IsPermutation(perm, |pins|)
    requires forall i :: 0 <= i < |pins| ==> pins[i].bidId != Null && pins[i].bidId != Int(-1)
    ensures var r := SelectSpec(pins, options, perm, live, count);
      && r.Ok?
      && (r.value == Int(-1) <==> forall i :: 0 <= i < |pins| ==> !PinPasses(pins[i], BoundsOf(options), live, count))
      && (r.value != Int(-1) ==> exists i :: 0 <= i < |pins| && PinPasses(pins[i], BoundsOf(options), live, count)
                                            && r.value == pins[i].bidId)
  {
    var b := BoundsOf(options);
    if |pins| >= 1 {
      SelectFromCases(pins, perm, 0, b, live, count);
      var r := SelectFrom(pins, perm, 0, b, live, count);
      if forall i :: 0 <= i < |pins| ==> !PinPasses(pins[i], b, live, count) {
        assert ScannedPast(pins, perm, 0, |perm|, b, live, count);
      } else {
        var i :| 0 <= i < |pins| && PinPasses(pins[i], b, live, count);
        assert i in perm;
        var j :| 0 <= j < |perm| && perm[j] == i;
        assert !ScannedPast(pins, perm, 0, |perm|, b, live, count);
      }
    }
  }

  /** The loop of `select_random_pin_for_validation`: the pins in
      permutation order, ValueError at the first without a bid_id, the
      bid_id of the first that passes, -1 when every pin is rejected. */
  method Scan(pins: seq<ValidateRecord>, perm: seq<nat>, b: Bounds, live: LiveLookup, count: CountLookup)
    returns (r: Result<Value>)
    requires forall i :: 0 <= i < |perm| ==> perm[i] < |pins|
    ensures r == SelectFrom(pins, perm, 0, b, live, count)
  {
    for k := 0 to |perm|
      invariant SelectFrom(pins, perm, k, b, live, count) == SelectFrom(pins, perm, 0, b, live, count)
    {
      var pin := pins[perm[k]];
      var bidId := pin.bidId;
      if bidId == Null {
        return Err(ValueError);
      }
      var bid := live(bidId);
      var validationCount := count(bidId);
      if !Passes(b, bid, validationCount) {
        continue;
      }
      return Ok(bidId);
    }
    return Ok(Int(-1));
  }

  /** `select_random_pin_for_validation(scatter, pins, options)`: -1 for no
      pins without any contract call; otherwise the bounds from the options
      and defaults, then the scan in permutation order. */
  method SelectRandomPinForValidation(pins: seq<ValidateRecord>, options: map<string, Option<int>>, perm: seq<nat>,
                                      live: LiveLookup, count: CountLookup)
    returns (r: Result<Value>)
    requires IsPermutation(perm, |pins|)
    ensures r == SelectSpec(pins, options, perm, live, count)
  {
    var total := |pins|;
    if total < 1 {
      return Ok(Int(-1));
    }
    var b := BoundsOf(options);
    r := Scan(pins, perm, b, live, count);
  }
}
