/** The two generic helpers of the core: `get_from_first`, which reads a key
    from the first of several dictionaries that holds a non-None value for it,
    and `safe_slice`, a slice that clamps its end to the list's length. */
module Utils {
  import opened Common

  /** A positional argument of `get_from_first`: a dict whose values may be
      None, or anything else. For the latter, `holds` is what `key in d`
      gives: None when the test itself raises TypeError (an int, say), true
      or false for a list or a string. */
  datatype Arg<V> = Dict(entries: map<string, Option<V>>) | NotDict(holds: Option<bool>)

  /** `key in d and d[key] is not None`. */
  predicate HasValue<V>(d: Arg<V>, key: string)
  {
    d.Dict? && key in d.entries && d.entries[key].Some?
  }

  /** The loop of `get_from_first` stops at `d`: `d` holds a non-None value
      for `key`, or `d` is not a dict and either `key in d` raises or it is
      true and `d[key]` then raises (a list or a string indexed by a
      string). */
  predicate Stops<V>(d: Arg<V>, key: string)
  {
    HasValue(d, key) || (d.NotDict? && d.holds != Some(false))
  }

  /** The position where the loop of `get_from_first` stops, or `|ds|` when
      it runs to the end. */
  function FirstStop<V>(key: string, ds: seq<Arg<V>>): (k: nat)
    ensures k <= |ds|
    ensures k < |ds| ==> Stops(ds[k], key)
    ensures forall j :: 0 <= j < k ==> !Stops(ds[j], key)
  {
    if ds == [] then 0
    else if Stops(ds[0], key) then 0
    else 1 + FirstStop(key, ds[1..])
  }

  /** `get_from_first(key, *ds)`. ValueError without arguments or when the
      first is not a dict. Otherwise the loop goes through the arguments in
      order: it passes over a dict without a value for `key` (or mapping it
      to None) and a non-dict for which `key in d` is false; it returns the
      value of the first dict holding one; it raises TypeError at a
      non-dict for which `key in d` raises or is true; and it returns None
      when it runs to the end. */
  function GetFromFirst<V>(key: string, ds: seq<Arg<V>>): (r: Result<Option<V>>)
    ensures r == Err(ValueError) <==> |ds| == 0 || !ds[0].Dict?
    ensures r.Err? ==> r.error == ValueError || r.error == TypeError
    ensures r == Ok(None) <==>
      |ds| > 0 && ds[0].Dict? && forall i :: 0 <= i < |ds| ==> !Stops(ds[i], key)
    ensures |ds| > 0 && ds[0].Dict? ==>
      forall i :: 0 <= i < |ds| && (forall j :: 0 <= j < i ==> !Stops(ds[j], key)) ==>
        (HasValue(ds[i], key) ==> r == Ok(ds[i].entries[key]))
        && (ds[i].NotDict? && ds[i].holds != Some(false) ==> r == Err(TypeError))
  {
    if |ds| < 1 || !ds[0].Dict? then Err(ValueError)
    else
      var k := FirstStop(key, ds);
      if k == |ds| then Ok(None)
      else if HasValue(ds[k], key) then Ok(ds[k].entries[key])
      else Err(TypeError)
  }

  /** With dicts only, the result is None exactly when no dict holds a
      non-None value for `key`, and otherwise the value of the first that
      does. */
  lemma DictsOnly<V>(key: string, ds: seq<Arg<V>>)
    requires |ds| > 0 && forall i :: 0 <= i < |ds| ==> ds[i].Dict?
    ensures GetFromFirst(key, ds).Ok?
    ensures GetFromFirst(key, ds).value.None? <==> forall i :: 0 <= i < |ds| ==> !HasValue(ds[i], key)
    ensures forall i :: 0 <= i < |ds| && HasValue(ds[i], key) && (forall j :: 0 <= j < i ==> !HasValue(ds[j], key)) ==>
      GetFromFirst(key, ds) == Ok(ds[i].entries[key])
  {
    var k := FirstStop(key, ds);
    if k < |ds| {
      assert HasValue(ds[k], key);
    }
  }

  /** A key that an earlier dict maps to None is taken from a later dict. */
  lemma NoneIsPassedOver<V>(key: string, first: map<string, Option<V>>, second: map<string, Option<V>>, v: V)
    requires key in first && first[key] == None
    requires key in second && second[key] == Some(v)
    ensures GetFromFirst(key, [Dict(first), Dict(second)]) == Ok(Some(v))
  {
    var ds := [Dict(first), Dict(second)];
    assert !HasValue(ds[0], key) && HasValue(ds[1], key);
  }

  // ---------------------------------------------------------------------------
  // Python slicing
  // ---------------------------------------------------------------------------

  /** A slice bound as Python normalises it for a list of length `n`:
      negative bounds count from the end, and the result is clamped to
      `0..n`. */
  function SliceBound(i: int, n: nat): (r: nat)
    ensures r <= n
    ensures 0 <= i <= n ==> r == i
  {
    if i < 0 then (if i + n < 0 then 0 else i + n)
    else if i > n then n
    else i
  }

  /** `s[start:end]`. */
  function PySlice<T>(s: seq<T>, start: int, end: int): (r: seq<T>)
  {
    var a, b := SliceBound(start, |s|), SliceBound(end, |s|);
    if a < b then s[a..b] else []
  }

  /** `safe_slice(s, start, end)`: `s[start:end]` when the list reaches `end`,
      `s[start:len(s)]` otherwise. It never fails; for non-negative bounds
      the result is the contiguous run of `s` that starts at `start` (clamped)
      and has length `max(0, min(end, len) - start)`. */
  function SafeSlice<T>(s: seq<T>, start: int, end: int): (r: seq<T>)
    ensures 0 <= start <= end <= |s| ==> r == s[start..end]
    ensures 0 <= start && |s| < end ==> r == s[Min(start, |s|)..]
    ensures 0 <= start && 0 <= end ==>
              |r| == Max(0, Min(end, |s|) - start)
              && r == s[Min(start, |s|)..Min(start, |s|) + |r|]
  {
    if |s| >= end then PySlice(s, start, end) else PySlice(s, start, |s|)
  }
}
