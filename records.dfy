/** The in-memory event records: the argument mapping that event decoding
    fills (a Python dict, so it keeps insertion order and an assignment to an
    existing key keeps that key's place), the decoded event and the event as
    the batch assembly stamps it. */
module Records {
  import opened Common

  /** An insertion-ordered mapping from argument name to value. */
  type Args = seq<(string, Value)>

  function Keys(a: Args): seq<string>
  {
    seq(|a|, i requires 0 <= i < |a| => a[i].0)
  }

  predicate UniqueKeys(a: Args)
  {
    forall i, j :: 0 <= i < j < |a| ==> a[i].0 != a[j].0
  }

  /** `a[k]`, or None when `k` is not a key. */
  function Lookup(a: Args, k: string): Option<Value>
  {
    if a == [] then None
    else if a[0].0 == k then Some(a[0].1)
    else Lookup(a[1..], k)
  }

  /** `a[k] = v`: replaces the value in place when `k` is a key, appends
      otherwise. */
  function Put(a: Args, k: string, v: Value): Args
  {
    if a == [] then [(k, v)]
    else if a[0].0 == k then [(k, v)] + a[1..]
    else [a[0]] + Put(a[1..], k, v)
  }

  lemma {:induction false} LookupPut(a: Args, k: string, v: Value, k': string)
    ensures Lookup(Put(a, k, v), k') == if k' == k then Some(v) else Lookup(a, k')
  {
    if a != [] && a[0].0 != k {
      LookupPut(a[1..], k, v, k');
      assert Put(a, k, v)[1..] == Put(a[1..], k, v);
    }
  }

  lemma {:induction false} LookupIsKey(a: Args, k: string)
    ensures Lookup(a, k).Some? <==> k in Keys(a)
  {
    if a != [] {
      LookupIsKey(a[1..], k);
      assert a == [a[0]] + a[1..];
      KeysCons(a[0], a[1..]);
    }
  }

  lemma KeysCons(x: (string, Value), a: Args)
    ensures Keys([x] + a) == [x.0] + Keys(a)
  {
    assert forall i :: 0 <= i < |a| ==> ([x] + a)[i + 1] == a[i];
  }

  /** Assigning keeps every existing key where it was and adds `k` at the
      end when it is new. */
  lemma {:induction false} PutKeys(a: Args, k: string, v: Value)
    ensures Keys(Put(a, k, v)) == if k in Keys(a) then Keys(a) else Keys(a) + [k]
  {
    if a == [] {
      assert Keys([(k, v)]) == [k];
    } else {
      assert a == [a[0]] + a[1..];
      KeysCons(a[0], a[1..]);
      if a[0].0 == k {
        KeysCons((k, v), a[1..]);
      } else {
        PutKeys(a[1..], k, v);
        KeysCons(a[0], Put(a[1..], k, v));
        assert k in Keys(a) <==> k in Keys(a[1..]);
      }
    }
  }

  /** Assigning never duplicates a key. */
  lemma PutKeepsUnique(a: Args, k: string, v: Value)
    requires UniqueKeys(a)
    ensures UniqueKeys(Put(a, k, v))
  {
    PutKeys(a, k, v);
    var p := Put(a, k, v);
    forall i, j | 0 <= i < j < |p| ensures p[i].0 != p[j].0 {
      assert p[i].0 == Keys(p)[i] && p[j].0 == Keys(p)[j];
      if j < |a| {
        assert Keys(p)[i] == a[i].0 && Keys(p)[j] == a[j].0;
      } else {
        assert Keys(p)[i] == Keys(a)[i] && Keys(p)[j] == k;
      }
    }
  }

  /** The result of `event_from_log`: the empty dict it returns for an ABI
      entry without inputs, or the name and filled argument mapping. */
  datatype Decoded = NoInputs | Decoded(name: string, args: Args)

  /** An event of a batch: the decoded event stamped with a transaction hash
      and a block number. */
  datatype Event = Event(name: string, args: Args, txhash: string, blockNumber: int)
}
