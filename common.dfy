/** Values shared by every part of the daemon's model: the exceptions the code
    raises, bytes and their 0x-prefixed hex form, and the dynamically typed
    values that flow from decoded logs into SQLite columns. */
module Common {

  datatype Option<T> = None | Some(value: T)

  /** The outcome of an operation that can raise. */
  datatype Result<T> = Ok(value: T) | Err(error: Error) {
    predicate IsFailure() { Err? }
    function PropagateFailure<U>(): Result<U>
      requires Err?
    {
      Err(error)
    }
    function Extract(): T
      requires Ok?
    {
      value
    }
  }

  /** The exceptions raised by the modelled code, by Python exception class. */
  datatype Error =
    | ValueError        // get_from_first, gen_signature, a pin without bid_id
    | KeyError          // a dictionary key that is not there
    | IndexError        // a list index out of range
    | AttributeError    // `.hex()` on a non-bytes value, a missing AttrDict field
    | TypeError         // json.dumps of raw bytes
    | AssertionError    // a failed `assert` statement
    | OperationalError  // SQLite: no such table, table already exists
    | OverflowError     // SQLite: integer parameter wider than 64 bits
    | ValidatorError    // missing account or router address at start-up
    | CursorError       // the bare Exception raised by `cursor()` without a filename
    | DecodeError       // eth_abi could not decode the bytes it was given

  type Byte = x: int | 0 <= x < 256

  /** A Python value as it appears in decoded event arguments and in SQLite
      columns; `Null` is Python's None and SQL's NULL. */
  datatype Value = Null | Int(i: int) | Str(s: string) | Bool(b: bool) | Bytes(bs: seq<Byte>)

  /** SQLite stores integers in at most 64 bits; binding a wider Python int
      raises OverflowError. */
  predicate FitsSqlite(v: Value)
  {
    v.Int? ==> -0x8000_0000_0000_0000 <= v.i < 0x8000_0000_0000_0000
  }

  function Min(a: int, b: int): int { if a < b then a else b }
  function Max(a: int, b: int): int { if a < b then b else a }

  // ---------------------------------------------------------------------------
  // Hex encoding, as `bytes.hex()` and `HexBytes.hex()` produce it
  // ---------------------------------------------------------------------------

  function HexChar(n: int): char
    requires 0 <= n < 16
  {
    if n < 10 then ('0' as int + n) as char else ('a' as int + n - 10) as char
  }

  function NibbleOf(c: char): int
  {
    if '0' <= c <= '9' then c as int - '0' as int
    else if 'a' <= c <= 'f' then c as int - 'a' as int + 10
    else 0
  }

  /** Lower-case hex digits, two per byte, without prefix. */
  function HexDigits(bs: seq<Byte>): (h: string)
    ensures |h| == 2 * |bs|
  {
    if bs == [] then []
    else [HexChar(bs[0] / 16), HexChar(bs[0] % 16)] + HexDigits(bs[1..])
  }

  /** The 0x-prefixed form used for transaction hashes, topic signatures and
      bytes32 arguments. */
  function HexString(bs: seq<Byte>): string
  {
    "0x" + HexDigits(bs)
  }

  /** Reads lower-case hex digits back into bytes. */
  function BytesOfHex(h: string): seq<Byte>
    requires |h| % 2 == 0
  {
    if h == [] then []
    else [NibbleOf(h[0]) % 16 * 16 + NibbleOf(h[1]) % 16] + BytesOfHex(h[2..])
  }

  lemma NibbleOfHexChar(n: int)
    requires 0 <= n < 16
    ensures NibbleOf(HexChar(n)) == n
  {
  }

  lemma ByteSplit(b: Byte)
    ensures 0 <= b / 16 < 16 && 0 <= b % 16 < 16
    ensures b / 16 * 16 + b % 16 == b
  {
  }

  lemma {:induction false} HexRoundTrip(bs: seq<Byte>)
    ensures BytesOfHex(HexDigits(bs)) == bs
  {
    if bs != [] {
      var b := bs[0];
      ByteSplit(b);
      var hi, lo := b / 16, b % 16;
      var h := HexDigits(bs);
      assert h == [HexChar(hi), HexChar(lo)] + HexDigits(bs[1..]);
      assert h[2..] == HexDigits(bs[1..]);
      NibbleOfHexChar(hi);
      NibbleOfHexChar(lo);
      assert BytesOfHex(h) == [hi * 16 + lo] + BytesOfHex(h[2..]);
      HexRoundTrip(bs[1..]);
    }
  }

  /** Different byte strings have different hex strings, so comparing
      `x.hex()` strings compares the bytes. */
  lemma HexStringInjective(a: seq<Byte>, b: seq<Byte>)
    requires HexString(a) == HexString(b)
    ensures a == b
  {
    assert HexDigits(a) == HexString(a)[2..] == HexString(b)[2..] == HexDigits(b);
    HexRoundTrip(a);
    HexRoundTrip(b);
  }

  /** Concatenation of a list of byte strings (the topic words handed to the
      decoder). */
  function Flatten(words: seq<seq<Byte>>): (r: seq<Byte>)
  {
    if words == [] then [] else words[0] + Flatten(words[1..])
  }

  lemma AppendAssoc<T>(a: seq<T>, b: seq<T>, c: seq<T>)
    ensures (a + b) + c == a + (b + c)
  {
  }
}
