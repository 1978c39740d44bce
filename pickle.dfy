/**
 * The serialisation boundary of LocalDB: `_serialize` and `_deserialize`
 * wrap Python's pickle.dumps and pickle.loads.
 *
 * pickle itself is a foreign library. It stands here as a small
 * length-prefixed, opcode-tagged codec over a Python-like `Value`, with
 * the three properties LocalDB relies on proved rather than assumed:
 * decoding inverts encoding (SerializeDeserialize), encoding is injective
 * (SerializeInjective) and an encoding is never empty (Serialize's contract).
 * In the model, encoding fails exactly when the value holds an object
 * pickle refuses; pickle's own failure on values nested past the recursion
 * limit is not modelled.
 */
module Pickle {
  import opened Wrappers

  newtype byte = b: int | 0 <= b < 256
  type Bytes = seq<byte>

  /** Python objects as far as LocalDB can tell them apart. */
  datatype Value =
    | PyNone
    | PyBool(b: bool)
    | PyInt(i: int)
    | PyStr(s: string)
    | PyBytes(data: Bytes)
    | PyList(items: seq<Value>)
    | PyDict(entries: seq<Entry>)
      // A lambda, a lock, an open file: an object pickle.dumps raises on.
    | PyLambda(name: string)

  /**
   * One key/value pair of a dict, in insertion order. A `PyDict` may repeat
   * a key or use an unhashable one (a `PyList` or `PyDict`); such a value has
   * no Python counterpart.
   */
  datatype Entry = Entry(key: Value, val: Value)

  datatype PickleError = PicklingError | UnpicklingError

  // Tag bytes. NONE, NEWTRUE, NEWFALSE, BINUNICODE, BINBYTES and STOP reuse
  // the bytes of the pickle opcodes of those names; INT, LIST and DICT reuse
  // the bytes of pickle's LONG1, EMPTY_LIST and EMPTY_DICT. Every tag reuses
  // only the opcode byte: what follows it is this codec's own arguments (a
  // variable-length count and contents), not pickle's argument format.
  const NONE: byte := 0x4E
  const NEWTRUE: byte := 0x88
  const NEWFALSE: byte := 0x89
  const INT: byte := 0x8A
  const BINUNICODE: byte := 0x58
  const BINBYTES: byte := 0x42
  const LIST: byte := 0x5D
  const DICT: byte := 0x7D
  const STOP: byte := 0x2E

  /** True when nothing inside v is a PyLambda; nesting depth is not considered. */
  predicate Picklable(v: Value)
    decreases v
  {
    match v
    case PyLambda(_) => false
    case PyList(items) => forall i | 0 <= i < |items| :: Picklable(items[i])
    case PyDict(entries) =>
      forall i | 0 <= i < |entries| :: Picklable(entries[i].key) && Picklable(entries[i].val)
    case _ => true
  }

  // Sizes that let the proofs about nested values recurse through Flatten.

  function Size(v: Value): (n: nat)
    ensures n >= 1
    decreases v
  {
    match v
    case PyList(items) => 1 + SizeItems(items)
    case PyDict(entries) => 1 + SizeEntries(entries)
    case _ => 1
  }

  function SizeItems(items: seq<Value>): nat
    decreases items
  {
    if items == [] then 0 else Size(items[0]) + 1 + SizeItems(items[1..])
  }

  function SizeEntries(entries: seq<Entry>): nat
    decreases entries
  {
    if entries == [] then 0
    else
      var e := entries[0];
      assert e.key < e && e.val < e;
      Size(e.key) + 1 + Size(e.val) + 1 + SizeEntries(entries[1..])
  }

  // ---------------------------------------------------------------------
  // Unsigned variable-length integers: seven bits per byte, low bits first,
  // the top bit set on every byte but the last.

  function EncodeNat(n: nat): Bytes
    decreases n
  {
    if n < 128 then [n as byte] else [(128 + n % 128) as byte] + EncodeNat(n / 128)
  }

  /** Reads one integer from the front of s: its value and the bytes it took. */
  function ParseNat(s: Bytes): (r: Option<(nat, nat)>)
    ensures r.Some? ==> 0 < r.value.1 <= |s|
    decreases |s|
  {
    if |s| == 0 then None
    else if s[0] < 128 then Some((s[0] as nat, 1))
    else
      match ParseNat(s[1..])
      case None => None
      case Some((high, used)) => Some(((s[0] as int - 128) + 128 * high, 1 + used))
  }

  lemma {:induction false} ParseNatEncodeNat(n: nat, rest: Bytes)
    ensures ParseNat(EncodeNat(n) + rest) == Some((n, |EncodeNat(n)|))
    decreases n
  {
    if n >= 128 {
      var s := EncodeNat(n) + rest;
      assert s[1..] == EncodeNat(n / 128) + rest;
      ParseNatEncodeNat(n / 128, rest);
    }
  }

  // ---------------------------------------------------------------------
  // Signed integers are folded onto the naturals: 0, -1, 1, -2, 2, ...

  function ZigZag(i: int): nat
  {
    if i >= 0 then 2 * i else -2 * i - 1
  }

  function UnZigZag(n: nat): (i: int)
    ensures ZigZag(i) == n
  {
    if n % 2 == 0 then n / 2 else -(n + 1) / 2
  }

  // ---------------------------------------------------------------------
  // Strings: each character as the variable-length integer of its code point.

  predicate IsScalar(n: nat)
  {
    n < 0xD800 || 0xE000 <= n < 0x11_0000
  }

  function EncodeChars(cs: string): Bytes
    decreases cs
  {
    if cs == [] then [] else EncodeNat(cs[0] as nat) + EncodeChars(cs[1..])
  }

  /** Reads count characters from the front of s. */
  function ParseChars(s: Bytes, count: nat): (r: Option<(string, nat)>)
    ensures r.Some? ==> |r.value.0| == count && r.value.1 <= |s|
    decreases count
  {
    if count == 0 then Some(([], 0))
    else
      match ParseNat(s)
      case None => None
      case Some((c, used)) =>
        if !IsScalar(c) then None
        else
          match ParseChars(s[used..], count - 1)
          case None => None
          case Some((cs, k)) => Some(([c as char] + cs, used + k))
  }

  lemma {:induction false} ParseCharsEncodeChars(cs: string, rest: Bytes)
    ensures ParseChars(EncodeChars(cs) + rest, |cs|) == Some((cs, |EncodeChars(cs)|))
    decreases cs
  {
    if cs != [] {
      var head := EncodeNat(cs[0] as nat);
      var s := EncodeChars(cs) + rest;
      assert s == head + (EncodeChars(cs[1..]) + rest);
      ParseNatEncodeNat(cs[0] as nat, EncodeChars(cs[1..]) + rest);
      assert s[|head|..] == EncodeChars(cs[1..]) + rest;
      ParseCharsEncodeChars(cs[1..], rest);
      assert [cs[0]] + cs[1..] == cs;
    }
  }

  // ---------------------------------------------------------------------
  // Values.

  function Encode(v: Value): Bytes
    requires Picklable(v)
    decreases v
  {
    match v
    case PyNone => [NONE]
    case PyBool(b) => [if b then NEWTRUE else NEWFALSE]
    case PyInt(i) => [INT] + EncodeNat(ZigZag(i))
    case PyStr(cs) => [BINUNICODE] + EncodeNat(|cs|) + EncodeChars(cs)
    case PyBytes(data) => [BINBYTES] + EncodeNat(|data|) + data
    case PyList(items) => [LIST] + EncodeNat(|items|) + EncodeItems(items)
    case PyDict(entries) => [DICT] + EncodeNat(|entries|) + EncodeEntries(entries)
  }

  function EncodeItems(items: seq<Value>): Bytes
    requires forall i | 0 <= i < |items| :: Picklable(items[i])
    decreases items
  {
    if items == [] then [] else Encode(items[0]) + EncodeItems(items[1..])
  }

  function EncodeEntries(entries: seq<Entry>): Bytes
    requires forall i | 0 <= i < |entries| :: Picklable(entries[i].key) && Picklable(entries[i].val)
    decreases entries
  {
    if entries == [] then []
    else
      var e := entries[0];
      assert e.key < e && e.val < e;
      Encode(e.key) + Encode(e.val) + EncodeEntries(entries[1..])
  }

  /** Reads one value from the front of s: the value and the bytes it took. */
  function Parse(s: Bytes): (r: Option<(Value, nat)>)
    ensures r.Some? ==> 0 < r.value.1 <= |s|
    decreases |s|, 0
  {
    if |s| == 0 then None
    else
      var tag, body := s[0], s[1..];
      if tag == NONE then Some((PyNone, 1))
      else if tag == NEWTRUE then Some((PyBool(true), 1))
      else if tag == NEWFALSE then Some((PyBool(false), 1))
      else if tag == INT then
        match ParseNat(body)
        case None => None
        case Some((z, used)) => Some((PyInt(UnZigZag(z)), 1 + used))
      else if tag == BINUNICODE then
        match ParseNat(body)
        case None => None
        case Some((len, used)) =>
          match ParseChars(body[used..], len)
          case None => None
          case Some((cs, k)) => Some((PyStr(cs), 1 + used + k))
      else if tag == BINBYTES then
        match ParseNat(body)
        case None => None
        case Some((len, used)) =>
          if used + len <= |body| then Some((PyBytes(body[used..used + len]), 1 + used + len))
          else None
      else if tag == LIST then
        match ParseNat(body)
        case None => None
        case Some((len, used)) =>
          match ParseItems(body[used..], len)
          case None => None
          case Some((items, k)) => Some((PyList(items), 1 + used + k))
      else if tag == DICT then
        match ParseNat(body)
        case None => None
        case Some((len, used)) =>
          match ParseItems(body[used..], 2 * len)
          case None => None
          case Some((keysAndValues, k)) => Some((PyDict(Pairs(keysAndValues)), 1 + used + k))
      else None
  }

  /** Reads count values, one after the other, from the front of s. */
  function ParseItems(s: Bytes, count: nat): (r: Option<(seq<Value>, nat)>)
    ensures r.Some? ==> |r.value.0| == count && r.value.1 <= |s|
    decreases |s|, count
  {
    if count == 0 then Some(([], 0))
    else
      match Parse(s)
      case None => None
      case Some((v, n)) =>
        match ParseItems(s[n..], count - 1)
        case None => None
        case Some((vs, k)) => Some(([v] + vs, n + k))
  }

  /** Groups keys and values, key first, into dict entries. */
  function Pairs(keysAndValues: seq<Value>): (entries: seq<Entry>)
    requires |keysAndValues| % 2 == 0
    decreases |keysAndValues|
  {
    if keysAndValues == [] then []
    else [Entry(keysAndValues[0], keysAndValues[1])] + Pairs(keysAndValues[2..])
  }

  /** The keys and values of a dict, key first, in entry order. */
  function Flatten(entries: seq<Entry>): (keysAndValues: seq<Value>)
    ensures |keysAndValues| == 2 * |entries|
  {
    if entries == [] then [] else [entries[0].key, entries[0].val] + Flatten(entries[1..])
  }

  /**
   * A length-prefixed record [tag] + EncodeNat(n) + tail: its length prefix
   * reads back as n, and what follows the prefix is tail.
   */
  lemma LengthPrefix(s: Bytes, tag: byte, n: nat, tail: Bytes)
    requires s == [tag] + EncodeNat(n) + tail
    ensures |s| > 0 && s[0] == tag
    ensures ParseNat(s[1..]) == Some((n, |EncodeNat(n)|))
    ensures s[1..][|EncodeNat(n)|..] == tail
  {
    assert s[1..] == EncodeNat(n) + tail;
    ParseNatEncodeNat(n, tail);
  }

  // One step of Parse for each length-prefixed opcode, each in a context
  // small enough that unfolding Parse once is cheap.

  lemma ParseStepInt(s: Bytes, z: nat, used: nat)
    requires |s| > 0 && s[0] == INT
    requires ParseNat(s[1..]) == Some((z, used))
    ensures Parse(s) == Some((PyInt(UnZigZag(z)), 1 + used))
  {
  }

  lemma ParseStepStr(s: Bytes, len: nat, used: nat, cs: string, k: nat)
    requires |s| > 0 && s[0] == BINUNICODE
    requires ParseNat(s[1..]) == Some((len, used))
    requires ParseChars(s[1..][used..], len) == Some((cs, k))
    ensures Parse(s) == Some((PyStr(cs), 1 + used + k))
  {
  }

  lemma ParseStepBytes(s: Bytes, len: nat, used: nat)
    requires |s| > 0 && s[0] == BINBYTES
    requires ParseNat(s[1..]) == Some((len, used))
    requires used + len <= |s| - 1
    ensures Parse(s) == Some((PyBytes(s[1..][used..used + len]), 1 + used + len))
  {
  }

  lemma ParseStepList(s: Bytes, len: nat, used: nat, items: seq<Value>, k: nat)
    requires |s| > 0 && s[0] == LIST
    requires ParseNat(s[1..]) == Some((len, used))
    requires ParseItems(s[1..][used..], len) == Some((items, k))
    ensures Parse(s) == Some((PyList(items), 1 + used + k))
  {
  }

  lemma ParseStepDict(s: Bytes, len: nat, used: nat, entries: seq<Entry>, k: nat)
    requires |s| > 0 && s[0] == DICT
    requires ParseNat(s[1..]) == Some((len, used))
    requires ParseItems(s[1..][used..], 2 * len) == Some((Flatten(entries), k))
    ensures Parse(s) == Some((PyDict(Pairs(Flatten(entries))), 1 + used + k))
  {
  }

  lemma {:induction false} ParseEncode(v: Value, rest: Bytes)
    requires Picklable(v)
    ensures Parse(Encode(v) + rest) == Some((v, |Encode(v)|))
    decreases Size(v), 2
  {
    var s := Encode(v) + rest;
    match v
    case PyNone =>
    case PyBool(b) =>
    case PyInt(i) =>
      LengthPrefix(s, INT, ZigZag(i), rest);
      ParseStepInt(s, ZigZag(i), |EncodeNat(ZigZag(i))|);
    case PyStr(cs) =>
      var used := |EncodeNat(|cs|)|;
      LengthPrefix(s, BINUNICODE, |cs|, EncodeChars(cs) + rest);
      ParseCharsEncodeChars(cs, rest);
      ParseStepStr(s, |cs|, used, cs, |EncodeChars(cs)|);
    case PyBytes(data) =>
      var used := |EncodeNat(|data|)|;
      LengthPrefix(s, BINBYTES, |data|, data + rest);
      assert s[1..][used..used + |data|] == data;
      ParseStepBytes(s, |data|, used);
    case PyList(items) =>
      ParseEncodeList(items, rest);
    case PyDict(entries) =>
      SizeFlatten(entries);
      ParseEncodeDict(entries, rest);
  }

  lemma {:induction false} ParseEncodeList(items: seq<Value>, rest: Bytes)
    requires forall i | 0 <= i < |items| :: Picklable(items[i])
    ensures Parse(Encode(PyList(items)) + rest) == Some((PyList(items), |Encode(PyList(items))|))
    decreases SizeItems(items), 1
  {
    var s := Encode(PyList(items)) + rest;
    LengthPrefix(s, LIST, |items|, EncodeItems(items) + rest);
    ParseItemsEncodeItems(items, rest);
    ParseStepList(s, |items|, |EncodeNat(|items|)|, items, |EncodeItems(items)|);
  }

  lemma {:induction false} ParseEncodeDict(entries: seq<Entry>, rest: Bytes)
    requires forall i | 0 <= i < |entries| :: Picklable(entries[i].key) && Picklable(entries[i].val)
    ensures Parse(Encode(PyDict(entries)) + rest) == Some((PyDict(entries), |Encode(PyDict(entries))|))
    decreases SizeEntries(entries), 1
  {
    var s := Encode(PyDict(entries)) + rest;
    assert Encode(PyDict(entries)) == [DICT] + EncodeNat(|entries|) + EncodeEntries(entries);
    assert s == [DICT] + EncodeNat(|entries|) + (EncodeEntries(entries) + rest);
    LengthPrefix(s, DICT, |entries|, EncodeEntries(entries) + rest);
    EncodeEntriesFlatten(entries);
    SizeFlatten(entries);
    ParseItemsEncodeItems(Flatten(entries), rest);
    ParseStepDict(s, |entries|, |EncodeNat(|entries|)|, entries, |EncodeEntries(entries)|);
    PairsFlatten(entries);
  }

  lemma {:induction false} ParseItemsEncodeItems(items: seq<Value>, rest: Bytes)
    requires forall i | 0 <= i < |items| :: Picklable(items[i])
    ensures ParseItems(EncodeItems(items) + rest, |items|) == Some((items, |EncodeItems(items)|))
    decreases SizeItems(items), 0
  {
    if items != [] {
      var head, tail := Encode(items[0]), EncodeItems(items[1..]);
      var s := EncodeItems(items) + rest;
      assert Parse(s) == Some((items[0], |head|)) by {
        assert s == head + (tail + rest);
        ParseEncode(items[0], tail + rest);
      }
      assert ParseItems(s[|head|..], |items| - 1) == Some((items[1..], |tail|)) by {
        assert s[|head|..] == tail + rest;
        ParseItemsEncodeItems(items[1..], rest);
      }
      assert [items[0]] + items[1..] == items;
    }
  }

  lemma {:induction false} SizeFlatten(entries: seq<Entry>)
    ensures SizeItems(Flatten(entries)) == SizeEntries(entries)
  {
    if entries != [] {
      var kv := Flatten(entries);
      assert kv[1..][1..] == kv[2..] == Flatten(entries[1..]);
      SizeFlatten(entries[1..]);
    }
  }

  lemma {:induction false} PairsFlatten(entries: seq<Entry>)
    ensures Pairs(Flatten(entries)) == entries
  {
    if entries != [] {
      var kv := Flatten(entries);
      assert kv[2..] == Flatten(entries[1..]);
      PairsFlatten(entries[1..]);
    }
  }

  /** A dict is encoded as the list of its keys and values would be. */
  lemma {:induction false} EncodeEntriesFlatten(entries: seq<Entry>)
    requires forall i | 0 <= i < |entries| :: Picklable(entries[i].key) && Picklable(entries[i].val)
    ensures forall i | 0 <= i < |Flatten(entries)| :: Picklable(Flatten(entries)[i])
    ensures EncodeEntries(entries) == EncodeItems(Flatten(entries))
  {
    if entries != [] {
      var kv, e := Flatten(entries), entries[0];
      EncodeEntriesFlatten(entries[1..]);
      assert kv[2..] == Flatten(entries[1..]);
      assert kv[1..][1..] == kv[2..];
      forall i | 0 <= i < |kv| ensures Picklable(kv[i]) {
        if i >= 2 {
          assert kv[i] == Flatten(entries[1..])[i - 2];
        }
      }
      calc {
        EncodeItems(kv);
        Encode(e.key) + EncodeItems(kv[1..]);
        Encode(e.key) + (Encode(e.val) + EncodeItems(kv[2..]));
        Encode(e.key) + Encode(e.val) + EncodeEntries(entries[1..]);
      }
    }
  }

  // ---------------------------------------------------------------------
  // The two methods of LocalDB that wrap pickle.

  /** pickle.dumps: the encoding of v followed by STOP, or PicklingError. */
  function Serialize(v: Value): (r: Result<Bytes, PickleError>)
    ensures r.Success? <==> Picklable(v)
    ensures r.Success? ==> |r.value| >= 2 && r.value[|r.value| - 1] == STOP
    ensures r.Failure? ==> r.error == PicklingError
  {
    if Picklable(v) then Success(Encode(v) + [STOP]) else Failure(PicklingError)
  }

  /**
   * pickle.loads: reads one value and expects STOP right after it; like
   * pickle, it ignores whatever follows the STOP.
   */
  function Deserialize(s: Bytes): (r: Result<Value, PickleError>)
    ensures r.Success? ==> |s| >= 2
  {
    match Parse(s)
    case None => Failure(UnpicklingError)
    case Some((v, n)) => if n < |s| && s[n] == STOP then Success(v) else Failure(UnpicklingError)
  }

  /** Decoding inverts encoding. */
  lemma SerializeDeserialize(v: Value)
    requires Picklable(v)
    ensures Deserialize(Serialize(v).value) == Success(v)
  {
    ParseEncode(v, [STOP]);
  }

  /** Bytes after the STOP do not change what is read. */
  lemma DeserializeIgnoresTail(v: Value, rest: Bytes)
    requires Picklable(v)
    ensures Deserialize(Serialize(v).value + rest) == Success(v)
  {
    assert Serialize(v).value + rest == Encode(v) + ([STOP] + rest);
    ParseEncode(v, [STOP] + rest);
  }

  /** Encoding is injective: two values with the same pickle are the same value. */
  lemma SerializeInjective(a: Value, b: Value)
    requires Serialize(a).Success? && Serialize(a) == Serialize(b)
    ensures a == b
  {
    SerializeDeserialize(a);
    SerializeDeserialize(b);
  }
}
