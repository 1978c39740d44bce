# LocalDB in Dafny

A model of `LocalDB` from pylocaldb: a small wrapper around a dbm file whose keys
and values are pickled Python objects.

- `LocalDB` is a state machine with two states. It is closed while `db` is None
  and open while `db` holds the store that `dbm.open(path, 'c')` returned.
  `__enter__` opens it, or logs and re-raises the error. `__exit__` closes it and
  does nothing when it is already closed.
- `save_value` pickles the key and the value and assigns the pair into the store.
  `load_value` pickles the key, looks it up and unpickles the stored bytes.
- Any exception inside those two methods is logged and becomes a sentinel: None
  from `load_value`, False from `save_value`. This covers a pickling error and
  use while closed, where the access to the None store raises.

Files:

- `wrappers.dfy` (module `Wrappers`): `Option` and `Result`.
- `pickle.dfy` (module `Pickle`): Python values (`Value`) and the serialisation
  boundary. `Serialize` stands for `_serialize` (pickle.dumps) and `Deserialize`
  for `_deserialize` (pickle.loads). pickle is a foreign library, so these are a
  small stand-in codec: opcode-tagged and length-prefixed, ending in STOP. The
  three properties LocalDB needs from pickle are proved of it rather than
  assumed: decoding inverts encoding, encoding is injective, and an encoding is
  never empty. In the model, pickling fails exactly when the value holds an
  object pickle refuses (`PyLambda`: a lambda, a lock, an open file); nesting
  depth is not modelled (see "## Left out").
- `localdb.dfy` (module `LocalDb`): the class `LocalDB` over an optional byte
  map `db`, and the functions `Lookup` and `Save` that its two data methods are
  proved against. It also holds the lemmas about those functions and two
  sessions written the way the unit tests use the class.

The store is a `map<Bytes, Bytes>`. The answer of `dbm.open` is a parameter of
`Enter`: either the file's contents (empty for a new file) or the error raised.
`load_value` and `save_value` hold the instance's lock (localdb/localdb.py:102,
126); `__enter__` and `__exit__` do not. The model treats every call as atomic,
so a close that races a load or save is not modelled.

Notes on the code:

- The code has only the dbm backend, and that is the only backend modelled.
- The docstring at localdb/localdb.py:25 calls `logger` optional. The signature
  at localdb/localdb.py:19 requires it, and tests/test_localdb.py:17 leaves it
  out. The logger is not part of this model.
- Use while closed is absorbed by the catch-all in `load_value` and
  `save_value`: they return None or False (`ClosedIsMasked`).

## Model

| member | source | states |
|---|---|---|
| `Pickle.Serialize` | localdb/localdb.py:65-75 | in the model, pickling succeeds exactly when the value holds nothing pickle refuses (nesting depth is not modelled). A successful pickle is never empty: it is at least two bytes and ends with STOP. |
| `Pickle.SerializeDeserialize` | localdb/localdb.py:77-87 | unpickling the pickle of any picklable value gives back that value |
| `Pickle.Deserialize` | localdb/localdb.py:77-87 | unpickling succeeds only on at least two bytes: a tag and STOP. So empty bytes never decode. |
| `Pickle.DeserializeIgnoresTail` | localdb/localdb.py:77-87 | like pickle.loads, unpickling stops at STOP: bytes after the pickle of a value do not change what is read |
| `Pickle.SerializeInjective` | localdb/localdb.py:65-75 | two values with the same pickle are the same value, so distinct keys get distinct store entries |
| `Pickle.ParseEncode` | localdb/localdb.py:77-87 | reading a value from the front of its encoding followed by any bytes gives the value back and consumes exactly its encoding |
| `LocalDb.Lookup` | localdb/localdb.py:102-110 | load gives PyNone when the instance is closed, when the key cannot be pickled, or when the pickled key is not in the store |
| `LocalDb.Save` | localdb/localdb.py:126-134 | save returns true exactly when the instance is open and both key and value can be pickled. On false, the store is left as it was. |
| `LocalDb.LocalDB.constructor` | localdb/localdb.py:28-31 | a new instance is closed and holds the given path |
| `LocalDb.LocalDB.Enter` | localdb/localdb.py:43-50 | if dbm.open succeeds, the instance is open on the file's contents and is returned. If it fails, the error is passed on and `db` is unchanged, so a new instance stays closed. |
| `LocalDb.LocalDB.Exit` | localdb/localdb.py:61-63 | afterwards the instance is closed. On a closed instance nothing changes, so closing twice is the same as closing once. |
| `LocalDb.LocalDB.LoadValue` | localdb/localdb.py:102-110 | returns `Lookup` of the current store and changes nothing |
| `LocalDb.LocalDB.SaveValue` | localdb/localdb.py:126-134 | returns what `Save` returns and leaves the store `Save` describes. On success, only the entry for the pickled key changes, and it is set to the pickled value. |
| `LocalDb.RoundTrip` | localdb/localdb.py:102-131 | after a save that returned true, loading the same key returns the saved value |
| `LocalDb.SaveFrame` | localdb/localdb.py:128-130 | saving under one key leaves what every other key loads unchanged |
| `LocalDb.LastWriteWins` | localdb/localdb.py:128-130 | of two successful saves under one key, loading returns the second value |
| `LocalDb.UnpicklableKeyIsMasked` | localdb/localdb.py:103-134 | if the key cannot be pickled, load returns PyNone, and save returns false and keeps the store |
| `LocalDb.ClosedIsMasked` | localdb/localdb.py:105-134 | on a closed instance, load returns PyNone, and save returns false and leaves the instance closed |
| `LocalDb.Replay` | localdb/localdb.py:126-134 | replaying a run of saves keeps an open store open and a closed one closed |
| `LocalDb.LastSaved` | localdb/localdb.py:128-131 | the value of the last save under a key that can succeed: only picklable keys and values can be saved |
| `LocalDb.ReplayLookup` | localdb/localdb.py:102-131 | on an open store, after any run of saves, a key loads the value of its last successful save. If it has none, it loads what it loaded before the run. |
| `LocalDb.NeverSavedMisses` | localdb/localdb.py:105-107 | on a freshly created file, a key that no save in a run used loads as PyNone |
| `LocalDb.EqualKeysWithDifferentPickles` | localdb/localdb.py:128-130 | entries are keyed by pickled bytes, not by Python equality. A value saved under True does not load under 1, although True == 1 in Python. |
| `LocalDb.SaveThenLoad` | tests/test_localdb.py:28-35 | in a session that saves and then loads, the save succeeds exactly when key and value can be pickled. On success the load returns the saved value. Otherwise it returns what the file held before. |
| `LocalDb.FailedOpen` | tests/test_localdb.py:63-68 | when the file cannot be opened, the error reaches the caller and the instance stays closed |

## Left out

- The `threading.Lock` and concurrency: each call is modelled as atomic. Only
  `load_value` and `save_value` take the lock; `__enter__` and `__exit__` do
  not, so in the source `__exit__` can close the store and set `db` to None
  while another thread is inside `save_value` or `load_value`. Such
  interleavings are not modelled.
- Logging and traceback formatting: these produce only side-channel output.
- The real dbm file and its on-disk format. What `dbm.open` answers is a
  parameter of `Enter`. Write-back on close and reopening the same file are not
  modelled.
- Errors raised by the dbm backend itself on a write, a read or a close (a full
  disk, a corrupt file). Only pickling errors and use while closed are modelled
  on the data path.
- The real pickle byte format. `Pickle` is a stand-in with the same three
  properties. Its `Value` covers None, bool, int, str, bytes, list and dict.
  Floats, tuples, sets and class instances are not modelled. `Value` also
  holds dicts no Python dict can be: a `PyDict` with a repeated key, or with
  an unhashable key such as a `PyList` or `PyDict`. Such values have no Python
  counterpart; the model pickles and loads them back like any other. A `PyStr`
  holds Unicode scalar values, so a Python str with a lone surrogate, which
  pickle accepts, cannot be represented.
- Pickle.Serialize: pickle.dumps also fails, with RecursionError, on a value
  nested deeper than the interpreter's recursion limit, and `save_value` then
  returns False (localdb/localdb.py:132-134). The model's `Picklable` ignores
  depth, so `Save`, `SaveValue` and `SaveThenLoad` report success on such
  values where `save_value` returns False.
- Pickle.Serialize depends only on the value's structure. pickle's bytes also
  depend on object sharing: an object that appears twice is written once and
  then as a back-reference. So with `a = [1]`, `pickle.dumps([a, a])` differs
  from `pickle.dumps([[1], [1]])`. In the source, keys that are equal but share
  objects differently therefore miss each other, while in the model they hit
  the same entry.
- The forced failure in the unit tests (patching `_serialize` to raise for any
  key) is covered by the lemmas about any key whose pickling fails, not by a
  separate switch.
- LocalDb.LocalDB.Enter: called on an already open instance, the source
  replaces the open handle without closing it. The model replaces the store
  too, but the leaked handle is not modelled.
- LocalDb.LocalDB.Exit: the exception arguments and the return value of
  `__exit__` (None, so exceptions raised in the `with` body propagate) are not
  modelled.
- Python equality of loaded values: the model compares values structurally. For
  example, dicts are compared in entry order, where Python ignores order.
