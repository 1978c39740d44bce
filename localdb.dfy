/**
 * LocalDB: a dbm file that keeps pickled Python keys and values.
 *
 * An instance is closed (its `db` is None) until `__enter__` opens the dbm
 * store, and closed again by `__exit__`. While open, `save_value` pickles a
 * key and a value and stores the pair; `load_value` pickles the key, looks it
 * up and unpickles what it finds. Every exception inside those two methods
 * is logged and turned into a sentinel: None from `load_value`, False from
 * `save_value`. The store is modelled as a map from key bytes to value bytes.
 * `load_value` and `save_value` hold the instance's lock; `__enter__` and
 * `__exit__` do not. The model treats every call as atomic, so a close that
 * races a load or save is not modelled.
 */
module LocalDb {
  import opened Wrappers
  import opened Pickle

  /** The contents of an open dbm file: pickled keys to pickled values. */
  type Store = map<Bytes, Bytes>

  /** What dbm.open(path, 'c') gives back: the file's current contents (empty
      when it had to create the file), or the error it raised. */
  datatype OpenAttempt = Opened(contents: Store) | OpenFailed(cause: string)

  /** The exception `__enter__` logs and re-raises. */
  datatype OpenError = OpenError(cause: string)

  // ---------------------------------------------------------------------
  // What load_value and save_value do, as functions of the store.
  //
  // LoadValue and SaveValue below follow the source's steps on the object's
  // field. These functions give the same results as values, because the
  // lemmas about runs of loads and saves cannot call methods. Each method's
  // ensures ties it to its function.

  /** The value load_value returns for key, given the store (None when closed). */
  function Lookup(db: Option<Store>, key: Value): (r: Value)
    ensures db.None? ==> r == PyNone
    ensures !Picklable(key) ==> r == PyNone
    ensures db.Some? && Picklable(key) && Serialize(key).value !in db.value ==> r == PyNone
  {
    match Serialize(key)
    case Failure(_) => PyNone
    case Success(k) =>
      if db.None? then PyNone  // the lookup on a None store raises
      else if k !in db.value || db.value[k] == [] then PyNone  // missing or empty bytes
      else
        match Deserialize(db.value[k])
        case Failure(_) => PyNone
        case Success(v) => v
  }

  /** What save_value returns for key and value, with the store it leaves. */
  function Save(db: Option<Store>, key: Value, value: Value): (r: (bool, Option<Store>))
    ensures r.0 <==> db.Some? && Picklable(key) && Picklable(value)
    ensures !r.0 ==> r.1 == db
  {
    match Serialize(key)
    case Failure(_) => (false, db)
    case Success(k) =>
      match Serialize(value)
      case Failure(_) => (false, db)
      case Success(v) =>
        if db.None? then (false, db)  // item assignment on a None store raises
        else (true, Some(db.value[k := v]))
  }

  // ---------------------------------------------------------------------
  // The object.

  class LocalDB {
    const dbPath: string
    var db: Option<Store>

    /** A new instance is closed and remembers its path. */
    constructor (dbPath: string)
      ensures this.dbPath == dbPath && db == None
    {
      this.dbPath := dbPath;
      db := None;
    }

    /**
     * Opens the dbm file at dbPath; `attempt` is what dbm.open answered. On
     * success the instance is open on those contents and is returned; on
     * failure the error is passed on and db keeps its old value.
     */
    method Enter(attempt: OpenAttempt) returns (r: Result<LocalDB, OpenError>)
      modifies this
      ensures attempt.Opened? ==> r == Success(this) && db == Some(attempt.contents)
      ensures attempt.OpenFailed? ==> r == Failure(OpenError(attempt.cause)) && db == old(db)
    {
      match attempt
      case OpenFailed(cause) =>
        r := Failure(OpenError(cause));
      case Opened(contents) =>
        db := Some(contents);
        r := Success(this);
    }

    /** Closes the store when open; does nothing when already closed. */
    method Exit()
      modifies this
      ensures db == None
      ensures old(db) == None ==> unchanged(this)
    {
      if db.Some? {
        db := None;
      }
    }

    /** load_value: the stored value for key, or PyNone on a miss or any error. */
    method LoadValue(key: Value) returns (r: Value)
      ensures r == Lookup(db, key)
    {
      var serializedKey := Serialize(key);
      if serializedKey.Failure? {
        return PyNone;
      }
      if db.None? {
        return PyNone;
      }
      var store, k := db.value, serializedKey.value;
      if k !in store || store[k] == [] {
        return PyNone;
      }
      var decoded := Deserialize(store[k]);
      if decoded.Failure? {
        return PyNone;
      }
      r := decoded.value;
    }

    /** save_value: stores the pair and returns true, or returns false on any error. */
    method SaveValue(key: Value, value: Value) returns (ok: bool)
      modifies this
      ensures (ok, db) == Save(old(db), key, value)
      ensures ok ==> db == Some(old(db).value[Serialize(key).value := Serialize(value).value])
    {
      var serializedKey := Serialize(key);
      if serializedKey.Failure? {
        return false;
      }
      var serializedValue := Serialize(value);
      if serializedValue.Failure? {
        return false;
      }
      if db.None? {
        return false;
      }
      db := Some(db.value[serializedKey.value := serializedValue.value]);
      ok := true;
    }
  }

  // ---------------------------------------------------------------------
  // Properties of load and save.

  /** After a successful save, loading the key gives back the saved value. */
  lemma RoundTrip(db: Option<Store>, key: Value, value: Value)
    requires Save(db, key, value).0
    ensures Lookup(Save(db, key, value).1, key) == value
  {
    SerializeDeserialize(value);
  }

  /** Saving under one key leaves what every other key loads unchanged. */
  lemma SaveFrame(db: Option<Store>, key: Value, value: Value, other: Value)
    requires other != key
    ensures Lookup(Save(db, key, value).1, other) == Lookup(db, other)
  {
    if Save(db, key, value).0 && Picklable(other) {
      if Serialize(other) == Serialize(key) {
        SerializeInjective(other, key);
      }
    }
  }

  /** The last of two saves under one key wins. */
  lemma LastWriteWins(db: Option<Store>, key: Value, first: Value, second: Value)
    requires Save(db, key, first).0 && Picklable(second)
    ensures Lookup(Save(Save(db, key, first).1, key, second).1, key) == second
  {
    RoundTrip(Save(db, key, first).1, key, second);
  }

  /** A key whose pickling fails: load gives PyNone, save gives false and keeps the store. */
  lemma UnpicklableKeyIsMasked(db: Option<Store>, key: Value, value: Value)
    requires !Picklable(key)
    ensures Lookup(db, key) == PyNone
    ensures Save(db, key, value) == (false, db)
  {
  }

  /** A closed instance: load gives PyNone, save gives false and it stays closed. */
  lemma ClosedIsMasked(key: Value, value: Value)
    ensures Lookup(None, key) == PyNone
    ensures Save(None, key, value) == (false, None)
  {
  }

  // ---------------------------------------------------------------------
  // A run of saves against an independent account of what it stores.

  /** The store after save_value(ops[0]), save_value(ops[1]), ... in turn. */
  function Replay(db: Option<Store>, ops: seq<(Value, Value)>): (r: Option<Store>)
    ensures r.Some? <==> db.Some?
    decreases |ops|
  {
    if ops == [] then db
    else
      var last := ops[|ops| - 1];
      Save(Replay(db, ops[..|ops| - 1]), last.0, last.1).1
  }

  /** The value of the last save in ops under key that can succeed, if any. */
  function LastSaved(ops: seq<(Value, Value)>, key: Value): (r: Option<Value>)
    ensures r.Some? ==> Picklable(key) && Picklable(r.value)
    decreases |ops|
  {
    if ops == [] then None
    else
      var last := ops[|ops| - 1];
      if last.0 == key && Picklable(last.0) && Picklable(last.1) then Some(last.1)
      else LastSaved(ops[..|ops| - 1], key)
  }

  /**
   * On an open store, after any run of saves a key loads the value of its
   * last successful save, or what it loaded before the run if it had none.
   */
  lemma {:induction false} ReplayLookup(db: Option<Store>, ops: seq<(Value, Value)>, key: Value)
    requires db.Some?
    ensures Lookup(Replay(db, ops), key)
         == match LastSaved(ops, key) case Some(v) => v case None => Lookup(db, key)
    decreases |ops|
  {
    if ops != [] {
      var init, last := ops[..|ops| - 1], ops[|ops| - 1];
      ReplayLookup(db, init, key);
      if last.0 == key {
        if Save(Replay(db, init), key, last.1).0 {
          RoundTrip(Replay(db, init), key, last.1);
        }
      } else {
        SaveFrame(Replay(db, init), last.0, last.1, key);
      }
    }
  }

  /** A key never saved in a run on a fresh, empty file loads as PyNone. */
  lemma NeverSavedMisses(ops: seq<(Value, Value)>, key: Value)
    requires forall i | 0 <= i < |ops| :: ops[i].0 != key
    ensures Lookup(Replay(Some(map[]), ops), key) == PyNone
  {
    ReplayLookup(Some(map[]), ops, key);
    NotSavedHasNoLast(ops, key);
  }

  lemma {:induction false} NotSavedHasNoLast(ops: seq<(Value, Value)>, key: Value)
    requires forall i | 0 <= i < |ops| :: ops[i].0 != key
    ensures LastSaved(ops, key) == None
    decreases |ops|
  {
    if ops != [] {
      NotSavedHasNoLast(ops[..|ops| - 1], key);
    }
  }

  /**
   * Keys are told apart by their pickles, not by Python's ==: True == 1 in
   * Python, yet a value saved under True does not load under 1.
   */
  lemma EqualKeysWithDifferentPickles(value: Value)
    ensures Lookup(Save(Some(map[]), PyBool(true), value).1, PyInt(1)) == PyNone
  {
    assert Serialize(PyBool(true)).value[0] != Serialize(PyInt(1)).value[0];
  }

  // ---------------------------------------------------------------------
  // Sessions as the unit tests drive them: `with LocalDB(path) as db: ...`.

  /** A session that saves a pair and loads its key back before closing. */
  method SaveThenLoad(path: string, existing: Store, key: Value, value: Value)
    returns (saved: bool, loaded: Value)
    ensures saved <==> Picklable(key) && Picklable(value)
    ensures saved ==> loaded == value
    ensures !saved ==> loaded == Lookup(Some(existing), key)
  {
    var db := new LocalDB(path);
    var _ := db.Enter(Opened(existing));
    saved := db.SaveValue(key, value);
    loaded := db.LoadValue(key);
    if saved {
      RoundTrip(Some(existing), key, value);
    }
    db.Exit();
  }

  /** A session whose open fails: the error reaches the caller and the instance stays closed. */
  method FailedOpen(path: string, cause: string) returns (r: Result<LocalDB, OpenError>, closed: bool)
    ensures r == Failure(OpenError(cause)) && closed
  {
    var db := new LocalDB(path);
    r := db.Enter(OpenFailed(cause));
    closed := db.db.None?;
  }
}
