/**
 * The `useLocalStorageState` hook: a piece of state that is read once from a
 * string-keyed store when the component mounts and written back, serialised,
 * under the same key after every change.
 *
 * The store stands for `localStorage`; serialisation and parsing stand for
 * `JSON.stringify` and `JSON.parse` and are parameters, so the model fixes no
 * JSON format.
 */
module LocalStorage {

  /**
   * What parsing a stored string yields: a syntax error (`JSON.parse` throws),
   * a falsy JSON value (`null`, `false`, `0`, `""`), or a truthy value.
   */
  datatype Parsed<T> = Malformed | Falsy | Truthy(value: T)

  /** The result of the initializer: the initial value, or the uncaught parse error. */
  datatype Loaded<T> = Loaded(value: T) | ParseFailed

  /** `JSON.stringify` followed by `JSON.parse` gives back every value. */
  ghost predicate RoundTrips<T(!new)>(serialize: T -> string, parse: string -> Parsed<T>) {
    forall v :: parse(serialize(v)) == Truthy(v)
  }

  /**
   * The lazy initializer of the hook's `useState`. A missing key reads as
   * `null`, which is falsy, so it yields `initialState`; nothing catches a
   * parse error.
   */
  function Load<T>(store: map<string, string>, key: string, initialState: T,
                   parse: string -> Parsed<T>): (r: Loaded<T>)
    ensures key !in store ==> r == Loaded(initialState)
    ensures r.ParseFailed? <==> key in store && parse(store[key]).Malformed?
    ensures key in store && parse(store[key]).Falsy? ==> r == Loaded(initialState)
    ensures key in store && parse(store[key]).Truthy? ==> r == Loaded(parse(store[key]).value)
  {
    if key !in store then Loaded(initialState)
    else
      match parse(store[key])
      case Malformed => ParseFailed
      case Falsy => Loaded(initialState)
      case Truthy(v) => Loaded(v)
  }

  /** The hook's effect: `setItem(key, JSON.stringify(value))`. */
  function Persist<T>(store: map<string, string>, key: string, value: T,
                      serialize: T -> string): (r: map<string, string>)
    ensures key in r && r[key] == serialize(value)
    ensures r.Keys == store.Keys + {key}
    ensures forall k :: k in store && k != key ==> r[k] == store[k]
  {
    store[key := serialize(value)]
  }

  /** Reloading after a write gives back the value written. */
  lemma ReloadAfterPersist<T(!new)>(store: map<string, string>, key: string, initialState: T,
                                    value: T, serialize: T -> string, parse: string -> Parsed<T>)
    requires RoundTrips(serialize, parse)
    ensures Load(Persist(store, key, value, serialize), key, initialState, parse) == Loaded(value)
  {
    assert parse(serialize(value)) == Truthy(value);
  }

  /** Writing one key leaves what every other key loads as it was. */
  lemma PersistKeepsOtherKeys<T, U>(store: map<string, string>, key: string, value: T,
                                    serialize: T -> string, other: string, initialState: U,
                                    parse: string -> Parsed<U>)
    requires other != key
    ensures Load(Persist(store, key, value, serialize), other, initialState, parse)
         == Load(store, other, initialState, parse)
  {
  }

  /** Writing the value the store already holds changes nothing. */
  lemma PersistSameValueIsNoop<T>(store: map<string, string>, key: string, value: T,
                                  serialize: T -> string)
    requires key in store && store[key] == serialize(value)
    ensures Persist(store, key, value, serialize) == store
  {
  }

  /** The state returned by `useLocalStorageState(initialState, key)`. */
  class PersistentState<T> {
    const key: string
    const initialState: T
    const serialize: T -> string
    /** The React state `value`. */
    var value: T
    /** The contents of `localStorage`. */
    var store: map<string, string>

    /** The store holds the serialised current value under the key. */
    ghost predicate Valid()
      reads this
    {
      key in store && store[key] == serialize(value)
    }

    /** The first render with the loaded value, followed by the effect's first write. */
    constructor (key: string, initialState: T, serialize: T -> string, loaded: T,
                 store: map<string, string>)
      ensures Valid()
      ensures this.key == key && this.initialState == initialState && this.serialize == serialize
      ensures value == loaded && this.store == Persist(store, key, loaded, serialize)
    {
      this.key := key;
      this.initialState := initialState;
      this.serialize := serialize;
      value := loaded;
      this.store := store[key := serialize(loaded)];
    }

    /** `setValue(v)` and the effect it triggers. */
    method SetValue(v: T)
      modifies this
      ensures Valid()
      ensures value == v && store == Persist(old(store), key, v, serialize)
    {
      value := v;
      store := store[key := serialize(v)];
    }
  }

  /**
   * Mounting a component that calls the hook. When the stored entry does not
   * parse, the exception escapes the initializer and no state is created.
   */
  method Mount<T>(initialState: T, key: string, serialize: T -> string,
                  parse: string -> Parsed<T>, store: map<string, string>)
    returns (s: PersistentState?<T>)
    ensures s == null <==> Load(store, key, initialState, parse).ParseFailed?
    ensures s != null ==>
      && fresh(s) && s.Valid()
      && s.key == key && s.initialState == initialState && s.serialize == serialize
      && s.value == Load(store, key, initialState, parse).value
      && s.store == Persist(store, key, s.value, serialize)
  {
    match Load(store, key, initialState, parse)
    case ParseFailed =>
      s := null;
    case Loaded(v) =>
      s := new PersistentState(key, initialState, serialize, v, store);
  }
}
