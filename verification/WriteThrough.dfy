/** demos/actor-lab/src/worker/actor.ts: actor state that is written through to a key/value table. */
module WriteThrough {
  import opened Options

  /** `JSON.stringify` and `JSON.parse`; a text that does not parse reads as None. */
  datatype Codec<!V> = Codec(write: V -> string, read: string -> Option<V>)

  /** The in-memory fields, and the `kv` table once it exists. */
  datatype Store<V> = Store(memory: map<string, V>, kv: Option<map<string, string>>)

  datatype Op<V> = Assign(prop: string, value: V) | Reload | Expire

  // ---------------------------------------------------------------- the specification

  /** The cell of `key`, if the table has one that parses. */
  function Saved<V>(codec: Codec<V>, kv: Option<map<string, string>>, key: string): Option<V> {
    if kv.Some? && key in kv.value then codec.read(kv.value[key]) else None
  }

  /** A fresh state read from the table: every field of `initial()`, overwritten by its cell. */
  function Hydrated<V>(codec: Codec<V>, initial: map<string, V>, kv: Option<map<string, string>>): map<string, V> {
    map key | key in initial :: match Saved(codec, kv, key) case Some(v) => v case None => initial[key]
  }

  function Apply<V>(codec: Codec<V>, initial: map<string, V>, s: Store<V>, op: Op<V>): Store<V> {
    match op
    case Assign(prop, value) =>
      var rows := if s.kv.Some? then s.kv.value else map[];
      Store(s.memory[prop := value], Some(rows[prop := codec.write(value)]))
    case Reload => s.(memory := Hydrated(codec, initial, s.kv))
    case Expire => Store(initial, None)
  }

  function ApplyAll<V>(codec: Codec<V>, initial: map<string, V>, s: Store<V>, ops: seq<Op<V>>): Store<V>
    decreases |ops|
  {
    if ops == [] then s else Apply(codec, initial, ApplyAll(codec, initial, s, ops[..|ops| - 1]), ops[|ops| - 1])
  }

  // ---------------------------------------------------------------- the actor

  class Actor<V(==)> {
    const codec: Codec<V>
    const initial: map<string, V>
    var memory: map<string, V>
    var kv: Option<map<string, string>>
    var tables: bool

    ghost predicate Valid() reads this { tables ==> kv.Some? }

    function View(): Store<V> reads this { Store(memory, kv) }

    /** Loading an actor over whatever table an earlier isolate left. */
    constructor (codec: Codec<V>, initial: map<string, V>, kv: Option<map<string, string>>)
      ensures Valid() && this.codec == codec && this.initial == initial
      ensures View() == Store(Hydrated(codec, initial, kv), kv)
    {
      this.codec, this.initial, this.kv, this.tables, this.memory := codec, initial, kv, false, map[];
      new;
      memory := Hydrate();
    }

    method EnsureStorage()
      requires Valid()
      modifies this`kv, this`tables
      ensures Valid() && tables && kv == if old(kv).Some? then old(kv) else Some(map[])
    {
      if tables { return; }
      if kv == None { kv := Some(map[]); }
      tables := true;
    }

    /** The `set` trap: memory and table change together. */
    method Set(prop: string, value: V)
      requires Valid()
      modifies this
      ensures Valid() && View() == Apply(codec, initial, old(View()), Assign(prop, value))
    {
      EnsureStorage();
      memory := memory[prop := value];
      kv := Some(kv.value[prop := codec.write(value)]);
    }

    method Hydrate() returns (next: map<string, V>)
      requires Valid()
      modifies this`tables
      ensures Valid() && next == Hydrated(codec, initial, kv)
    {
      next := initial;
      if kv == None { return; }
      tables := true;
      var saved: map<string, V> := map[];
      var rows := kv.value.Keys;
      while rows != {}
        invariant rows <= kv.value.Keys
        invariant forall k | k in saved :: k !in rows && Saved(codec, kv, k) == Some(saved[k])
        invariant forall k | k in kv.value && k !in rows && k !in saved :: Saved(codec, kv, k).None?
      {
        var key :| key in rows;
        var parsed := codec.read(kv.value[key]);
        if parsed.Some? { saved := saved[key := parsed.value]; }
        rows := rows - {key};
      }
      var keys := next.Keys;
      while keys != {}
        invariant keys <= initial.Keys && next.Keys == initial.Keys
        invariant forall k | k in initial ::
                    next[k] == if k in keys then initial[k] else Hydrated(codec, initial, kv)[k]
      {
        var key :| key in keys;
        if key in saved { next := next[key := saved[key]]; }
        keys := keys - {key};
      }
    }

    method ReloadState()
      requires Valid()
      modifies this
      ensures Valid() && View() == Apply(codec, initial, old(View()), Reload)
    {
      memory := Hydrate();
    }

    /** The part of `alarm` that runs when the actor has been idle for its whole lifetime. */
    method ExpireNow()
      modifies this
      ensures Valid() && View() == Apply(codec, initial, old(View()), Expire)
    {
      kv := None;
      tables := false;
      memory := initial;
    }
  }

  // ---------------------------------------------------------------- properties

  /** The values a run assigns survive being written and read. */
  ghost predicate RoundTrips<V>(codec: Codec<V>, ops: seq<Op<V>>) {
    forall op | op in ops && op.Assign? :: codec.read(codec.write(op.value)) == Some(op.value)
  }

  /** Every field of the state, assigned or not, is what a fresh isolate would read. */
  ghost predicate InStep<V>(codec: Codec<V>, initial: map<string, V>, s: Store<V>) {
    forall key | key in initial :: key in s.memory && s.memory[key] == Hydrated(codec, initial, s.kv)[key]
  }

  /**
   * After any run of assignments, reloads and expiries, over any table an earlier isolate left, reading
   * the table gives the state in memory.
   */
  lemma {:induction false} TableHoldsState<V>(codec: Codec<V>, initial: map<string, V>,
                                              kv: Option<map<string, string>>, ops: seq<Op<V>>)
    requires RoundTrips(codec, ops)
    ensures InStep(codec, initial, ApplyAll(codec, initial, Store(Hydrated(codec, initial, kv), kv), ops))
    decreases |ops|
  {
    if ops != [] {
      var front, last := ops[..|ops| - 1], ops[|ops| - 1];
      assert last in ops && forall op | op in front :: op in ops;
      TableHoldsState(codec, initial, kv, front);
    }
  }

  /** So a reload at any point of any run changes no field of the state. */
  lemma ReloadChangesNothing<V>(codec: Codec<V>, initial: map<string, V>,
                                kv: Option<map<string, string>>, ops: seq<Op<V>>)
    requires RoundTrips(codec, ops)
    ensures var s := ApplyAll(codec, initial, Store(Hydrated(codec, initial, kv), kv), ops);
            var r := Apply(codec, initial, s, Reload);
            r.kv == s.kv && forall key | key in initial ::
              key in s.memory && key in r.memory && r.memory[key] == s.memory[key]
  {
    TableHoldsState(codec, initial, kv, ops);
  }

  /** A run that assigns only fields of the state is undone by no reload at all: memory itself is kept. */
  lemma {:induction false} ReloadIsIdentity<V>(codec: Codec<V>, initial: map<string, V>,
                                               kv: Option<map<string, string>>, ops: seq<Op<V>>)
    requires RoundTrips(codec, ops) && forall op | op in ops && op.Assign? :: op.prop in initial
    ensures var s := ApplyAll(codec, initial, Store(Hydrated(codec, initial, kv), kv), ops);
            Apply(codec, initial, s, Reload) == s
  {
    TableHoldsState(codec, initial, kv, ops);
    KeysKept(codec, initial, kv, ops);
    var s := ApplyAll(codec, initial, Store(Hydrated(codec, initial, kv), kv), ops);
    assert Hydrated(codec, initial, s.kv) == s.memory;
  }

  lemma {:induction false} KeysKept<V>(codec: Codec<V>, initial: map<string, V>,
                                       kv: Option<map<string, string>>, ops: seq<Op<V>>)
    requires forall op | op in ops && op.Assign? :: op.prop in initial
    ensures ApplyAll(codec, initial, Store(Hydrated(codec, initial, kv), kv), ops).memory.Keys == initial.Keys
    decreases |ops|
  {
    if ops != [] {
      var front := ops[..|ops| - 1];
      assert ops[|ops| - 1] in ops && forall op | op in front :: op in ops;
      KeysKept(codec, initial, kv, front);
    }
  }

  /** What a field must be: the value assigned last, or the initial one after an expiry, or the one that was loaded. */
  function Expected<V>(initial: map<string, V>, loaded: map<string, V>, ops: seq<Op<V>>, key: string): V
    requires key in initial && key in loaded
  {
    if ops == [] then loaded[key]
    else
      match ops[|ops| - 1]
      case Assign(prop, value) =>
        if prop == key then value else Expected(initial, loaded, ops[..|ops| - 1], key)
      case Reload => Expected(initial, loaded, ops[..|ops| - 1], key)
      case Expire => initial[key]
  }

  /** After any run every field holds the value that was assigned to it last, and an expiry leaves no table behind. */
  lemma {:induction false} FieldsHoldLastValue<V>(codec: Codec<V>, initial: map<string, V>,
                                                  kv: Option<map<string, string>>, ops: seq<Op<V>>, key: string)
    requires RoundTrips(codec, ops) && key in initial
    ensures var s := ApplyAll(codec, initial, Store(Hydrated(codec, initial, kv), kv), ops);
            && key in s.memory && s.memory[key] == Expected(initial, Hydrated(codec, initial, kv), ops, key)
            && (ops != [] && ops[|ops| - 1] == Expire ==> s.kv == None && s.memory == initial)
    decreases |ops|
  {
    if ops != [] {
      var front := ops[..|ops| - 1];
      assert forall op | op in front :: op in ops;
      FieldsHoldLastValue(codec, initial, kv, front, key);
      TableHoldsState(codec, initial, kv, front);
    }
  }

  /** Loading takes every cell that parses, and the initial value where there is none. */
  lemma LoadedFields<V>(codec: Codec<V>, initial: map<string, V>, rows: map<string, string>, key: string)
    ensures key in Hydrated(codec, initial, Some(rows)) <==> key in initial
    ensures key in initial && key in rows && codec.read(rows[key]).Some? ==>
              Hydrated(codec, initial, Some(rows))[key] == codec.read(rows[key]).value
    ensures key in initial && (key !in rows || codec.read(rows[key]).None?) ==>
              Hydrated(codec, initial, Some(rows))[key] == initial[key]
    ensures Hydrated(codec, initial, None) == initial
  {
  }
}
