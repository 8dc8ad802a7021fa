/** demos/actor-lab/src/worker/chat.ts: the say limit of a room that may be evicted at any time. */
module ChatRoom {
  import opened Options
  import opened WriteThrough
  import opened Windows

  /** The kinds of value that the fields of `ChatState` hold. */
  datatype Cell = Flag(on: bool) | Stamp(at: int) | Stamps(times: seq<int>) | Messages(texts: seq<string>)

  const INITIAL: map<string, Cell> :=
    map["ready" := Flag(false), "createdAt" := Stamp(0), "touchedAt" := Stamp(0), "aiUntil" := Stamp(0),
        "messages" := Messages([]), "says" := Stamps([])]

  function Says(memory: map<string, Cell>): seq<int> {
    if "says" in memory && memory["says"].Stamps? then memory["says"].times else []
  }

  class Room {
    const actor: Actor<Cell>

    /** A room over whatever table an earlier isolate left. */
    constructor (codec: Codec<Cell>, kv: Option<map<string, string>>)
      ensures fresh(actor) && actor.Valid() && actor.codec == codec && actor.initial == INITIAL
      ensures actor.View() == Loaded(codec, kv)
    {
      actor := new Actor<Cell>(codec, INITIAL, kv);
    }

    method AllowSay(now: int) returns (ok: bool)
      requires actor.Valid()
      modifies actor
      ensures actor.Valid()
      ensures var a := AdmitSay(Says(old(actor.memory)), now);
              ok == a.ok && actor.View() == Apply(actor.codec, actor.initial, old(actor.View()),
                Assign("says", Stamps(a.times)))
    {
      var admitted := AdmitSay(Says(actor.memory), now);
      actor.Set("says", Stamps(admitted.times));
      ok := admitted.ok;
    }

    method Evict()
      requires actor.Valid()
      modifies actor
      ensures actor.Valid() && actor.View() == Apply(actor.codec, actor.initial, old(actor.View()), Reload)
    {
      actor.ReloadState();
    }
  }

  function Loaded(codec: Codec<Cell>, kv: Option<map<string, string>>): Store<Cell> {
    Store(Hydrated(codec, INITIAL, kv), kv)
  }

  datatype Op = Say(now: int) | Evicted | Write(prop: string, value: Cell)

  /** The room's writes so far, and the log of its say limit. */
  datatype Life = Life(writes: seq<WriteThrough.Op<Cell>>, log: Log)

  function StoreOf(codec: Codec<Cell>, writes: seq<WriteThrough.Op<Cell>>): Store<Cell> {
    ApplyAll(codec, INITIAL, Loaded(codec, None), writes)
  }

  function Live(codec: Codec<Cell>, ops: seq<Op>): Life {
    if ops == [] then Life([], EMPTY)
    else
      var life, op := Live(codec, ops[..|ops| - 1]), ops[|ops| - 1];
      match op
      case Say(now) =>
        var a := AdmitSay(Says(StoreOf(codec, life.writes).memory), now);
        Life(life.writes + [Assign("says", Stamps(a.times))], Record(life.log, now, a))
      case Evicted => Life(life.writes + [Reload], life.log)
      case Write(prop, value) => Life(life.writes + [Assign(prop, value)], life.log)
  }

  /** The moments of the say calls. */
  function SayTimes(ops: seq<Op>): seq<int> {
    if ops == [] then []
    else SayTimes(ops[..|ops| - 1]) + match ops[|ops| - 1] case Say(now) => [now] case _ => []
  }

  ghost predicate JsonSafe(codec: Codec<Cell>) {
    forall v: Cell :: codec.read(codec.write(v)) == Some(v)
  }

  lemma StoreSnoc(codec: Codec<Cell>, writes: seq<WriteThrough.Op<Cell>>, w: WriteThrough.Op<Cell>)
    ensures StoreOf(codec, writes + [w]) == Apply(codec, INITIAL, StoreOf(codec, writes), w)
  {
    assert (writes + [w])[..|writes|] == writes;
  }

  /** Whatever is evicted and written in between, the persisted list is the list of an undisturbed run. */
  lemma {:induction false} EvictionKeepsTheLimit(codec: Codec<Cell>, ops: seq<Op>)
    requires JsonSafe(codec) && forall op | op in ops && op.Write? :: op.prop != "says"
    ensures var life := Live(codec, ops);
            life.log == Run(AdmitSay, SayTimes(ops)) && Says(StoreOf(codec, life.writes).memory) == life.log.times
  {
    hide JsonSafe, AdmitSay;
    if ops != [] {
      var front, op := ops[..|ops| - 1], ops[|ops| - 1];
      assert op in ops && forall o | o in front :: o in ops;
      EvictionKeepsTheLimit(codec, front);
      var life := Live(codec, front);
      match op
      case Say(now) =>
        var a := AdmitSay(life.log.times, now);
        StoreSnoc(codec, life.writes, Assign("says", Stamps(a.times)));
        assert (SayTimes(front) + [now])[..|SayTimes(front)|] == SayTimes(front);
      case Evicted =>
        StoreSnoc(codec, life.writes, Reload);
        ReloadKeepsSays(codec, life.writes);
        assert SayTimes(front) + [] == SayTimes(front);
      case Write(prop, value) =>
        StoreSnoc(codec, life.writes, Assign(prop, value));
        assert SayTimes(front) + [] == SayTimes(front);
    }
  }

  lemma ReloadKeepsSays(codec: Codec<Cell>, writes: seq<WriteThrough.Op<Cell>>)
    requires JsonSafe(codec)
    ensures var s := StoreOf(codec, writes); Says(Apply(codec, INITIAL, s, Reload).memory) == Says(s.memory)
  {
    ReloadChangesNothing(codec, INITIAL, None, writes);
    assert "says" in INITIAL;
  }

  /** No minute holds more than 30 admitted says, however often the room is evicted. */
  lemma SayWindowSurvivesEviction(codec: Codec<Cell>, ops: seq<Op>, start: int)
    requires JsonSafe(codec) && (forall op | op in ops && op.Write? :: op.prop != "says")
        && NonDecreasing(SayTimes(ops))
    ensures |Within(Live(codec, ops).log.admitted, start, SAY_WINDOW_MS)| <= SAYS_PER_MINUTE
  {
    EvictionKeepsTheLimit(codec, ops);
    SayWindow(SayTimes(ops), start);
  }
}
