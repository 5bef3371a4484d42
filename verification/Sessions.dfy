/** The WebSocket session registry: one entry per access key, changed by concurrent handlers in
    small atomic steps. */
module Sessions {
  import opened Common

  type Key = string

  datatype Registry = Registry(active: map<Key, u64>, next: u64)

  /** An atomic fetch-and-add; the counter is 64 bits wide. */
  function CountUp(r: Registry): Registry {
    r.(next := (r.next + 1) % U64_LIMIT)
  }

  /** The locked check-and-insert: a key that has an entry keeps it. */
  function Enter(r: Registry, key: Key, id: u64): Registry {
    if key in r.active then r else r.(active := r.active[key := id])
  }

  /** The locked cleanup: the entry goes only if it still carries the finishing session's number. */
  function Leave(r: Registry, key: Key, id: u64): Registry {
    if key in r.active && r.active[key] == id then r.(active := r.active - {key}) else r
  }

  function Expel(r: Registry, key: Key): Registry {
    r.(active := r.active - {key})
  }

  /** The shared server state. Each method is one critical section. */
  class AppState {
    var activeConnections: map<Key, u64>
    var nextSessionId: u64

    constructor ()
      ensures State() == Registry(map[], 0)
    {
      activeConnections := map[];
      nextSessionId := 0;
    }

    function State(): Registry
      reads this
    {
      Registry(activeConnections, nextSessionId)
    }

    method TakeId() returns (id: u64)
      modifies this
      ensures id == old(nextSessionId)
      ensures State() == CountUp(old(State()))
    {
      id := nextSessionId;
      nextSessionId := (nextSessionId + 1) % U64_LIMIT;
    }

    method TryAdmit(key: Key, id: u64) returns (admitted: bool)
      modifies this
      ensures admitted <==> key !in old(activeConnections)
      ensures State() == Enter(old(State()), key, id)
    {
      if key in activeConnections {
        return false;
      }
      activeConnections := activeConnections[key := id];
      return true;
    }

    method CleanUp(key: Key, id: u64)
      modifies this
      ensures State() == Leave(old(State()), key, id)
    {
      if key in activeConnections {
        var current := activeConnections[key];
        if current == id {
          activeConnections := activeConnections - {key};
        }
      }
    }

    /** `targetKey` and `removed` are what the two database calls before the lock returned. */
    method RemoveUser(targetKey: Option<Key>, removed: bool) returns (ok: bool)
      modifies this
      ensures ok == removed
      ensures State() == if removed && targetKey.Some? then Expel(old(State()), targetKey.value) else old(State())
    {
      if removed {
        if targetKey.Some? {
          activeConnections := activeConnections - {targetKey.value};
        }
        return true;
      }
      return false;
    }
  }

  // ---------- Interleavings ----------

  /** Where a connection attempt stands. `serial` counts the numbers handed out before its own. */
  datatype Phase =
    | Arrived
    | Forbidden
    | Authorized
    | Numbered(serial: nat, id: u64)
    | Conflict(serial: nat, id: u64)
    | Open(serial: nat, id: u64)
    | Closed(serial: nat, id: u64)
  {
    predicate HasId() {
      Numbered? || Conflict? || Open? || Closed?
    }
  }

  datatype Conn = Conn(key: Key, phase: Phase)

  /** What has happened under the lock, in order. */
  datatype Entry = Admitted(conn: nat) | Finished(conn: nat) | Revoked(key: Key)

  datatype World = World(registry: Registry, conns: seq<Conn>, issued: nat, log: seq<Entry>)

  /** One atomic step of any handler. The outcome of a database lookup is part of the action. */
  datatype Action =
    | Arrive(key: Key)
    | Validate(conn: nat, ok: bool)
    | TakeId(conn: nat)
    | TryAdmit(conn: nat)
    | Finish(conn: nat)
    | Revoke(key: Key)

  const START := World(Registry(map[], 0), [], 0, [])

  function Move(w: World, c: nat, phase: Phase): World
    requires c < |w.conns|
  {
    w.(conns := w.conns[c := w.conns[c].(phase := phase)])
  }

  /** A step; an action its connection is not ready for changes nothing. */
  function Next(w: World, a: Action): World {
    match a
    case Arrive(key) => w.(conns := w.conns + [Conn(key, Arrived)])
    case Validate(c, ok) =>
      if c < |w.conns| && w.conns[c].phase.Arrived? then
        Move(w, c, if ok then Authorized else Forbidden)
      else w
    case TakeId(c) =>
      if c < |w.conns| && w.conns[c].phase.Authorized? then
        Move(w, c, Numbered(w.issued, w.registry.next))
          .(registry := CountUp(w.registry), issued := w.issued + 1)
      else w
    case TryAdmit(c) =>
      if c < |w.conns| && w.conns[c].phase.Numbered? then
        var Conn(key, Numbered(serial, id)) := w.conns[c];
        if key in w.registry.active then Move(w, c, Conflict(serial, id))
        else Move(w, c, Open(serial, id)).(registry := Enter(w.registry, key, id), log := w.log + [Admitted(c)])
      else w
    case Finish(c) =>
      if c < |w.conns| && w.conns[c].phase.Open? then
        var Conn(key, Open(serial, id)) := w.conns[c];
        Move(w, c, Closed(serial, id)).(registry := Leave(w.registry, key, id), log := w.log + [Finished(c)])
      else w
    case Revoke(key) => w.(registry := Expel(w.registry, key), log := w.log + [Revoked(key)])
  }

  function Run(actions: seq<Action>): World {
    if actions == [] then START
    else Next(Run(actions[..|actions| - 1]), actions[|actions| - 1])
  }

  /** By the log alone: `c` was admitted, and neither finished nor had its key revoked since. */
  ghost predicate Serving(log: seq<Entry>, key: Key, c: nat) {
    exists i :: 0 <= i < |log| && log[i] == Admitted(c)
      && forall j :: i < j < |log| ==> log[j] != Finished(c) && log[j] != Revoked(key)
  }

  lemma ServingAfter(log: seq<Entry>, e: Entry, key: Key, c: nat)
    ensures Serving(log + [e], key, c)
       <==> e == Admitted(c) || (Serving(log, key, c) && e != Finished(c) && e != Revoked(key))
  {
    var more := log + [e];
    assert more[|log|] == e;
    if e == Admitted(c) {
      assert Serving(more, key, c);
    } else if Serving(log, key, c) && e != Finished(c) && e != Revoked(key) {
      var i :| 0 <= i < |log| && log[i] == Admitted(c)
        && forall j :: i < j < |log| ==> log[j] != Finished(c) && log[j] != Revoked(key);
      assert more[i] == Admitted(c);
      forall j | i < j < |more| ensures more[j] != Finished(c) && more[j] != Revoked(key) {
        if j < |log| { assert more[j] == log[j]; }
      }
    } else if Serving(more, key, c) {
      var i :| 0 <= i < |more| && more[i] == Admitted(c)
        && forall j :: i < j < |more| ==> more[j] != Finished(c) && more[j] != Revoked(key);
      assert i < |log|;
      assert log[i] == Admitted(c);
      forall j | i < j < |log| ensures log[j] != Finished(c) && log[j] != Revoked(key) {
        assert more[j] == log[j];
      }
      assert false;
    }
  }

  // ---------- Numbers ----------

  /** Every number comes from the counter, and no two come from the same count. */
  ghost predicate Counted(w: World) {
    && w.registry.next == w.issued % U64_LIMIT
    && (forall c | 0 <= c < |w.conns| && w.conns[c].phase.HasId() ::
          w.conns[c].phase.serial < w.issued && w.conns[c].phase.id == w.conns[c].phase.serial % U64_LIMIT)
    && (forall c, d | 0 <= c < d < |w.conns| && w.conns[c].phase.HasId() && w.conns[d].phase.HasId() ::
          w.conns[c].phase.serial != w.conns[d].phase.serial)
  }

  lemma CountOn(n: nat)
    ensures (n % U64_LIMIT + 1) % U64_LIMIT == (n + 1) % U64_LIMIT
  {
  }

  lemma TakeIdCounts(w: World, c: nat)
    requires Counted(w)
    ensures Counted(Next(w, TakeId(c)))
  {
    CountOn(w.issued);
  }

  lemma CountedStep(w: World, a: Action)
    requires Counted(w)
    ensures Counted(Next(w, a)) && w.issued <= Next(w, a).issued
  {
    if a.TakeId? {
      TakeIdCounts(w, a.conn);
    }
  }

  lemma {:induction false} RunsAreCounted(actions: seq<Action>)
    ensures Counted(Run(actions))
  {
    if actions != [] {
      RunsAreCounted(actions[..|actions| - 1]);
      CountedStep(Run(actions[..|actions| - 1]), actions[|actions| - 1]);
    }
  }

  lemma SameRemainder(p: nat, q: nat)
    ensures p % U64_LIMIT == q % U64_LIMIT <==> (p - q) % U64_LIMIT == 0
  {
    var a, b := p / U64_LIMIT, q / U64_LIMIT;
    assert p - q == (a - b) * U64_LIMIT + (p % U64_LIMIT - q % U64_LIMIT);
  }

  /** The facts about one attempt that has its number. */
  lemma NumberOf(w: World, c: nat)
    requires Counted(w) && c < |w.conns| && w.conns[c].phase.HasId()
    ensures w.conns[c].phase.id == w.conns[c].phase.serial % U64_LIMIT
    ensures w.conns[c].phase.serial < w.issued && w.registry.next == w.issued % U64_LIMIT
  {
  }

  lemma SerialsDiffer(w: World, c: nat, d: nat)
    requires Counted(w) && c < d < |w.conns| && w.conns[c].phase.HasId() && w.conns[d].phase.HasId()
    ensures w.conns[c].phase.serial != w.conns[d].phase.serial
  {
  }

  /** In every run two attempts have the same number exactly when the counter has gone round a
      whole number of times between them; so up to 2^64 attempts all numbers differ. */
  lemma NumbersCollideIff(actions: seq<Action>, w: World, c: nat, d: nat)
    requires w == Run(actions) && c < d < |w.conns|
    requires w.conns[c].phase.HasId() && w.conns[d].phase.HasId()
    ensures w.conns[c].phase.id == w.conns[d].phase.id
       <==> (w.conns[c].phase.serial - w.conns[d].phase.serial) % U64_LIMIT == 0
    ensures w.issued <= U64_LIMIT ==> w.conns[c].phase.id != w.conns[d].phase.id
  {
    RunsAreCounted(actions);
    NumberOf(w, c);
    NumberOf(w, d);
    SerialsDiffer(w, c, d);
    SameRemainder(w.conns[c].phase.serial, w.conns[d].phase.serial);
  }

  /** Below 2^64 attempts every number handed out is below the counter. */
  lemma NumbersBelowCounter(actions: seq<Action>, w: World, c: nat)
    requires w == Run(actions) && w.issued < U64_LIMIT
    requires c < |w.conns| && w.conns[c].phase.HasId()
    ensures w.conns[c].phase.id < w.registry.next == w.issued
  {
    RunsAreCounted(actions);
    NumberOf(w, c);
  }

  /** Only an attempt whose key the database accepted gets a number, let alone a session. */
  lemma {:induction false} NumbersNeedValidation(actions: seq<Action>, c: nat)
    requires c < |Run(actions).conns|
    requires Run(actions).conns[c].phase.Authorized? || Run(actions).conns[c].phase.HasId()
    ensures Validate(c, true) in actions
  {
    if actions != [] {
      var prefix, last := actions[..|actions| - 1], actions[|actions| - 1];
      if last != Validate(c, true) {
        NumbersNeedValidation(prefix, c);
      }
    }
  }

  // ---------- The map and the log tell the same story ----------

  ghost predicate Owns(w: World, key: Key, c: nat) {
    && c < |w.conns|
    && w.conns[c].key == key
    && w.conns[c].phase.Open?
    && key in w.registry.active
    && w.registry.active[key] == w.conns[c].phase.id
  }

  ghost predicate Consistent(w: World) {
    && Counted(w)
    && (forall e | e in w.log && e.Admitted? :: e.conn < |w.conns|)
    && (forall c | 0 <= c < |w.conns| && Serving(w.log, w.conns[c].key, c) :: Owns(w, w.conns[c].key, c))
    && (forall key | key in w.registry.active ::
          exists c :: Owns(w, key, c) && Serving(w.log, key, c))
  }

  lemma SameNumberSameConn(w: World, c: nat, d: nat)
    requires Counted(w) && w.issued <= U64_LIMIT
    requires c < |w.conns| && d < |w.conns| && w.conns[c].phase.HasId() && w.conns[d].phase.HasId()
    requires w.conns[c].phase.id == w.conns[d].phase.id
    ensures c == d
  {
    NumberOf(w, c);
    NumberOf(w, d);
    if c < d { SerialsDiffer(w, c, d); }
    if d < c { SerialsDiffer(w, d, c); }
  }

  lemma QuietStep(w: World, v: World, c: nat)
    requires Consistent(w) && Counted(v) && c < |w.conns|
    requires v.registry.active == w.registry.active && v.log == w.log
    requires !w.conns[c].phase.Open? && |v.conns| == |w.conns| && v.conns[c].key == w.conns[c].key
    requires forall d | 0 <= d < |w.conns| && d != c :: v.conns[d] == w.conns[d]
    ensures Consistent(v)
  {
    forall d | 0 <= d < |v.conns| && Serving(v.log, v.conns[d].key, d) ensures Owns(v, v.conns[d].key, d) {
      assert Owns(w, w.conns[d].key, d);
    }
    forall key | key in v.registry.active ensures exists d :: Owns(v, key, d) && Serving(v.log, key, d) {
      var d :| Owns(w, key, d) && Serving(w.log, key, d);
      assert Owns(v, key, d);
    }
  }

  lemma ArriveKeeps(w: World, key: Key)
    requires Consistent(w)
    ensures Consistent(Next(w, Arrive(key)))
  {
    var v := Next(w, Arrive(key));
    CountedStep(w, Arrive(key));
    forall d | 0 <= d < |v.conns| && Serving(v.log, v.conns[d].key, d) ensures Owns(v, v.conns[d].key, d) {
      assert d < |w.conns| by {
        var i :| 0 <= i < |w.log| && w.log[i] == Admitted(d);
        assert w.log[i] in w.log;
      }
      assert v.conns[d] == w.conns[d];
      assert Owns(w, w.conns[d].key, d);
    }
    forall k | k in v.registry.active ensures exists d :: Owns(v, k, d) && Serving(v.log, k, d) {
      var d :| Owns(w, k, d) && Serving(w.log, k, d);
      assert Owns(v, k, d);
    }
  }

  lemma AdmitKeepsServing(w: World, c: nat, d: nat)
    requires Consistent(w) && c < |w.conns| && w.conns[c].phase.Numbered? && w.conns[c].key !in w.registry.active
    requires d < |w.conns| && Serving(Next(w, TryAdmit(c)).log, w.conns[d].key, d)
    ensures Owns(Next(w, TryAdmit(c)), w.conns[d].key, d)
  {
    ServingAfter(w.log, Admitted(c), w.conns[d].key, d);
    if d != c {
      assert Owns(w, w.conns[d].key, d);
    }
  }

  lemma AdmitKeepsEntry(w: World, c: nat, key: Key) returns (d: nat)
    requires Consistent(w) && c < |w.conns| && w.conns[c].phase.Numbered? && w.conns[c].key !in w.registry.active
    requires key in Next(w, TryAdmit(c)).registry.active
    ensures Owns(Next(w, TryAdmit(c)), key, d) && Serving(Next(w, TryAdmit(c)).log, key, d)
  {
    if key == w.conns[c].key {
      d := c;
    } else {
      d :| Owns(w, key, d) && Serving(w.log, key, d);
    }
    ServingAfter(w.log, Admitted(c), key, d);
  }

  lemma AdmitKeeps(w: World, c: nat)
    requires Consistent(w) && c < |w.conns| && w.conns[c].phase.Numbered? && w.conns[c].key !in w.registry.active
    ensures Consistent(Next(w, TryAdmit(c)))
  {
    var v := Next(w, TryAdmit(c));
    CountedStep(w, TryAdmit(c));
    forall d | 0 <= d < |v.conns| && Serving(v.log, v.conns[d].key, d) ensures Owns(v, v.conns[d].key, d) {
      AdmitKeepsServing(w, c, d);
    }
    forall k | k in v.registry.active ensures exists d :: Owns(v, k, d) && Serving(v.log, k, d) {
      var d := AdmitKeepsEntry(w, c, k);
    }
  }

  lemma FinishKeepsServing(w: World, c: nat, d: nat)
    requires Consistent(w) && w.issued <= U64_LIMIT && c < |w.conns| && w.conns[c].phase.Open?
    requires d < |w.conns| && Serving(Next(w, Finish(c)).log, w.conns[d].key, d)
    ensures d != c && Owns(Next(w, Finish(c)), w.conns[d].key, d)
  {
    ServingAfter(w.log, Finished(c), w.conns[d].key, d);
    assert Owns(w, w.conns[d].key, d);
    if w.conns[d].phase.id == w.conns[c].phase.id {
      SameNumberSameConn(w, c, d);
    }
  }

  lemma FinishKeepsEntry(w: World, c: nat, key: Key) returns (d: nat)
    requires Consistent(w) && c < |w.conns| && w.conns[c].phase.Open?
    requires key in Next(w, Finish(c)).registry.active
    ensures Owns(Next(w, Finish(c)), key, d) && Serving(Next(w, Finish(c)).log, key, d)
  {
    d :| Owns(w, key, d) && Serving(w.log, key, d);
    assert d != c;
    ServingAfter(w.log, Finished(c), key, d);
  }

  lemma FinishKeeps(w: World, c: nat)
    requires Consistent(w) && w.issued <= U64_LIMIT && c < |w.conns| && w.conns[c].phase.Open?
    ensures Consistent(Next(w, Finish(c)))
  {
    var v := Next(w, Finish(c));
    CountedStep(w, Finish(c));
    forall d | 0 <= d < |v.conns| && Serving(v.log, v.conns[d].key, d) ensures Owns(v, v.conns[d].key, d) {
      FinishKeepsServing(w, c, d);
    }
    forall k | k in v.registry.active ensures exists d :: Owns(v, k, d) && Serving(v.log, k, d) {
      var d := FinishKeepsEntry(w, c, k);
    }
  }

  lemma RevokeKeeps(w: World, key: Key)
    requires Consistent(w)
    ensures Consistent(Next(w, Revoke(key)))
  {
    var v := Next(w, Revoke(key));
    CountedStep(w, Revoke(key));
    forall d | 0 <= d < |v.conns| && Serving(v.log, v.conns[d].key, d) ensures Owns(v, v.conns[d].key, d) {
      ServingAfter(w.log, Revoked(key), v.conns[d].key, d);
      assert Owns(w, w.conns[d].key, d);
    }
    forall k | k in v.registry.active ensures exists d :: Owns(v, k, d) && Serving(v.log, k, d) {
      var d :| Owns(w, k, d) && Serving(w.log, k, d);
      ServingAfter(w.log, Revoked(key), k, d);
      assert Owns(v, k, d);
    }
  }

  lemma QuietKeeps(w: World, a: Action)
    requires Consistent(w)
    requires a.Validate? || a.TakeId? || (a.TryAdmit? && a.conn < |w.conns| && w.conns[a.conn].key in w.registry.active)
    ensures Consistent(Next(w, a))
  {
    CountedStep(w, a);
    if Next(w, a) != w {
      QuietStep(w, Next(w, a), a.conn);
    }
  }

  lemma StepKeeps(w: World, a: Action)
    requires Consistent(w) && w.issued <= U64_LIMIT
    ensures Consistent(Next(w, a))
  {
    match a {
      case Arrive(key) => ArriveKeeps(w, key);
      case Validate(c, ok) => QuietKeeps(w, a);
      case TakeId(c) => QuietKeeps(w, a);
      case TryAdmit(c) =>
        if c < |w.conns| && w.conns[c].phase.Numbered? {
          if w.conns[c].key in w.registry.active {
            QuietKeeps(w, a);
          } else {
            AdmitKeeps(w, c);
          }
        }
      case Finish(c) => if c < |w.conns| && w.conns[c].phase.Open? { FinishKeeps(w, c); }
      case Revoke(key) => RevokeKeeps(w, key);
    }
  }

  lemma {:induction false} RunsAreConsistent(actions: seq<Action>)
    requires Run(actions).issued <= U64_LIMIT
    ensures Consistent(Run(actions))
  {
    if actions != [] {
      var prefix, last := actions[..|actions| - 1], actions[|actions| - 1];
      RunsAreCounted(prefix);
      CountedStep(Run(prefix), last);
      RunsAreConsistent(prefix);
      StepKeeps(Run(prefix), last);
    }
  }

  /** `c` is a session of `key` that was admitted and neither finished nor revoked since. */
  ghost predicate Serves(w: World, key: Key, c: nat) {
    c < |w.conns| && w.conns[c].key == key && Serving(w.log, key, c)
  }

  ghost predicate ServesAs(w: World, key: Key, c: nat, id: u64) {
    Serves(w, key, c) && w.conns[c].phase.Open? && w.conns[c].phase.id == id
  }

  /** In every interleaving that hands out at most 2^64 numbers, the map holds `id` for `key`
      exactly when `id` is the number of the session of `key` that was admitted and has neither
      finished nor been revoked since. */
  lemma RegistryIsExact(actions: seq<Action>, key: Key, id: u64)
    requires Run(actions).issued <= U64_LIMIT
    ensures (key in Run(actions).registry.active && Run(actions).registry.active[key] == id)
       <==> exists c :: ServesAs(Run(actions), key, c, id)
  {
    RunsAreConsistent(actions);
    var w := Run(actions);
    if key in w.registry.active && w.registry.active[key] == id {
      var c :| Owns(w, key, c) && Serving(w.log, key, c);
      assert ServesAs(w, key, c, id);
    }
    if c :| ServesAs(w, key, c, id) {
      assert Owns(w, key, c);
    }
  }

  /** Two sessions that both serve never share a key. */
  lemma OneSessionPerKey(actions: seq<Action>, c: nat, d: nat)
    requires Run(actions).issued <= U64_LIMIT
    requires var w := Run(actions);
             && c < |w.conns| && d < |w.conns| && w.conns[c].key == w.conns[d].key
             && Serving(w.log, w.conns[c].key, c) && Serving(w.log, w.conns[d].key, d)
    ensures c == d
  {
    RunsAreConsistent(actions);
    var w := Run(actions);
    assert Owns(w, w.conns[c].key, c) && Owns(w, w.conns[d].key, d);
    SameNumberSameConn(w, c, d);
  }

  lemma OwnEntryIff(w: World, c: nat)
    requires Consistent(w) && w.issued <= U64_LIMIT && c < |w.conns| && w.conns[c].phase.Open?
    ensures Owns(w, w.conns[c].key, c) <==> Serving(w.log, w.conns[c].key, c)
  {
    var key := w.conns[c].key;
    if Owns(w, key, c) {
      var d :| Owns(w, key, d) && Serving(w.log, key, d);
      SameNumberSameConn(w, c, d);
    }
  }

  lemma FinishStep(w: World, c: nat)
    requires c < |w.conns| && w.conns[c].phase.Open?
    ensures Next(w, Finish(c)).registry.active
         == if Owns(w, w.conns[c].key, c) then w.registry.active - {w.conns[c].key} else w.registry.active
  {
  }

  /** A finishing session takes its key out of the map exactly when it was still serving; the entry
      of a successor, and every other entry, stays. */
  lemma FinishSparesOthers(actions: seq<Action>, c: nat, w: World)
    requires w == Run(actions) && w.issued <= U64_LIMIT
    requires c < |w.conns| && w.conns[c].phase.Open?
    ensures c < |Next(w, Finish(c)).conns| && Next(w, Finish(c)).conns[c].phase.Closed?
    ensures Next(w, Finish(c)).registry.active
         == if Serving(w.log, w.conns[c].key, c) then w.registry.active - {w.conns[c].key} else w.registry.active
  {
    RunsAreConsistent(actions);
    OwnEntryIff(w, c);
    FinishStep(w, c);
  }

  lemma KeyTakenIff(w: World, key: Key)
    requires Consistent(w)
    ensures key in w.registry.active <==> exists d :: Serves(w, key, d)
  {
    if key in w.registry.active {
      var d :| Owns(w, key, d) && Serving(w.log, key, d);
      assert Serves(w, key, d);
    }
    if d :| Serves(w, key, d) {
      assert Owns(w, key, d);
    }
  }

  lemma AdmitStep(w: World, c: nat)
    requires c < |w.conns| && w.conns[c].phase.Numbered?
    ensures |Next(w, TryAdmit(c)).conns| == |w.conns|
    ensures Next(w, TryAdmit(c)).conns[c].phase.Open? <==> w.conns[c].key !in w.registry.active
    ensures Next(w, TryAdmit(c)).conns[c].phase.Conflict? <==> w.conns[c].key in w.registry.active
  {
  }

  /** An admission attempt succeeds exactly when no session of its key is serving, and is refused
      otherwise. */
  lemma AdmissionIff(actions: seq<Action>, c: nat, w: World)
    requires w == Run(actions) && w.issued <= U64_LIMIT
    requires c < |w.conns| && w.conns[c].phase.Numbered?
    ensures |Next(w, TryAdmit(c)).conns| == |w.conns|
    ensures Next(w, TryAdmit(c)).conns[c].phase.Open? <==> !exists d :: Serves(w, w.conns[c].key, d)
    ensures Next(w, TryAdmit(c)).conns[c].phase.Conflict? <==> exists d :: Serves(w, w.conns[c].key, d)
  {
    RunsAreConsistent(actions);
    AdmitStep(w, c);
    KeyTakenIff(w, w.conns[c].key);
  }

  /** Turned away, refused, or finished. */
  predicate Over(p: Phase) {
    p.Forbidden? || p.Conflict? || p.Closed?
  }

  lemma OverStaysStep(w: World, a: Action, c: nat)
    requires c < |w.conns| && Over(w.conns[c].phase)
    ensures c < |Next(w, a).conns| && Next(w, a).conns[c] == w.conns[c]
  {
  }

  lemma {:induction false} OverStays(actions: seq<Action>, more: seq<Action>, c: nat)
    requires c < |Run(actions).conns| && Over(Run(actions).conns[c].phase)
    ensures c < |Run(actions + more).conns| && Run(actions + more).conns[c] == Run(actions).conns[c]
    decreases |more|
  {
    if more == [] {
      assert actions + [] == actions;
    } else {
      var most := more[..|more| - 1];
      assert (actions + more)[..|actions + more| - 1] == actions + most;
      OverStays(actions, most, c);
      OverStaysStep(Run(actions + most), more[|more| - 1], c);
    }
  }

  lemma ServingIsOpen(w: World, c: nat)
    requires Consistent(w) && c < |w.conns| && Serving(w.log, w.conns[c].key, c)
    ensures w.conns[c].phase.Open?
  {
    assert Owns(w, w.conns[c].key, c);
  }

  /** An attempt that was turned away or refused, or whose session has finished, stays as it is and never
      serves again. */
  lemma OverForGood(actions: seq<Action>, more: seq<Action>, c: nat, key: Key)
    requires c < |Run(actions).conns| && Over(Run(actions).conns[c].phase) && Run(actions).conns[c].key == key
    requires Run(actions + more).issued <= U64_LIMIT
    ensures c < |Run(actions + more).conns| && Run(actions + more).conns[c] == Run(actions).conns[c]
    ensures !Serving(Run(actions + more).log, key, c)
  {
    OverStays(actions, more, c);
    RunsAreConsistent(actions + more);
    if Serving(Run(actions + more).log, key, c) {
      ServingIsOpen(Run(actions + more), c);
    }
  }
}
