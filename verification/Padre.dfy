/** Requests multiplexed over one socket: numbered requests, a table of waiting callers, and a reader
    loop that hands each reply to the caller registered under its number. */
module Padre {
  import opened Common

  datatype History = History(totalCount: u64, migratedCount: u64)

  /** A binary message: too short, not a message-pack array, or an array whose second element may be
      a number and whose fourth may be a history. */
  datatype Frame =
    | Heartbeat
    | Garbage
    | Array(length: nat, number: Option<u64>, body: Option<History>)
  {
    /** The request number the reader looks up, if it gets that far. */
    function ReplyTo(): Option<u32> {
      if Array? && length >= 4 && number.Some? then Some(number.value % U32_LIMIT) else None
    }
  }

  const FIRST_NUMBER: u32 := 1000

  datatype Table = Table(pending: map<u32, nat>, next: u32)

  function CountUp(t: Table): Table {
    t.(next := (t.next + 1) % U32_LIMIT)
  }

  function Enlist(t: Table, number: u32, caller: nat): Table {
    t.(pending := t.pending[number := caller])
  }

  function Resolve(t: Table, f: Frame): Table {
    if f.ReplyTo().Some? then t.(pending := t.pending - {f.ReplyTo().value}) else t
  }

  function CallerOf(t: Table, f: Frame): Option<nat> {
    var n := f.ReplyTo();
    if n.Some? && n.value in t.pending then Some(t.pending[n.value]) else None
  }

  /** The client's shared table; callers are named by the order in which they took their numbers. */
  class PadreClient {
    var pendingRequests: map<u32, nat>
    var nextSeq: u32

    constructor ()
      ensures State() == Table(map[], FIRST_NUMBER)
    {
      pendingRequests := map[];
      nextSeq := FIRST_NUMBER;
    }

    function State(): Table
      reads this
    {
      Table(pendingRequests, nextSeq)
    }

    /** The start of `get_dev_history`, an atomic fetch-and-add. */
    method TakeNumber() returns (number: u32)
      modifies this
      ensures number == old(nextSeq)
      ensures State() == CountUp(old(State()))
    {
      number := nextSeq;
      nextSeq := (nextSeq + 1) % U32_LIMIT;
    }

    /** Its second step; other callers may come in between. Inserting under a used number drops the
        sender there. */
    method Register(number: u32, caller: nat) returns (dropped: Option<nat>)
      modifies this
      ensures dropped == if number in old(pendingRequests) then Some(old(pendingRequests)[number]) else None
      ensures State() == Enlist(old(State()), number, caller)
    {
      dropped := if number in pendingRequests then Some(pendingRequests[number]) else None;
      pendingRequests := pendingRequests[number := caller];
    }

    /** One turn of the reader loop: who is taken off the table, and what is sent to them. */
    method OnFrame(f: Frame) returns (caller: Option<nat>, answer: Option<History>)
      modifies this
      ensures caller == CallerOf(old(State()), f)
      ensures answer == if caller.Some? then f.body else None
      ensures State() == Resolve(old(State()), f)
    {
      caller, answer := None, None;
      if f.Array? && f.length >= 4 && f.number.Some? {
        var number := f.number.value % U32_LIMIT;
        if number in pendingRequests {
          caller, answer := Some(pendingRequests[number]), f.body;
        }
        pendingRequests := pendingRequests - {number};
      }
    }
  }

  // ---------- Runs ----------

  datatype Status = Numbered | Waiting | Lost | Done(history: History)

  datatype Entry = Asked(req: nat) | Received(frame: Frame) | Expired(req: nat)

  /** `reqs` has the outcome of each request so far; `matched` counts replies that found their
      request, `displaced` requests pushed off the table by another with the same number. */
  datatype World = World(table: Table, reqs: seq<Status>, matched: nat, displaced: nat, log: seq<Entry>)

  /** The atomic steps. `GiveUp` is the time limit, or a message that could not be handed to the writer;
      one that falls between the removal of a caller and its answer is the same as one before both. */
  datatype Action = Take | Ask(req: nat) | Receive(frame: Frame) | GiveUp(req: nat) | Reconnect

  const START := World(Table(map[], FIRST_NUMBER), [], 0, 0, [])

  function NumberOf(req: nat): u32 {
    (FIRST_NUMBER + req) % U32_LIMIT
  }

  /** A waiting caller whose channel closes or fires gets this outcome; others keep theirs. */
  function Settle(reqs: seq<Status>, r: nat, s: Status): (settled: seq<Status>)
    ensures |settled| == |reqs|
  {
    if r < |reqs| && reqs[r].Waiting? then reqs[r := s] else reqs
  }

  function Next(w: World, a: Action): World {
    match a
    case Take => w.(table := CountUp(w.table), reqs := w.reqs + [Numbered])
    case Ask(r) =>
      if r < |w.reqs| && w.reqs[r].Numbered? then
        var taken := NumberOf(r) in w.table.pending;
        var others := if taken then Settle(w.reqs, w.table.pending[NumberOf(r)], Lost) else w.reqs;
        World(Enlist(w.table, NumberOf(r), r),
              others[r := Waiting],
              w.matched,
              w.displaced + (if taken then 1 else 0),
              w.log + [Asked(r)])
      else w
    case Receive(f) =>
      if f.ReplyTo() == None then w.(log := w.log + [Received(f)])
      else
        var caller := CallerOf(w.table, f);
        var outcome := match f.body case Some(h) => Done(h) case None => Lost;
        World(Resolve(w.table, f),
              if caller.Some? then Settle(w.reqs, caller.value, outcome) else w.reqs,
              w.matched + (if caller.Some? then 1 else 0),
              w.displaced,
              w.log + [Received(f)])
    case GiveUp(r) => w.(reqs := Settle(w.reqs, r, Lost), log := w.log + [Expired(r)])
    case Reconnect => w
  }

  function Run(actions: seq<Action>): World {
    if actions == [] then START
    else Next(Run(actions[..|actions| - 1]), actions[|actions| - 1])
  }

  // ---------- What the log says about a request ----------

  /** The frame answers request `r`, by the number it carries. */
  predicate Answers(f: Frame, r: nat) {
    f.Array? && f.length >= 4 && f.number.Some? && f.number.value % 0x1_0000_0000 == (1000 + r) % 0x1_0000_0000
  }

  /** Ends the wait of `r`: its own time limit, any frame that answers it, or another request that takes
      over its number. */
  predicate Ends(e: Entry, r: nat) {
    match e
    case Asked(q) => q != r && NumberOf(q) == NumberOf(r)
    case Received(f) => Answers(f, r)
    case Expired(q) => q == r
  }

  ghost predicate Awaits(log: seq<Entry>, r: nat) {
    exists i :: 0 <= i < |log| && log[i] == Asked(r) && forall j :: i < j < |log| ==> !Ends(log[j], r)
  }

  /** The entry is a frame that answers `r` and carries `h`. */
  predicate Hands(e: Entry, r: nat, h: History) {
    e.Received? && Answers(e.frame, r) && e.frame.body == Some(h)
  }

  /** The first thing to end the wait of `r` was a frame with its number that carried `h`. */
  ghost predicate Delivered(log: seq<Entry>, r: nat, h: History) {
    exists j :: 0 <= j < |log| && Hands(log[j], r, h) && Awaits(log[..j], r)
  }

  lemma AwaitsAfter(log: seq<Entry>, e: Entry, r: nat)
    ensures Awaits(log + [e], r) <==> e == Asked(r) || (Awaits(log, r) && !Ends(e, r))
  {
    var more := log + [e];
    assert more[|log|] == e;
    if Awaits(log, r) && !Ends(e, r) {
      var i :| 0 <= i < |log| && log[i] == Asked(r) && forall j :: i < j < |log| ==> !Ends(log[j], r);
      assert more[i] == Asked(r);
      forall j | i < j < |more| ensures !Ends(more[j], r) {
        if j < |log| { assert more[j] == log[j]; }
      }
    } else if Awaits(more, r) && e != Asked(r) {
      var i :| 0 <= i < |more| && more[i] == Asked(r) && forall j :: i < j < |more| ==> !Ends(more[j], r);
      assert log[i] == Asked(r);
      forall j | i < j < |log| ensures !Ends(log[j], r) {
        assert more[j] == log[j];
      }
    }
  }

  lemma DeliveredAfter(log: seq<Entry>, e: Entry, r: nat, h: History)
    ensures Delivered(log + [e], r, h)
       <==> Delivered(log, r, h) || (Hands(e, r, h) && Awaits(log, r))
  {
    var more := log + [e];
    assert more[..|log|] == log && more[|log|] == e;
    if Delivered(log, r, h) {
      var j :| 0 <= j < |log| && Hands(log[j], r, h) && Awaits(log[..j], r);
      assert more[j] == log[j] && more[..j] == log[..j];
    }
    if Delivered(more, r, h) {
      var j :| 0 <= j < |more| && Hands(more[j], r, h) && Awaits(more[..j], r);
      if j < |log| {
        assert log[j] == more[j] && log[..j] == more[..j];
      }
    }
  }

  // ---------- Invariant ----------

  /** The table's numbers, and who still waits. */
  ghost predicate Sound(w: World) {
    && w.table.next == NumberOf(|w.reqs|)
    && (forall n | n in w.table.pending ::
          && w.table.pending[n] < |w.reqs|
          && NumberOf(w.table.pending[n]) == n
          && !w.reqs[w.table.pending[n]].Numbered?)
    && (forall r | 0 <= r < |w.reqs| && w.reqs[r].Waiting? ::
          NumberOf(r) in w.table.pending && w.table.pending[NumberOf(r)] == r)
  }

  function StatusOf(reqs: seq<Status>, r: nat): Option<Status> {
    if r < |reqs| then Some(reqs[r]) else None
  }

  /** The status is the one the log tells. */
  ghost predicate Told(log: seq<Entry>, s: Option<Status>, r: nat) {
    && (Awaits(log, r) <==> s == Some(Waiting))
    && (forall h :: Delivered(log, r, h) <==> s == Some(Done(h)))
  }

  /** How one log entry moves the status of `r`. */
  function After(s: Option<Status>, e: Entry, r: nat): Option<Status> {
    if e == Asked(r) then Some(Waiting)
    else if s == Some(Waiting) && Ends(e, r) then
      Some(if e.Received? && e.frame.body.Some? then Done(e.frame.body.value) else Lost)
    else s
  }

  lemma ToldAfter(log: seq<Entry>, s: Option<Status>, e: Entry, r: nat)
    requires Told(log, s, r)
    requires e == Asked(r) ==> s == Some(Numbered)
    ensures Told(log + [e], After(s, e, r), r)
  {
    AwaitsAfter(log, e, r);
    forall h ensures Delivered(log + [e], r, h) <==> After(s, e, r) == Some(Done(h)) {
      DeliveredAfter(log, e, r, h);
    }
  }

  lemma NextNumber(r: nat)
    ensures (NumberOf(r) + 1) % U32_LIMIT == NumberOf(r + 1)
  {
  }

  lemma AskIsSound(w: World, r: nat)
    requires Sound(w)
    ensures Sound(Next(w, Ask(r)))
  {
  }

  lemma SoundStep(w: World, a: Action)
    requires Sound(w)
    ensures Sound(Next(w, a))
  {
    NextNumber(|w.reqs|);
    if a.Ask? { AskIsSound(w, a.req); }
  }

  lemma ToldStep(w: World, a: Action, r: nat)
    requires Sound(w) && Told(w.log, StatusOf(w.reqs, r), r)
    ensures Told(Next(w, a).log, StatusOf(Next(w, a).reqs, r), r)
  {
    var v, s := Next(w, a), StatusOf(w.reqs, r);
    match a {
      case Take =>
      case Ask(q) =>
        if q < |w.reqs| && w.reqs[q].Numbered? {
          ToldAfter(w.log, s, Asked(q), r);
          assert StatusOf(v.reqs, r) == After(s, Asked(q), r);
        }
      case Receive(f) =>
        ToldAfter(w.log, s, Received(f), r);
        assert StatusOf(v.reqs, r) == After(s, Received(f), r);
      case GiveUp(q) =>
        ToldAfter(w.log, s, Expired(q), r);
        assert StatusOf(v.reqs, r) == After(s, Expired(q), r);
      case Reconnect =>
    }
  }

  lemma {:induction false} RunsAreSound(actions: seq<Action>)
    ensures Sound(Run(actions))
  {
    if actions != [] {
      RunsAreSound(actions[..|actions| - 1]);
      SoundStep(Run(actions[..|actions| - 1]), actions[|actions| - 1]);
    }
  }

  lemma {:induction false} RunsAreTold(actions: seq<Action>, r: nat)
    ensures Told(Run(actions).log, StatusOf(Run(actions).reqs, r), r)
  {
    if actions != [] {
      var prefix := actions[..|actions| - 1];
      RunsAreSound(prefix);
      RunsAreTold(prefix, r);
      ToldStep(Run(prefix), actions[|actions| - 1], r);
    }
  }

  // ---------- One request at a time ----------

  /** `other`, entering the table, comes in under the number of `r`. */
  predicate LosesNumber(other: nat, r: nat) {
    other != r && (other - r) % 0x1_0000_0000 == 0
  }

  /** The shared table, number by number, does to each request what its own story says: it waits from when
      it is entered until it is answered, gives up, or another request comes in under its number. */
  lemma StatusStep(w: World, a: Action, r: nat)
    requires Sound(w) && r < |w.reqs|
    ensures r < |Next(w, a).reqs|
    ensures Next(w, a).reqs[r]
         == match w.reqs[r]
            case Numbered => if a == Ask(r) then Waiting else Numbered
            case Waiting =>
              if a.Receive? && Answers(a.frame, r) then
                (if a.frame.body.Some? then Done(a.frame.body.value) else Lost)
              else if a == GiveUp(r) then Lost
              else if a.Ask? && a.req < |w.reqs| && w.reqs[a.req].Numbered? && LosesNumber(a.req, r) then Lost
              else Waiting
            case Lost => Lost
            case Done(h) => Done(h)
  {
    if a.Ask? && a.req < |w.reqs| {
      SameNumberIff(a.req, r);
    }
  }

  lemma SameRemainder(p: nat, q: nat)
    ensures p % U32_LIMIT == q % U32_LIMIT <==> (p - q) % U32_LIMIT == 0
  {
    var a, b := p / U32_LIMIT, q / U32_LIMIT;
    assert p - q == (a - b) * U32_LIMIT + (p % U32_LIMIT - q % U32_LIMIT);
  }

  lemma SameNumberIff(q: nat, r: nat)
    ensures NumberOf(q) == NumberOf(r) <==> (q - r) % U32_LIMIT == 0
  {
    SameRemainder(FIRST_NUMBER + q, FIRST_NUMBER + r);
  }

  /** A request starts out with a number and nothing else. */
  lemma TakeStep(w: World)
    ensures Next(w, Take).reqs == w.reqs + [Numbered]
  {
  }

  // ---------- Theorems ----------

  /** In every run, through any number of timeouts, late or unknown replies, reconnects and
      wrap-arounds of the counter, a caller has the history `h` exactly when the first thing to end
      its wait was a frame with its own number that carried `h`. */
  lemma HistoryIffDelivered(actions: seq<Action>, r: nat, h: History)
    ensures r < |Run(actions).reqs| && Run(actions).reqs[r] == Done(h) <==> Delivered(Run(actions).log, r, h)
  {
    RunsAreTold(actions, r);
  }

  /** Hence no caller is ever handed two different histories. */
  lemma AtMostOneHistory(actions: seq<Action>, r: nat, h: History, h': History)
    requires Delivered(Run(actions).log, r, h) && Delivered(Run(actions).log, r, h')
    ensures h == h'
  {
    RunsAreTold(actions, r);
  }

  predicate Settled(s: Status) {
    s.Lost? || s.Done?
  }

  lemma SettledStep(w: World, a: Action, r: nat)
    requires r < |w.reqs| && Settled(w.reqs[r])
    ensures r < |Next(w, a).reqs| && Next(w, a).reqs[r] == w.reqs[r]
  {
  }

  /** An outcome is final: whatever happens afterwards leaves it as it is. */
  lemma {:induction false} OutcomeIsFinal(actions: seq<Action>, more: seq<Action>, r: nat)
    requires r < |Run(actions).reqs| && Settled(Run(actions).reqs[r])
    ensures r < |Run(actions + more).reqs| && Run(actions + more).reqs[r] == Run(actions).reqs[r]
    decreases |more|
  {
    if more == [] {
      assert actions + [] == actions;
    } else {
      var most := more[..|more| - 1];
      assert (actions + more)[..|actions + more| - 1] == actions + most;
      OutcomeIsFinal(actions, most, r);
      SettledStep(Run(actions + most), more[|more| - 1], r);
    }
  }

  lemma RemoveOne(m: map<u32, nat>, n: u32)
    requires n in m
    ensures |m - {n}| == |m| - 1
  {
    assert (m - {n}).Keys == m.Keys - {n};
  }

  lemma AddOne(m: map<u32, nat>, n: u32, r: nat)
    ensures |m[n := r]| == |m| + (if n in m then 0 else 1)
  {
    assert m[n := r].Keys == m.Keys + {n};
  }

  /** The requests that have entered the table. */
  function Enlisted(reqs: seq<Status>): set<nat> {
    set r | 0 <= r < |reqs| && !reqs[r].Numbered?
  }

  lemma SettleEnlistsNone(reqs: seq<Status>, q: nat, s: Status)
    requires !s.Numbered?
    ensures Enlisted(Settle(reqs, q, s)) == Enlisted(reqs)
  {
  }

  lemma AskConserves(w: World, r: nat)
    requires |Enlisted(w.reqs)| == |w.table.pending| + w.matched + w.displaced
    ensures var v := Next(w, Ask(r)); |Enlisted(v.reqs)| == |v.table.pending| + v.matched + v.displaced
  {
    if r < |w.reqs| && w.reqs[r].Numbered? {
      AddOne(w.table.pending, NumberOf(r), r);
      assert Enlisted(Next(w, Ask(r)).reqs) == Enlisted(w.reqs) + {r};
    }
  }

  lemma ReceiveConserves(w: World, f: Frame)
    requires |Enlisted(w.reqs)| == |w.table.pending| + w.matched + w.displaced
    ensures var v := Next(w, Receive(f)); |Enlisted(v.reqs)| == |v.table.pending| + v.matched + v.displaced
  {
    if f.ReplyTo().Some? {
      var n := f.ReplyTo().value;
      if n in w.table.pending {
        RemoveOne(w.table.pending, n);
        SettleEnlistsNone(w.reqs, w.table.pending[n], match f.body case Some(h) => Done(h) case None => Lost);
      } else {
        assert w.table.pending - {n} == w.table.pending;
      }
    }
  }

  /** Requests are conserved: each that entered the table is still there, was found by a reply, or was
      pushed off. */
  lemma {:induction false} RequestsConserved(actions: seq<Action>)
    ensures var w := Run(actions); |Enlisted(w.reqs)| == |w.table.pending| + w.matched + w.displaced
  {
    if actions != [] {
      var prefix, a := actions[..|actions| - 1], actions[|actions| - 1];
      RequestsConserved(prefix);
      var w := Run(prefix);
      match a {
        case Take => assert Enlisted(w.reqs + [Numbered]) == Enlisted(w.reqs);
        case Ask(r) => AskConserves(w, r);
        case Receive(f) => ReceiveConserves(w, f);
        case GiveUp(r) => SettleEnlistsNone(w.reqs, r, Lost);
        case Reconnect =>
      }
    }
  }

  lemma NumbersDiffer(q: nat, r: nat)
    requires q < r < q + U32_LIMIT
    ensures NumberOf(q) != NumberOf(r)
  {
  }

  /** In every run the n-th request takes the n-th number, starting with 1000. */
  lemma AskedUnderItsNumber(actions: seq<Action>)
    ensures Run(actions).table.next == (1000 + |Run(actions).reqs|) % 0x1_0000_0000
  {
    RunsAreSound(actions);
  }

  lemma {:induction false} NoneDisplaced(actions: seq<Action>)
    requires |Run(actions).reqs| <= U32_LIMIT
    ensures Run(actions).displaced == 0
  {
    if actions != [] {
      var prefix, a := actions[..|actions| - 1], actions[|actions| - 1];
      NoneDisplaced(prefix);
      RunsAreSound(prefix);
      if a.Ask? && a.req < |Run(prefix).reqs| && Run(prefix).reqs[a.req].Numbered? {
        NumberIsFree(Run(prefix), a.req);
      }
    }
  }

  lemma NumberIsFree(w: World, r: nat)
    requires Sound(w) && r < |w.reqs| <= U32_LIMIT && w.reqs[r].Numbered?
    ensures NumberOf(r) !in w.table.pending
  {
    if NumberOf(r) in w.table.pending {
      var q := w.table.pending[NumberOf(r)];
      if q < r { NumbersDiffer(q, r); } else if r < q { NumbersDiffer(r, q); }
    }
  }

  /** Up to 2^32 requests nothing is pushed off, so requests entered = pending + matched. */
  lemma NothingDisplaced(actions: seq<Action>)
    requires |Run(actions).reqs| <= U32_LIMIT
    ensures Run(actions).displaced == 0
    ensures |Enlisted(Run(actions).reqs)| == |Run(actions).table.pending| + Run(actions).matched
  {
    RequestsConserved(actions);
    NoneDisplaced(actions);
  }
}
