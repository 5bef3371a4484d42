/** Sessions and users together: the user table holds cleaned keys in a column of 32 characters, the
    session registry keys as they were sent. */
module UserSessions {
  import opened Common
  import opened TextOps
  import opened Utf8
  import S = Sessions

  const KEY_WIDTH := 32

  /** A CHAR(32) column hands its text back filled up with blanks; comparisons ignore them. */
  function Padded(s: string): string {
    if |s| >= KEY_WIDTH then s else s + seq(KEY_WIDTH - |s|, _ => ' ')
  }

  datatype State = State(users: set<string>, world: S.World)

  /** `Check` looks the cleaned key up, unless the database is down. `Enroll` takes 32 bytes and stores
      them cleaned. Removing a user is two steps: the stored key leaves the table, then what the column
      hands back for it leaves the registry. */
  datatype Action =
    | Arrive(key: S.Key)
    | Check(conn: nat, up: bool)
    | TakeId(conn: nat)
    | TryAdmit(conn: nat)
    | Finish(conn: nat)
    | Enroll(text: string)
    | Unlist(stored: string)
    | Expel(stored: string)

  predicate Known(s: State, c: nat) {
    c < |s.world.conns| && Clean(s.world.conns[c].key) in s.users
  }

  /** What an action means for the sessions. */
  function Event(s: State, a: Action): Option<S.Action> {
    match a
    case Arrive(key) => Some(S.Arrive(key))
    case Check(c, up) => Some(S.Validate(c, up && Known(s, c)))
    case TakeId(c) => Some(S.TakeId(c))
    case TryAdmit(c) => Some(S.TryAdmit(c))
    case Finish(c) => Some(S.Finish(c))
    case Enroll(_) => None
    case Unlist(_) => None
    case Expel(stored) => Some(S.Revoke(Padded(stored)))
  }

  function UsersAfter(users: set<string>, a: Action): set<string> {
    match a
    case Enroll(text) => if EncodedLength(text) == KEY_WIDTH then users + {Clean(text)} else users
    case Unlist(stored) => users - {stored}
    case _ => users
  }

  function Next(s: State, a: Action): State {
    State(UsersAfter(s.users, a), match Event(s, a) case Some(e) => S.Next(s.world, e) case None => s.world)
  }

  function Run(users: set<string>, actions: seq<Action>): State {
    if actions == [] then State(users, S.START)
    else Next(Run(users, actions[..|actions| - 1]), actions[|actions| - 1])
  }

  lemma RunSnoc(users: set<string>, actions: seq<Action>, a: Action)
    ensures Run(users, actions + [a]) == Next(Run(users, actions), a)
  {
    assert (actions + [a])[..|actions + [a]| - 1] == actions;
  }

  /** The session steps of a run. */
  function Trace(users: set<string>, actions: seq<Action>): seq<S.Action> {
    if actions == [] then []
    else
      var most := actions[..|actions| - 1];
      Trace(users, most)
      + (match Event(Run(users, most), actions[|actions| - 1]) case Some(e) => [e] case None => [])
  }

  /** Every run is an interleaving of session steps, so what holds of those holds here. */
  lemma {:induction false} TraceIsRun(users: set<string>, actions: seq<Action>)
    ensures Run(users, actions).world == S.Run(Trace(users, actions))
  {
    if actions != [] {
      var most := actions[..|actions| - 1];
      TraceIsRun(users, most);
      var e := Event(Run(users, most), actions[|actions| - 1]);
      if e.Some? {
        assert (Trace(users, most) + [e.value])[..|Trace(users, most)|] == Trace(users, most);
      } else {
        assert Trace(users, actions) == Trace(users, most);
      }
    }
  }

  /** A session that gets through: it arrives, is checked, takes its number and is admitted. */
  lemma OpenSession(users: set<string>, actions: seq<Action>, s: State, key: S.Key) returns (more: seq<Action>)
    requires s == Run(users, actions) && Clean(key) in s.users && key !in s.world.registry.active
    ensures var v, id := Run(users, more), s.world.registry.next;
            v == State(s.users, S.World(
              S.Registry(s.world.registry.active[key := id], (id + 1) % U64_LIMIT),
              s.world.conns + [S.Conn(key, S.Open(s.world.issued, id))],
              s.world.issued + 1,
              s.world.log + [S.Admitted(|s.world.conns|)]))
  {
    var c := |s.world.conns|;
    more := actions + [Arrive(key)];
    RunSnoc(users, actions, Arrive(key));
    RunSnoc(users, more, Check(c, true));
    more := more + [Check(c, true)];
    assert Run(users, more).world.conns == s.world.conns + [S.Conn(key, S.Authorized)];
    RunSnoc(users, more, TakeId(c));
    more := more + [TakeId(c)];
    assert Run(users, more).world.conns
        == s.world.conns + [S.Conn(key, S.Numbered(s.world.issued, s.world.registry.next))];
    RunSnoc(users, more, TryAdmit(c));
    more := more + [TryAdmit(c)];
    assert Run(users, more).world.conns
        == s.world.conns + [S.Conn(key, S.Open(s.world.issued, s.world.registry.next))];
  }

  ghost predicate BothServe(users: set<string>, actions: seq<Action>, k: S.Key, l: S.Key, c: nat, d: nat) {
    var w := Run(users, actions).world;
    w.issued <= U64_LIMIT && c != d && S.Serves(w, k, c) && S.Serves(w, l, d)
  }

  lemma BothCanServe(users: set<string>, k: S.Key, l: S.Key) returns (actions: seq<Action>)
    requires Clean(k) in users && Clean(l) in users && k != l
    ensures BothServe(users, actions, k, l, 0, 1)
  {
    var first := OpenSession(users, [], Run(users, []), k);
    var s := Run(users, first);
    actions := OpenSession(users, first, s, l);
    S.ServingAfter([], S.Admitted(0), k, 0);
    S.ServingAfter(s.world.log, S.Admitted(1), k, 0);
    S.ServingAfter(s.world.log, S.Admitted(1), l, 1);
    assert [] + [S.Admitted(0)] == s.world.log;
  }

  /** Two keys of one user serve side by side in some run exactly when they differ as sent. */
  lemma UserSessionsIff(users: set<string>, k: S.Key, l: S.Key)
    requires Clean(k) == Clean(l) && Clean(k) in users
    ensures (exists actions, c, d :: BothServe(users, actions, k, l, c, d)) <==> k != l
  {
    if k == l {
      forall actions, c, d ensures !BothServe(users, actions, k, l, c, d) {
        if BothServe(users, actions, k, l, c, d) {
          TraceIsRun(users, actions);
          S.OneSessionPerKey(Trace(users, actions), c, d);
        }
      }
    } else {
      var actions := BothCanServe(users, k, l);
    }
  }

  /** So where keys are sent clean, each user has at most one session. */
  lemma OneSessionPerUser(users: set<string>, actions: seq<Action>, k: S.Key, l: S.Key, c: nat, d: nat)
    requires Run(users, actions).world.issued <= U64_LIMIT
    requires S.Serves(Run(users, actions).world, k, c) && S.Serves(Run(users, actions).world, l, d)
    requires IsClean(k) && IsClean(l) && Clean(k) == Clean(l)
    ensures c == d
  {
    CleanIsIdempotent(k);
    CleanIsIdempotent(l);
    TraceIsRun(users, actions);
    S.OneSessionPerKey(Trace(users, actions), c, d);
  }

  lemma PaddedIff(key: string)
    requires IsClean(key)
    ensures key == Padded(Clean(key)) <==> |key| >= KEY_WIDTH
  {
    CleanIsIdempotent(key);
  }

  /** Removing a user ends a session of that user exactly when it was opened under the stored text filled
      up to 32 characters; under a clean key, that is, exactly when that has 32 characters. */
  lemma RemovalEndsIff(users: set<string>, actions: seq<Action>, key: S.Key, c: nat, w: S.World)
    requires w == Run(users, actions).world && S.Serves(w, key, c)
    ensures var v := Run(users, actions + [Expel(Clean(key))]).world;
            && (!S.Serves(v, key, c) <==> key == Padded(Clean(key)))
            && (IsClean(key) ==> (!S.Serves(v, key, c) <==> |key| >= KEY_WIDTH))
  {
    RunSnoc(users, actions, Expel(Clean(key)));
    if IsClean(key) { PaddedIff(key); }
    S.ServingAfter(w.log, S.Revoked(Padded(Clean(key))), key, c);
  }

  /** So for a user enrolled with 32 bytes, a session under the clean form of what was enrolled ends with
      the removal exactly if that was clean already and all ASCII. */
  lemma EnrolledEndsIff(users: set<string>, actions: seq<Action>, text: string, c: nat, w: S.World)
    requires w == Run(users, actions).world && S.Serves(w, Clean(text), c)
    requires EncodedLength(text) == KEY_WIDTH
    ensures var v := Run(users, actions + [Expel(Clean(text))]).world;
            !S.Serves(v, Clean(text), c) <==> IsClean(text) && Ascii(text)
  {
    CleanIsIdempotent(text);
    RemovalEndsIff(users, actions, Clean(text), c, w);
    CleanShortens(text);
    EncodedLengthIff(text);
  }

  /** An attempt that has not passed the check. */
  predicate Outside(w: S.World, c: nat) {
    c < |w.conns| ==> w.conns[c].phase.Arrived? || w.conns[c].phase.Forbidden?
  }

  lemma KeysStay(s: State, a: Action, c: nat)
    requires c < |s.world.conns|
    ensures c < |Next(s, a).world.conns| && Next(s, a).world.conns[c].key == s.world.conns[c].key
  {
  }

  lemma OutsideStep(s: State, a: Action, c: nat)
    requires Outside(s.world, c) && !Known(s, c)
    ensures Outside(Next(s, a).world, c)
  {
  }

  /** No one is enrolled under a text that cleans to `stored`. */
  predicate NotEnrolled(actions: seq<Action>, stored: string) {
    forall a | a in actions && a.Enroll? :: Clean(a.text) != stored
  }

  /** Once a user's key has left the table and is not enrolled again, no attempt under any form of that
      key that had not passed the check by then ever gets further. */
  lemma {:induction false} RemovedStayOut(users: set<string>, actions: seq<Action>, more: seq<Action>,
                                          stored: string, c: nat)
    requires stored !in Run(users, actions).users && NotEnrolled(more, stored)
    requires Outside(Run(users, actions).world, c)
    requires var w := Run(users, actions + more).world; c < |w.conns| && Clean(w.conns[c].key) == stored
    ensures stored !in Run(users, actions + more).users
    ensures Outside(Run(users, actions + more).world, c)
    decreases |more|
  {
    if more == [] {
      assert actions + [] == actions;
    } else {
      var most, a := more[..|more| - 1], more[|more| - 1];
      assert actions + more == (actions + most) + [a];
      RunSnoc(users, actions + most, a);
      StaysUnlisted(users, actions, more, stored);
      StaysUnlisted(users, actions, most, stored);
      if c < |Run(users, actions + most).world.conns| {
        KeysStay(Run(users, actions + most), a, c);
        RemovedStayOut(users, actions, most, stored, c);
      }
      OutsideStep(Run(users, actions + most), a, c);
    }
  }

  lemma {:induction false} StaysUnlisted(users: set<string>, actions: seq<Action>, more: seq<Action>, stored: string)
    requires stored !in Run(users, actions).users && NotEnrolled(more, stored)
    ensures stored !in Run(users, actions + more).users
    decreases |more|
  {
    if more == [] {
      assert actions + [] == actions;
    } else {
      var most, a := more[..|more| - 1], more[|more| - 1];
      assert actions + more == (actions + most) + [a];
      RunSnoc(users, actions + most, a);
      StaysUnlisted(users, actions, most, stored);
      assert a in more;
    }
  }

  // ---------- What decides a check ----------

  /** The text has 32 bytes and is stored as `stored`. */
  predicate Enrolls(a: Action, stored: string) {
    a.Enroll? && EncodedLength(a.text) == KEY_WIDTH && Clean(a.text) == stored
  }

  ghost predicate EnrolledAt(actions: seq<Action>, i: nat, stored: string) {
    && i < |actions|
    && Enrolls(actions[i], stored)
    && forall j | i < j < |actions| :: actions[j] != Unlist(stored)
  }

  /** The last of the enrolments and removals of `stored`, if there was one, was an enrolment; if there
      was none, it was in the table from the start. */
  ghost predicate LastlyEnrolled(users: set<string>, actions: seq<Action>, stored: string) {
    (exists i :: EnrolledAt(actions, i, stored)) || (stored in users && Unlist(stored) !in actions)
  }

  lemma LastlyEnrolledAfter(users: set<string>, actions: seq<Action>, a: Action, stored: string)
    ensures LastlyEnrolled(users, actions + [a], stored)
       <==> Enrolls(a, stored) || (LastlyEnrolled(users, actions, stored) && a != Unlist(stored))
  {
    var more := actions + [a];
    assert more[|actions|] == a;
    if Enrolls(a, stored) { assert EnrolledAt(more, |actions|, stored); }
    if i: nat :| EnrolledAt(actions, i, stored) {
      if a != Unlist(stored) { assert EnrolledAt(more, i, stored); }
    }
    if i: nat :| EnrolledAt(more, i, stored) {
      if i < |actions| {
        assert forall j | i < j < |actions| :: more[j] == actions[j];
        assert EnrolledAt(actions, i, stored);
      }
    }
    assert Unlist(stored) in more <==> Unlist(stored) in actions || a == Unlist(stored);
  }

  lemma TableStep(users: set<string>, a: Action, stored: string)
    ensures stored in UsersAfter(users, a) <==> Enrolls(a, stored) || (stored in users && a != Unlist(stored))
  {
  }

  lemma {:induction false} InTableIff(users: set<string>, actions: seq<Action>, stored: string)
    ensures stored in Run(users, actions).users <==> LastlyEnrolled(users, actions, stored)
  {
    if actions != [] {
      var most, a := actions[..|actions| - 1], actions[|actions| - 1];
      InTableIff(users, most, stored);
      assert actions == most + [a];
      LastlyEnrolledAfter(users, most, a, stored);
      TableStep(Run(users, most).users, a, stored);
    }
  }

  /** A waiting attempt passes its check exactly if the database answers and the last thing done to its
      cleaned key was an enrolment; otherwise it is turned away. */
  lemma CheckDecidedByLast(users: set<string>, actions: seq<Action>, c: nat, up: bool, w: S.World)
    requires w == Run(users, actions).world && c < |w.conns| && w.conns[c].phase.Arrived?
    ensures var v := Run(users, actions + [Check(c, up)]).world;
            && c < |v.conns|
            && v.conns[c].phase
               == if up && LastlyEnrolled(users, actions, Clean(w.conns[c].key)) then S.Authorized else S.Forbidden
  {
    InTableIff(users, actions, Clean(w.conns[c].key));
    RunSnoc(users, actions, Check(c, up));
    CheckStep(Run(users, actions), c, up);
  }

  /** Right after a removal a new attempt passes exactly if its cleaned key is another one in the table. */
  lemma RemovalShutsOutIff(users: set<string>, actions: seq<Action>, stored: string, key: S.Key, c: nat)
    requires c == |Run(users, actions).world.conns|
    ensures var v := Run(users, actions + [Unlist(stored), Arrive(key), Check(c, true)]).world;
            && c < |v.conns|
            && (v.conns[c].phase.Authorized? <==> Clean(key) in Run(users, actions).users && Clean(key) != stored)
            && (v.conns[c].phase.Forbidden? <==> !v.conns[c].phase.Authorized?)
  {
    var removed := actions + [Unlist(stored)];
    RunSnoc(users, actions, Unlist(stored));
    RunSnoc(users, removed, Arrive(key));
    assert removed + [Arrive(key)] + [Check(c, true)] == actions + [Unlist(stored), Arrive(key), Check(c, true)];
    RunSnoc(users, removed + [Arrive(key)], Check(c, true));
    CheckStep(Run(users, removed + [Arrive(key)]), c, true);
  }

  lemma CheckStep(s: State, c: nat, up: bool)
    requires c < |s.world.conns| && s.world.conns[c].phase.Arrived?
    ensures var v := Next(s, Check(c, up)).world;
            && c < |v.conns|
            && v.conns[c].phase == if up && Clean(s.world.conns[c].key) in s.users then S.Authorized else S.Forbidden
  {
  }

  // ---------- Removed users that had passed the check ----------

  predicate InFlight(w: S.World, c: nat) {
    c < |w.conns| && (w.conns[c].phase.Authorized? || w.conns[c].phase.Numbered?)
  }

  /** An attempt that has passed the check and is not decided yet, or a session that serves. */
  ghost predicate MayServe(w: S.World, c: nat) {
    c < |w.conns| && (InFlight(w, c) || S.Serving(w.log, w.conns[c].key, c))
  }

  lemma LogStep(w: S.World, e: S.Entry, key: S.Key, c: nat)
    requires !S.Serving(w.log, key, c) && e != S.Admitted(c)
    ensures !S.Serving(w.log + [e], key, c)
  {
    S.ServingAfter(w.log, e, key, c);
  }

  lemma OverStep(s: State, a: Action, c: nat)
    requires c < |s.world.conns| && !MayServe(s.world, c) && !Known(s, c)
    ensures c < |Next(s, a).world.conns| && !MayServe(Next(s, a).world, c)
  {
    var w, v, key := s.world, Next(s, a).world, s.world.conns[c].key;
    KeysStay(s, a, c);
    if |v.log| > |w.log| {
      var e := v.log[|w.log|];
      assert v.log == w.log + [e];
      LogStep(w, e, key, c);
    }
  }

  lemma {:induction false} OverForGood(users: set<string>, actions: seq<Action>, more: seq<Action>,
                                       stored: string, c: nat, w: S.World)
    requires w == Run(users, actions).world && c < |w.conns| && Clean(w.conns[c].key) == stored
    requires stored !in Run(users, actions).users && NotEnrolled(more, stored)
    requires !MayServe(w, c)
    ensures var v := Run(users, actions + more).world;
            c < |v.conns| && v.conns[c].key == w.conns[c].key && !MayServe(v, c)
    decreases |more|
  {
    if more == [] {
      assert actions + [] == actions;
    } else {
      var most, a := more[..|more| - 1], more[|more| - 1];
      assert actions + more == (actions + most) + [a];
      RunSnoc(users, actions + most, a);
      StaysUnlisted(users, actions, most, stored);
      OverForGood(users, actions, most, stored, c, w);
      KeysStay(Run(users, actions + most), a, c);
      OverStep(Run(users, actions + most), a, c);
    }
  }

  /** The steps that decide an attempt in flight. */
  function Deciding(w: S.World, c: nat): seq<Action>
    requires c < |w.conns|
  {
    if w.conns[c].phase.Authorized? then [TakeId(c), TryAdmit(c)] else [TryAdmit(c)]
  }

  lemma AdmittedServes(w: S.World, c: nat)
    requires c < |w.conns| && w.conns[c].phase.Numbered?
    ensures var v := S.Next(w, S.TryAdmit(c));
            c < |v.conns| && (v.conns[c].phase.Open? ==> S.Serves(v, w.conns[c].key, c))
  {
    S.ServingAfter(w.log, S.Admitted(c), w.conns[c].key, c);
  }

  lemma NumberedIsAdmittedIff(users: set<string>, actions: seq<Action>, c: nat, w: S.World)
    requires w == Run(users, actions).world && w.issued <= U64_LIMIT
    requires c < |w.conns| && w.conns[c].phase.Numbered?
    ensures var v := Run(users, actions + [TryAdmit(c)]).world;
            && c < |v.conns|
            && (v.conns[c].phase.Open? <==> !exists d :: S.Serves(w, w.conns[c].key, d))
            && (v.conns[c].phase.Open? ==> S.Serves(v, w.conns[c].key, c))
  {
    TraceIsRun(users, actions);
    RunSnoc(users, actions, TryAdmit(c));
    S.AdmissionIff(Trace(users, actions), c, w);
    AdmittedServes(w, c);
  }

  lemma TakeIdChangesNoService(w: S.World, c: nat, key: S.Key, d: nat)
    requires c < |w.conns|
    ensures S.Serves(S.Next(w, S.TakeId(c)), key, d) <==> S.Serves(w, key, d)
  {
  }

  /** An attempt that has passed the check is admitted exactly if no session of its key as sent serves,
      whether or not its user has been removed meanwhile. */
  lemma InFlightIsAdmittedIff(users: set<string>, actions: seq<Action>, c: nat, w: S.World)
    requires w == Run(users, actions).world && w.issued < U64_LIMIT && InFlight(w, c)
    ensures var v := Run(users, actions + Deciding(w, c)).world;
            && c < |v.conns|
            && (v.conns[c].phase.Open? <==> !exists d :: S.Serves(w, w.conns[c].key, d))
            && (v.conns[c].phase.Open? ==> S.Serves(v, w.conns[c].key, c))
  {
    if w.conns[c].phase.Authorized? {
      var more := actions + [TakeId(c)];
      RunSnoc(users, actions, TakeId(c));
      assert more + [TryAdmit(c)] == actions + Deciding(w, c);
      forall d ensures S.Serves(Run(users, more).world, w.conns[c].key, d) <==> S.Serves(w, w.conns[c].key, d) {
        TakeIdChangesNoService(w, c, w.conns[c].key, d);
      }
      NumberedIsAdmittedIff(users, more, c, Run(users, more).world);
    } else {
      NumberedIsAdmittedIff(users, actions, c, w);
    }
  }

  lemma FinishStep(w: S.World, d: nat, c: nat)
    requires d < |w.conns| && w.conns[d].phase.Open?
    ensures var v := S.Next(w, S.Finish(d));
            v.issued == w.issued && v.log == w.log + [S.Finished(d)]
    ensures c < |w.conns| && c != d ==>
              c < |S.Next(w, S.Finish(d)).conns| && S.Next(w, S.Finish(d)).conns[c] == w.conns[c]
  {
  }

  lemma ServesOpen(trace: seq<S.Action>, w: S.World, key: S.Key, d: nat)
    requires w == S.Run(trace) && w.issued <= U64_LIMIT && S.Serves(w, key, d)
    ensures w.conns[d].phase.Open?
  {
    S.RunsAreConsistent(trace);
    assert S.Owns(w, key, d);
  }

  lemma FinishFrees(trace: seq<S.Action>, w: S.World, d: nat, key: S.Key, c: nat)
    requires w == S.Run(trace) && w.issued <= U64_LIMIT && S.Serves(w, key, d)
    requires c < |w.conns| && c != d
    ensures var v := S.Next(w, S.Finish(d));
            && v.issued == w.issued
            && c < |v.conns| && v.conns[c] == w.conns[c]
            && forall e: nat :: !S.Serves(v, key, e)
  {
    ServesOpen(trace, w, key, d);
    FinishStep(w, d, c);
    forall e: nat ensures !S.Serves(S.Next(w, S.Finish(d)), key, e) {
      NoneServesAfter(trace, w, d, key, e);
    }
  }

  lemma FinishFreesKey(users: set<string>, actions: seq<Action>, d: nat, key: S.Key, w: S.World, c: nat)
    requires w == Run(users, actions).world && w.issued <= U64_LIMIT && S.Serves(w, key, d)
    requires c < |w.conns| && c != d
    ensures var v := Run(users, actions + [Finish(d)]).world;
            && v.issued == w.issued
            && c < |v.conns| && v.conns[c] == w.conns[c]
            && forall e: nat :: !S.Serves(v, key, e)
  {
    TraceIsRun(users, actions);
    RunSnoc(users, actions, Finish(d));
    FinishFrees(Trace(users, actions), w, d, key, c);
  }

  lemma NoneServesAfter(trace: seq<S.Action>, w: S.World, d: nat, key: S.Key, e: nat)
    requires w == S.Run(trace) && w.issued <= U64_LIMIT && S.Serves(w, key, d) && w.conns[d].phase.Open?
    ensures !S.Serves(S.Next(w, S.Finish(d)), key, e)
  {
    var v := S.Next(w, S.Finish(d));
    if S.Serves(v, key, e) {
      FinishStep(w, d, e);
      ServedBefore(w, d, key, e);
      S.ServingAfter(w.log, S.Finished(d), key, e);
      S.OneSessionPerKey(trace, d, e);
    }
  }

  lemma ServedBefore(w: S.World, d: nat, key: S.Key, e: nat)
    requires d < |w.conns| && w.conns[d].phase.Open? && S.Serves(S.Next(w, S.Finish(d)), key, e)
    ensures e < |w.conns| && w.conns[e].key == key
  {
  }

  /** Finishes whoever has the key, then decides the attempt. */
  lemma StillServes(users: set<string>, actions: seq<Action>, stored: string, c: nat, w: S.World)
    returns (more: seq<Action>)
    requires w == Run(users, actions).world && w.issued < U64_LIMIT && MayServe(w, c)
    ensures NotEnrolled(more, stored)
    ensures S.Serves(Run(users, actions + more).world, w.conns[c].key, c)
  {
    var key := w.conns[c].key;
    if S.Serving(w.log, key, c) {
      more := [];
      assert actions + more == actions;
    } else if d :| S.Serves(w, key, d) {
      FinishFreesKey(users, actions, d, key, w, c);
      var freed := actions + [Finish(d)];
      var v := Run(users, freed).world;
      more := [Finish(d)] + Deciding(v, c);
      assert freed + Deciding(v, c) == actions + more;
      InFlightIsAdmittedIff(users, freed, c, v);
    } else {
      more := Deciding(w, c);
      InFlightIsAdmittedIff(users, actions, c, w);
    }
  }

  /** A user who has been removed and is not enrolled again can still have the session `c` at some later
      time exactly if `c` serves now or has passed the check and is not decided. */
  lemma RemovedMayServeIff(users: set<string>, actions: seq<Action>, stored: string, c: nat, w: S.World)
    requires w == Run(users, actions).world && w.issued < U64_LIMIT
    requires stored !in Run(users, actions).users && c < |w.conns| && Clean(w.conns[c].key) == stored
    ensures (exists more :: NotEnrolled(more, stored)
                            && S.Serves(Run(users, actions + more).world, w.conns[c].key, c))
       <==> MayServe(w, c)
  {
    if MayServe(w, c) {
      var more := StillServes(users, actions, stored, c, w);
    } else {
      forall more | NotEnrolled(more, stored)
        ensures !S.Serves(Run(users, actions + more).world, w.conns[c].key, c)
      {
        OverForGood(users, actions, more, stored, c, w);
      }
    }
  }
}
