/**
 The rendezvous (`run` and `handshake` of src/providers.rs, `update` of src/readers.rs,
 `accept_impl` and `wait_event` of src/rdma/verbs.rs): nothing in a connection request names the
 metadata session it belongs to, so the provider pairs the two by order alone.
 */
module Rendezvous {
  import opened Common

  datatype AttemptAt = Waiting | Wanting | Sent | Requested | Connected | Gone

  /** One call of `update` with no channel yet; the flags are what has left its side, or reached it. */
  datatype Attempt = Attempt(
    group: u32, at: AttemptAt, welcomed: bool, wanted: bool, requested: bool, accepted: bool, rejected: bool)

  /** An event of the listener's channel, with the connection it is about. */
  datatype Event = Request(of: nat) | Established(of: nat)

  datatype Service = Idle | Greeting(k: nat) | Welcomed(k: nat) | Joining(k: nat) | Establishing(k: nat, of: nat)

  /** A handshake of attempt `k` that took connection `of` into its group. */
  datatype Match = Match(k: nat, of: nat)

  /** Attempts are served in the order they arrived; the first `taken` have been. */
  datatype State = State(
    attempts: seq<Attempt>, taken: nat, service: Service, events: seq<Event>, matches: seq<Match>,
    completed: seq<Match>)

  const INITIAL: State := State([], 0, Idle, [], [], [])

  datatype Action =
    | Arrive(group: u32) | ReadWelcome(k: nat) | SendWant(k: nat) | SendRequest(k: nat) | Connect(k: nat)
    | GiveUp(k: nat)
    | TakeNext | Greet | Refuse | ReadWant | AcceptEvent | AcceptFails | WaitEvent | WaitFails | Fail

  predicate At(s: State, k: nat, at: AttemptAt) { k < |s.attempts| && s.attempts[k].at == at }

  predicate Can(s: State, a: Action) {
    match a
    case Arrive(_) => true
    case ReadWelcome(k) => At(s, k, Waiting) && s.attempts[k].welcomed
    case SendWant(k) => At(s, k, Wanting)
    case SendRequest(k) => At(s, k, Sent)
    case Connect(k) => At(s, k, Requested) && s.attempts[k].accepted
    case GiveUp(k) => k < |s.attempts| && s.attempts[k].at != Gone
    case TakeNext => s.service == Idle && s.taken < |s.attempts|
    case Greet => s.service.Greeting? && s.service.k < |s.attempts|
    case Refuse => s.service.Greeting?
    case ReadWant => s.service.Welcomed? && s.service.k < |s.attempts| && s.attempts[s.service.k].wanted
    case AcceptEvent => s.service.Joining? && s.events != [] && s.events[0].of < |s.attempts|
    case AcceptFails =>
      s.service.Joining? && s.events != [] && s.events[0].Request? && s.events[0].of < |s.attempts|
    case WaitEvent => s.service.Establishing? && s.events != []
    case WaitFails => s.service.Establishing? && s.service.of < |s.attempts|
    case Fail => s.service.Welcomed? || s.service.Joining? || s.service.Establishing?
  }

  function Put(s: State, k: nat, t: Attempt): (r: State)
    requires k < |s.attempts|
  {
    s.(attempts := s.attempts[k := t])
  }

  function Undelivered(events: seq<Event>, of: nat): (r: seq<Event>) {
    if events == [] then []
    else if events[0].of == of then Undelivered(events[1..], of)
    else [events[0]] + Undelivered(events[1..], of)
  }

  predicate OfReader(a: Action) {
    a.Arrive? || a.ReadWelcome? || a.SendWant? || a.SendRequest? || a.Connect? || a.GiveUp?
  }

  function ReaderAct(s: State, a: Action): (r: State)
    requires Can(s, a) && OfReader(a)
  {
    match a
    case Arrive(group) => s.(attempts := s.attempts + [Attempt(group, Waiting, false, false, false, false, false)])
    case ReadWelcome(k) => Put(s, k, s.attempts[k].(at := Wanting))
    case SendWant(k) => Put(s, k, s.attempts[k].(at := Sent, wanted := true))
    case SendRequest(k) =>
      Put(s, k, s.attempts[k].(at := Requested, requested := true)).(events := s.events + [Request(k)])
    case Connect(k) => Put(s, k, s.attempts[k].(at := Connected)).(events := s.events + [Established(k)])
    case GiveUp(k) => Put(s, k, s.attempts[k].(at := Gone))
  }

  function ServiceAct(s: State, a: Action): (r: State)
    requires Can(s, a) && !OfReader(a)
  {
    match a
    case TakeNext => s.(service := Greeting(s.taken), taken := s.taken + 1)
    case Greet => Put(s, s.service.k, s.attempts[s.service.k].(welcomed := true)).(service := Welcomed(s.service.k))
    case Refuse => s.(service := Idle)
    case ReadWant => s.(service := Joining(s.service.k))
    case AcceptEvent =>
      // The request at the head of the queue is the one accepted, whoever sent it.
      var e := s.events[0];
      if e.Request? then
        Put(s, e.of, s.attempts[e.of].(accepted := true)).(
        events := s.events[1..], service := Establishing(s.service.k, e.of),
        matches := s.matches + [Match(s.service.k, e.of)])
      else s.(events := s.events[1..], service := Idle)
    case AcceptFails =>
      // The request is taken off the queue first; the wrong device, a missing resource or a refused
      // accept then drops the connection it brought.
      var e := s.events[0];
      Put(s, e.of, s.attempts[e.of].(rejected := true)).(events := s.events[1..], service := Idle)
    case WaitEvent =>
      var e := s.events[0];
      s.(events := s.events[1..], service := Idle,
         completed := if e.Established? then s.completed + [Match(s.service.k, e.of)] else s.completed)
    case WaitFails =>
      // The dropped connection takes its undelivered events with it.
      var of := s.service.of;
      Put(s, of, s.attempts[of].(accepted := false, rejected := true)).(
      events := Undelivered(s.events, of), service := Idle)
    case Fail => s.(service := Idle)
  }

  function Do(s: State, a: Action): (r: State)
    requires Can(s, a)
  {
    if OfReader(a) then ReaderAct(s, a) else ServiceAct(s, a)
  }

  /** Welcomed, neither accepted nor rejected, and not gone for good without a request. */
  predicate Outstanding(t: Attempt) { t.welcomed && !t.accepted && !t.rejected && (t.at != Gone || t.requested) }

  /**
   A handshake fails after its Welcome only over the request it has taken (`AcceptFails`), over a
   connection whose events go with it (`WaitFails`), or when its reader is gone and has left nothing
   behind that the listener could still report.
   */
  predicate Orderly(s: State, a: Action) { a.Fail? ==> Harmless(s) }

  predicate Harmless(s: State) {
    && s.service != Idle && At(s, s.service.k, Gone)
    && if s.service.Establishing? then s.events == [] else !s.attempts[s.service.k].requested
  }

  predicate Current(v: Service, k: nat) { (v.Welcomed? || v.Joining?) && v.k == k }

  predicate AttemptFits(s: State, k: nat, t: Attempt) {
    && (t.welcomed ==> k < s.taken && s.service != Greeting(k))
    && (t.accepted ==> t.requested && !t.rejected) && (t.rejected ==> t.requested) && (t.requested ==> t.wanted)
    && (t.wanted ==> t.welcomed)
    && match t.at
       case Waiting => !t.wanted
       case Wanting => t.welcomed && !t.wanted
       case Sent => t.wanted && !t.requested
       case Requested => t.requested
       case Connected => t.accepted || t.rejected
       case Gone => true
  }

  ghost predicate AttemptsFit(s: State) {
    && s.taken <= |s.attempts|
    && (s.service != Idle ==> s.service.k < s.taken)
    && (s.service.Welcomed? ==> s.attempts[s.service.k].welcomed)
    && (s.service.Joining? || s.service.Establishing? ==> s.attempts[s.service.k].wanted)
    && (forall k :: 0 <= k < |s.attempts| ==> AttemptFits(s, k, s.attempts[k]))
  }

  /** Whoever is outstanding is the one being served. */
  ghost predicate OneOutstanding(s: State) {
    forall k :: 0 <= k < |s.attempts| && Outstanding(s.attempts[k]) ==> Current(s.service, k)
  }

  predicate Undecided(t: Attempt) { !t.accepted && !t.rejected }

  /** The queue holds at most the event the service is about to wait for. */
  ghost predicate EventsFit(s: State) {
    match s.service
    case Welcomed(k) => s.events == PendingRequest(s, k) && k < |s.attempts| && Undecided(s.attempts[k])
    case Joining(k) => s.events == PendingRequest(s, k) && k < |s.attempts| && Undecided(s.attempts[k])
    case Establishing(k, of) =>
      of == k && k < |s.attempts| && s.attempts[k].accepted &&
      (if s.attempts[k].at == Requested then s.events == [] else s.events == [] || s.events == [Established(k)]) &&
      (s.attempts[k].at == Connected ==> s.events != [])
    case _ => s.events == []
  }

  function PendingRequest(s: State, k: nat): (r: seq<Event>) {
    if k < |s.attempts| && s.attempts[k].requested then [Request(k)] else []
  }

  /** An accepted connection that could still report itself established is the one waited for. */
  ghost predicate AcceptedFit(s: State) {
    forall k :: 0 <= k < |s.attempts| && s.attempts[k].accepted && s.attempts[k].at == Requested ==>
      s.service == Establishing(k, k)
  }

  ghost predicate MatchesFit(s: State) {
    && (forall i :: 0 <= i < |s.matches| ==> s.matches[i].k == s.matches[i].of)
    && (forall i :: 0 <= i < |s.completed| ==> s.completed[i].k == s.completed[i].of < |s.attempts|)
  }

  ghost predicate Inv(s: State) {
    AttemptsFit(s) && OneOutstanding(s) && EventsFit(s) && AcceptedFit(s) && MatchesFit(s)
  }

  lemma ReaderKeeps(s: State, a: Action)
    requires Inv(s) && Can(s, a) && OfReader(a)
    ensures Inv(ReaderAct(s, a))
  {
    hide ReaderAct;
    if a.SendRequest? { SendRequestKeeps(s, a.k); }
    else if a.Connect? { ConnectKeeps(s, a.k); }
    else { UnheardKeeps(s, a); }
  }

  /** Whoever sends a request is the one being served, who has none queued yet. */
  lemma SendRequestKeeps(s: State, k: nat)
    requires Inv(s) && Can(s, SendRequest(k))
    ensures Inv(ReaderAct(s, SendRequest(k)))
  {
    assert AttemptFits(s, k, s.attempts[k]);
    assert Outstanding(s.attempts[k]) && Current(s.service, k);
  }

  lemma ConnectKeeps(s: State, k: nat)
    requires Inv(s) && Can(s, Connect(k))
    ensures Inv(ReaderAct(s, Connect(k)))
  {
    assert AttemptFits(s, k, s.attempts[k]);
  }

  lemma UnheardKeeps(s: State, a: Action)
    requires Inv(s) && Can(s, a) && (a.Arrive? || a.ReadWelcome? || a.SendWant? || a.GiveUp?)
    ensures Inv(ReaderAct(s, a))
  {}

  lemma ServiceKeeps(s: State, a: Action)
    requires Inv(s) && Can(s, a) && !OfReader(a) && Orderly(s, a)
    ensures Inv(ServiceAct(s, a))
  {
    if a.WaitFails? { OwnEventsGo(s.events, s.service.of); }
  }

  lemma OwnEventsGo(events: seq<Event>, of: nat)
    requires |events| <= 1 && forall e :: e in events ==> e.of == of
    ensures Undelivered(events, of) == []
  {
    if events != [] { assert events[1..] == []; }
  }

  lemma StepKeeps(s: State, a: Action)
    requires Inv(s) && Can(s, a) && Orderly(s, a)
    ensures Inv(Do(s, a))
  {
    hide Inv, Can, Orderly, ReaderAct, ServiceAct;
    if OfReader(a) { ReaderKeeps(s, a); } else { ServiceKeeps(s, a); }
  }

  // ----- Runs -----

  ghost predicate OrderlyRun(states: seq<State>, actions: seq<Action>) {
    && |states| == |actions| + 1 && states[0] == INITIAL
    && forall m :: 0 <= m < |actions| ==>
         Can(states[m], actions[m]) && Orderly(states[m], actions[m]) && states[m + 1] == Do(states[m], actions[m])
  }

  lemma {:induction false} RunKeeps(states: seq<State>, actions: seq<Action>, m: nat)
    requires OrderlyRun(states, actions) && m < |states|
    ensures Inv(states[m])
  {
    hide Inv, Can, Orderly, Do;
    if m == 0 {
      StartFits();
    } else {
      RunKeeps(states, actions, m - 1);
      StepKeeps(states[m - 1], actions[m - 1]);
    }
  }

  lemma StartFits()
    ensures Inv(INITIAL)
  {}

  /** At most one reader is ever welcomed and not yet accepted. */
  lemma AtMostOneWelcomed(states: seq<State>, actions: seq<Action>, m: nat, j: nat, k: nat)
    requires OrderlyRun(states, actions) && m < |states| && j < |states[m].attempts| && k < |states[m].attempts|
    requires Outstanding(states[m].attempts[j]) && Outstanding(states[m].attempts[k])
    ensures j == k && Current(states[m].service, k)
  {
    RunKeeps(states, actions, m);
  }

  /**
   However many readers queue, whenever they give up, and whichever accepts fail: every connection
   request a handshake takes is that of the reader whose WantGroup it read, so it lands in that
   reader's group or is rejected to that very reader, and the established event that completes the
   handshake is that connection's own.
   */
  lemma AcceptsItsOwnReader(states: seq<State>, actions: seq<Action>, m: nat)
    requires OrderlyRun(states, actions) && m < |actions|
    ensures var s := states[m];
      && (actions[m] == AcceptEvent || actions[m] == AcceptFails ==>
            s.service.Joining? && s.events == [Request(s.service.k)] &&
            s.service.k < |s.attempts| && s.attempts[s.service.k].wanted)
      && (actions[m] == WaitEvent ==>
            s.service.Establishing? && s.service.of == s.service.k && s.events == [Established(s.service.k)])
  {
    RunKeeps(states, actions, m);
  }

  lemma EveryMatchFits(states: seq<State>, actions: seq<Action>, m: nat, i: nat)
    requires OrderlyRun(states, actions) && m < |states|
    ensures i < |states[m].matches| ==> states[m].matches[i].k == states[m].matches[i].of
    ensures i < |states[m].completed| ==> states[m].completed[i].k == states[m].completed[i].of
  {
    RunKeeps(states, actions, m);
  }

  // ----- The hypothesis is exact: every other failure can end in a mismatch -----

  /** Steps taken in order, none of them a failure that is not orderly. */
  function DoAll(s: State, actions: seq<Action>): (r: Option<State>)
    decreases |actions|
  {
    if actions == [] then Some(s)
    else if !Can(s, actions[0]) || !Orderly(s, actions[0]) then None
    else DoAll(Do(s, actions[0]), actions[1..])
  }

  ghost predicate Leads(s: State, t: State) { exists actions :: DoAll(s, actions) == Some(t) }

  lemma LeadsNowhere(s: State)
    ensures Leads(s, s)
  {
    assert DoAll(s, []) == Some(s);
  }

  lemma LeadsOn(s: State, a: Action, t: State)
    requires Can(s, a) && Orderly(s, a) && Leads(Do(s, a), t)
    ensures Leads(s, t)
  {
    hide Do, Can, Orderly;
    var actions :| DoAll(Do(s, a), actions) == Some(t);
    assert ([a] + actions)[1..] == actions;
    assert DoAll(s, [a] + actions) == Some(t);
  }

  /** A handshake has completed with a connection whose reader asked for another group. */
  ghost predicate Mismatched(s: State) { exists i :: 0 <= i < |s.completed| && WrongGroup(s, s.completed[i]) }

  predicate WrongGroup(s: State, m: Match) {
    m.k < |s.attempts| && m.of < |s.attempts| && s.attempts[m.k].group != s.attempts[m.of].group
  }

  /** Without any further failure that is not orderly. */
  ghost predicate CanMismatch(s: State) { exists t: State :: Leads(s, t) && Mismatched(t) }

  lemma MismatchFirst(s: State, a: Action)
    requires Can(s, a) && Orderly(s, a) && CanMismatch(Do(s, a))
    ensures CanMismatch(s)
  {
    hide Leads, Can, Do, Mismatched, Orderly;
    var t: State :| Leads(Do(s, a), t) && Mismatched(t);
    LeadsOn(s, a, t);
  }

  /** Anyone served while a request of somebody else is queued gets that one, and its connection with it. */
  lemma StaleIsTaken(s: State, q: nat)
    requires s.service.Joining? && s.service.k < |s.attempts| && s.events == [Request(q)]
    requires At(s, q, Requested) && s.attempts[q].group != s.attempts[s.service.k].group
    ensures CanMismatch(s)
  {
    var s1 := Do(s, AcceptEvent);
    var s2 := Do(s1, Connect(q));
    assert s2.events == [Established(q)];
    var t := Do(s2, WaitEvent);
    assert WrongGroup(t, t.completed[|s.completed|]);
    LeadsNowhere(t);
    MismatchFirst(s2, WaitEvent);
    MismatchFirst(s1, Connect(q));
    MismatchFirst(s, AcceptEvent);
  }

  /** A new reader arrives at an empty backlog and is served up to its group join. */
  function Guest(s: State, group: u32): (r: State) {
    s.(attempts := s.attempts + [Attempt(group, Sent, true, true, false, false, false)], taken := |s.attempts| + 1,
       service := Joining(|s.attempts|))
  }

  lemma GuestServed(s: State, group: u32)
    requires s.service == Idle && s.taken == |s.attempts| && CanMismatch(Guest(s, group))
    ensures CanMismatch(s)
  {
    hide CanMismatch;
    var j := |s.attempts|;
    var s1 := Do(s, Arrive(group));
    var s2 := Do(s1, TakeNext);
    var s3 := Do(s2, Greet);
    var s4 := Do(s3, ReadWelcome(j));
    var s5 := Do(s4, SendWant(j));
    assert Do(s5, ReadWant) == Guest(s, group);
    MismatchFirst(s5, ReadWant);
    MismatchFirst(s4, SendWant(j));
    MismatchFirst(s3, ReadWelcome(j));
    MismatchFirst(s2, Greet);
    MismatchFirst(s1, TakeNext);
    MismatchFirst(s, Arrive(group));
  }

  /** A stale request of a reader that is still there ends up with the next reader of another group. */
  lemma {:induction false} StaleRequest(s: State, q: nat)
    requires s.service == Idle && s.taken <= |s.attempts| && s.events == [Request(q)] && At(s, q, Requested)
    ensures CanMismatch(s)
    decreases |s.attempts| - s.taken
  {
    hide CanMismatch;
    if s.taken < |s.attempts| {
      var s1 := Do(s, TakeNext);
      StaleRequest(Do(s1, Refuse), q);
      MismatchFirst(s1, Refuse);
      MismatchFirst(s, TakeNext);
    } else {
      var group: u32 := if s.attempts[q].group == 0 then 1 else 0;
      StaleIsTaken(Guest(s, group), q);
      GuestServed(s, group);
    }
  }

  /** A welcomed reader that is still there sends its request, served or not. */
  lemma RequestComes(s: State, k: nat)
    requires s.service == Idle && s.taken <= |s.attempts| && s.events == []
    requires At(s, k, Sent) || At(s, k, Wanting) || (At(s, k, Waiting) && s.attempts[k].welcomed)
    ensures CanMismatch(s)
    decreases if At(s, k, Sent) then 0 else if At(s, k, Wanting) then 1 else 2
  {
    hide CanMismatch;
    if At(s, k, Sent) {
      StaleRequest(Do(s, SendRequest(k)), k);
      MismatchFirst(s, SendRequest(k));
    } else if At(s, k, Wanting) {
      RequestComes(Do(s, SendWant(k)), k);
      MismatchFirst(s, SendWant(k));
    } else {
      RequestComes(Do(s, ReadWelcome(k)), k);
      MismatchFirst(s, ReadWelcome(k));
    }
  }

  /** A stale request of a reader that is gone fails the next handshake, whose own request is then the stale one. */
  lemma {:induction false} AbandonedRequest(s: State, q: nat)
    requires s.service == Idle && s.taken <= |s.attempts| && s.events == [Request(q)] && q < |s.attempts|
    ensures CanMismatch(s)
    decreases |s.attempts| - s.taken
  {
    hide CanMismatch;
    if s.taken < |s.attempts| {
      var s1 := Do(s, TakeNext);
      AbandonedRequest(Do(s1, Refuse), q);
      MismatchFirst(s1, Refuse);
      MismatchFirst(s, TakeNext);
    } else {
      var j := |s.attempts|;
      var s1 := Guest(s, 0);
      var s2 := Do(s1, AcceptEvent);
      var s3 := Do(s2, WaitFails);
      assert s3.events == [] && At(s3, j, Sent);
      RequestComes(s3, j);
      MismatchFirst(s2, WaitFails);
      MismatchFirst(s1, AcceptEvent);
      GuestServed(s, 0);
    }
  }

  /** So does a stale established event. */
  lemma {:induction false} StaleEstablished(s: State, k: nat)
    requires s.service == Idle && s.taken <= |s.attempts| && s.events == [Established(k)] && k < |s.attempts|
    ensures CanMismatch(s)
    decreases |s.attempts| - s.taken
  {
    hide CanMismatch;
    if s.taken < |s.attempts| {
      var s1 := Do(s, TakeNext);
      StaleEstablished(Do(s1, Refuse), k);
      MismatchFirst(s1, Refuse);
      MismatchFirst(s, TakeNext);
    } else {
      var j := |s.attempts|;
      var s1 := Guest(s, 0);
      var s2 := Do(s1, AcceptEvent);
      assert s2.events == [] && At(s2, j, Sent);
      RequestComes(s2, j);
      MismatchFirst(s1, AcceptEvent);
      GuestServed(s, 0);
    }
  }

  /**
   Wherever an orderly run has got to: if the current handshake fails there although its reader is not
   gone for good, the run can go on, orderly from there, to where a handshake for one group has
   completed with the connection of a reader that asked for another.
   */
  lemma OtherFailuresMismatch(states: seq<State>, actions: seq<Action>, m: nat)
    requires OrderlyRun(states, actions) && m < |states|
    requires Can(states[m], Fail) && !Orderly(states[m], Fail)
    ensures CanMismatch(Do(states[m], Fail))
  {
    RunKeeps(states, actions, m);
    var s := states[m];
    var k := s.service.k;
    var t := Do(s, Fail);
    hide CanMismatch;
    if s.service.Establishing? {
      if s.events == [] {
        StaleEstablished(Do(t, Connect(k)), k);
        MismatchFirst(t, Connect(k));
      } else {
        StaleEstablished(t, k);
      }
    } else if s.attempts[k].requested {
      AbandonedRequest(t, k);
    } else {
      RequestComes(t, k);
    }
  }

  lemma {:induction false} OrderlyKeeps(s: State, actions: seq<Action>)
    requires Inv(s) && DoAll(s, actions).Some?
    ensures Inv(DoAll(s, actions).value)
    decreases |actions|
  {
    hide Inv, Can, Orderly, Do;
    if actions != [] {
      StepKeeps(s, actions[0]);
      OrderlyKeeps(Do(s, actions[0]), actions[1..]);
    }
  }

  /** From a state that fits, no orderly continuation gives a connection to the wrong group. */
  lemma OrderlyNeverMismatches(s: State)
    requires Inv(s)
    ensures !CanMismatch(s)
  {
    hide Inv, WrongGroup;
    forall t: State | Leads(s, t) ensures !Mismatched(t) {
      var actions :| DoAll(s, actions) == Some(t);
      OrderlyKeeps(s, actions);
      FittingIsMatched(t);
    }
  }

  lemma FittingIsMatched(s: State)
    requires Inv(s)
    ensures !Mismatched(s)
  {}

  /**
   The exact condition.  At any point of any orderly run at which the current handshake can fail: the
   failure is harmless, its reader gone and nothing of it left to be reported, if and only if no
   orderly continuation gives a reader's connection to a group it did not ask for.
   */
  lemma FailureIsSafeIffHarmless(states: seq<State>, actions: seq<Action>, m: nat)
    requires OrderlyRun(states, actions) && m < |states| && Can(states[m], Fail)
    ensures Harmless(states[m]) <==> !CanMismatch(Do(states[m], Fail))
  {
    hide Inv, CanMismatch, Can, Do, Harmless;
    if Harmless(states[m]) {
      RunKeeps(states, actions, m);
      StepKeeps(states[m], Fail);
      OrderlyNeverMismatches(Do(states[m], Fail));
    } else {
      OtherFailuresMismatch(states, actions, m);
    }
  }
}
