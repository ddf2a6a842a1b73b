/**
 One metadata channel from both ends: `update`, `refresh` and `receive_exchange` of src/readers.rs
 against `handshake` and `wait_for_updates` of src/providers.rs.  Each step is one send, one
 receive or one rendezvous event of one side, and either side can fail at any of them.
 */
module Conversation {
  import opened Common
  import opened Codec
  import Cache

  /** Where `update` is, or what it left between calls: no channel (`Closed`) or a kept one (`Open`). */
  datatype ReaderAt =
    | Closed | SayHello | AwaitWelcome | SayWant | Request | AwaitEstablished
    | AwaitCatalog | AwaitTuples(first: Message) | Open

  datatype ProviderAt =
    | AwaitHello | SayWelcome | AwaitWant | Accepting(group: u32) | Establishing(group: u32)
    | Answering(group: u32) | SayCatalog(group: u32) | SayTuples(group: u32) | AwaitUpdate(group: u32) | Ended

  datatype Rdma = NotRequested | Requested | Accepted | Established

  /**
   `asked` and `told` are all messages sent on the channel by the reader and by the provider, of
   which the other side has received the first `heard` and `read`.  `served` are the pairs the
   provider took from its tables, `got` the pairs the reader received; `surprises` counts the
   errors either side reported about what it received.
   */
  datatype State = State(
    group: u32, reader: ReaderAt, provider: ProviderAt, rdma: Rdma, asked: seq<Message>, heard: nat,
    told: seq<Message>, read: nat, served: seq<(Message, Message)>, got: seq<(Message, Message)>, surprises: nat)

  datatype Action =
    | Begin | Ask | ReaderSend | ReaderReceive | ReaderRequest | ReaderConnected | ReaderFails
    | ProviderReceive | ProviderSend | ProviderAccept | ProviderEstablished
    | Snapshot(regions: seq<RegionDesc>, tuples: seq<TupleDesc>) | ProviderFails

  function Initial(group: u32): (r: State) {
    State(group, Closed, Ended, NotRequested, [], 0, [], 0, [], [], 0)
  }

  predicate Can(s: State, a: Action) {
    match a
    case Begin => s.reader == Closed
    case Ask => s.reader == Open
    case ReaderSend => s.reader == SayHello || s.reader == SayWant
    case ReaderReceive => (s.reader == AwaitWelcome || s.reader == AwaitCatalog || s.reader.AwaitTuples?) &&
      s.read < |s.told|
    case ReaderRequest => s.reader == Request
    case ReaderConnected => s.reader == AwaitEstablished && s.rdma == Accepted
    case ReaderFails => s.reader != Closed
    case ProviderReceive => (s.provider == AwaitHello || s.provider == AwaitWant || s.provider.AwaitUpdate?) &&
      s.heard < |s.asked|
    case ProviderSend => s.provider == SayWelcome || s.provider.SayTuples? || (s.provider.SayCatalog? && s.served != [])
    case ProviderAccept => s.provider.Accepting? && s.rdma == Requested
    case ProviderEstablished => s.provider.Establishing? && s.rdma == Established
    case Snapshot(_, _) => s.provider.Answering?
    case ProviderFails => s.provider != Ended
  }

  predicate ByReader(a: Action) {
    a.Begin? || a.Ask? || a.ReaderSend? || a.ReaderReceive? || a.ReaderRequest? || a.ReaderConnected? || a.ReaderFails?
  }

  function ReaderAct(s: State, a: Action): (r: State)
    requires Can(s, a) && ByReader(a)
  {
    match a
    case Begin => Initial(s.group).(reader := SayHello, provider := AwaitHello, surprises := s.surprises)
    case Ask => s.(asked := s.asked + [Update], reader := AwaitCatalog)
    case ReaderSend =>
      if s.reader == SayHello then s.(asked := s.asked + [Hello(PROTOCOL_VERSION)], reader := AwaitWelcome)
      else s.(asked := s.asked + [WantGroup(s.group)], reader := Request)
    case ReaderReceive => Received(s.(read := s.read + 1), s.told[s.read])
    case ReaderRequest => s.(rdma := Requested, reader := AwaitEstablished)
    case ReaderConnected => s.(rdma := Established, reader := AwaitCatalog)
    case ReaderFails => s.(reader := Closed)
  }

  /** The channel is kept once both messages are in, whatever the ingest then says about them. */
  function Received(s: State, m: Message): (r: State) {
    match s.reader
    case AwaitWelcome =>
      if m == Welcome(PROTOCOL_VERSION) then s.(reader := SayWant)
      else s.(reader := Closed, surprises := s.surprises + 1)
    case AwaitCatalog => s.(reader := AwaitTuples(m))
    case AwaitTuples(first) =>
      s.(reader := Open, got := s.got + [(first, m)],
         surprises := s.surprises + if Cache.Call(s.group, first, m).Accepted() then 0 else 1)
    case _ => s
  }

  function ProviderAct(s: State, a: Action): (r: State)
    requires Can(s, a) && !ByReader(a)
  {
    match a
    case ProviderReceive => Heard(s.(heard := s.heard + 1), s.asked[s.heard])
    case ProviderSend =>
      (match s.provider
       case SayWelcome => s.(told := s.told + [Welcome(PROTOCOL_VERSION)], provider := AwaitWant)
       case SayCatalog(g) => s.(told := s.told + [s.served[|s.served| - 1].0], provider := SayTuples(g))
       case SayTuples(g) =>
         if s.served == [] then s
         else s.(told := s.told + [s.served[|s.served| - 1].1], provider := AwaitUpdate(g))
       case _ => s)
    case ProviderAccept => s.(rdma := Accepted, provider := Establishing(s.provider.group))
    case ProviderEstablished => s.(provider := Answering(s.provider.group))
    case Snapshot(regions, tuples) =>
      var g := s.provider.group;
      s.(served := s.served + [(Metadata(regions), Tuples(g, tuples))], provider := SayCatalog(g))
    case ProviderFails => s.(provider := Ended)
  }

  function Heard(s: State, m: Message): (r: State) {
    var refused := s.(provider := Ended, surprises := s.surprises + 1);
    match s.provider
    case AwaitHello => if m == Hello(PROTOCOL_VERSION) then s.(provider := SayWelcome) else refused
    case AwaitWant => if m.WantGroup? then s.(provider := Accepting(m.group)) else refused
    case AwaitUpdate(g) => if m == Update then s.(provider := Answering(g)) else refused
    case _ => s
  }

  function Do(s: State, a: Action): (r: State)
    requires Can(s, a)
  {
    if ByReader(a) then ReaderAct(s, a) else ProviderAct(s, a)
  }

  // ----- The script both sides follow -----

  function AskedAt(g: u32, i: nat): (r: Message) {
    if i == 0 then Hello(PROTOCOL_VERSION) else if i == 1 then WantGroup(g) else Update
  }

  /** What the provider's `i`-th message is: the greeting, then the served pairs in order. */
  function ToldAt(served: seq<(Message, Message)>, i: nat): (r: Message)
    requires i <= 2 * |served|
  {
    if i == 0 then Welcome(PROTOCOL_VERSION)
    else if i % 2 == 1 then served[i / 2].0
    else served[i / 2 - 1].1
  }

  ghost predicate AskedFits(s: State) {
    forall i :: 0 <= i < |s.asked| ==> s.asked[i] == AskedAt(s.group, i)
  }

  ghost predicate ToldFits(s: State) {
    |s.told| <= 2 * |s.served| + 1 && forall i :: 0 <= i < |s.told| ==> s.told[i] == ToldAt(s.served, i)
  }

  ghost predicate ServedFits(s: State) {
    forall k :: 0 <= k < |s.served| ==> Cache.Call(s.group, s.served[k].0, s.served[k].1).Accepted()
  }

  ghost predicate GotFits(s: State) {
    |s.got| <= |s.served| && s.got == s.served[..|s.got|]
  }

  /** How far each side is determines how much it has sent and received. */
  ghost predicate ReaderCounts(s: State) {
    var n := |s.got|;
    match s.reader
    case SayHello => |s.asked| == s.read == n == 0 && s.rdma == NotRequested
    case AwaitWelcome => |s.asked| == 1 && s.read == n == 0 && s.rdma == NotRequested
    case SayWant => |s.asked| == s.read == 1 && n == 0 && s.rdma == NotRequested
    case Request => |s.asked| == 2 && s.read == 1 && n == 0 && s.rdma == NotRequested
    case AwaitEstablished => |s.asked| == 2 && s.read == 1 && n == 0 && (s.rdma == Requested || s.rdma == Accepted)
    case AwaitCatalog => |s.asked| == n + 2 && s.read == 2 * n + 1 && s.rdma == Established
    case AwaitTuples(first) =>
      |s.asked| == n + 2 && s.read == 2 * n + 2 && s.rdma == Established &&
      s.read <= |s.told| && s.told[s.read - 1] == first
    case Open => n > 0 && |s.asked| == n + 1 && s.read == 2 * n + 1 && s.rdma == Established
    case Closed => true
  }

  predicate Unaccepted(s: State) { s.rdma == NotRequested || s.rdma == Requested }

  ghost predicate ProviderCounts(s: State) {
    var m := |s.served|;
    match s.provider
    case AwaitHello => s.heard == |s.told| == m == 0 && Unaccepted(s)
    case SayWelcome => s.heard == 1 && |s.told| == m == 0 && Unaccepted(s)
    case AwaitWant => s.heard == |s.told| == 1 && m == 0 && Unaccepted(s)
    case Accepting(g) => g == s.group && s.heard == 2 && |s.told| == 1 && m == 0 && Unaccepted(s)
    case Establishing(g) =>
      g == s.group && s.heard == 2 && |s.told| == 1 && m == 0 && (s.rdma == Accepted || s.rdma == Established)
    case Answering(g) => g == s.group && s.heard == m + 2 && |s.told| == 2 * m + 1 && s.rdma == Established
    case SayCatalog(g) => g == s.group && m > 0 && s.heard == m + 1 && |s.told| == 2 * m - 1
    case SayTuples(g) => g == s.group && m > 0 && s.heard == m + 1 && |s.told| == 2 * m
    case AwaitUpdate(g) => g == s.group && m > 0 && s.heard == m + 1 && |s.told| == 2 * m + 1
    case Ended => true
  }

  ghost predicate Positions(s: State) {
    && s.heard <= |s.asked| && s.read <= |s.told| <= 2 * |s.served| + 1 && |s.got| <= |s.served|
    && (s.served != [] ==> s.heard >= |s.served| + 1 && s.rdma == Established)
    && ReaderCounts(s) && ProviderCounts(s)
  }

  ghost predicate Inv(s: State) {
    AskedFits(s) && ToldFits(s) && ServedFits(s) && GotFits(s) && Positions(s) && s.surprises == 0
  }

  /** The next reply is the script's, so the reader has no cause to complain. */
  lemma ReplyExpected(s: State)
    requires ToldFits(s) && ServedFits(s) && GotFits(s) && Positions(s) && Can(s, ReaderReceive)
    ensures match s.reader
            case AwaitWelcome => s.told[s.read] == Welcome(PROTOCOL_VERSION)
            case AwaitTuples(first) => |s.got| < |s.served| && (first, s.told[s.read]) == s.served[|s.got|]
            case _ => true
  {
    assert s.told[s.read] == ToldAt(s.served, s.read);
    if s.reader.AwaitTuples? { assert s.told[s.read - 1] == ToldAt(s.served, s.read - 1); }
  }

  lemma ReceiveKeepsPositions(s: State)
    requires ToldFits(s) && ServedFits(s) && GotFits(s) && Positions(s) && Can(s, ReaderReceive)
    ensures Positions(ReaderAct(s, ReaderReceive))
  {
    ReplyExpected(s);
    hide ToldFits, ServedFits, GotFits, Cache.Call.Accepted;
  }

  lemma ReaderKeepsPositions(s: State, a: Action)
    requires ToldFits(s) && ServedFits(s) && GotFits(s) && Positions(s) && Can(s, a) && ByReader(a)
    ensures Positions(ReaderAct(s, a))
  {
    hide ToldFits, ServedFits, GotFits, Received, Cache.Call.Accepted;
    if a.ReaderReceive? { ReceiveKeepsPositions(s); }
  }

  lemma ReaderKeepsGot(s: State, a: Action)
    requires ToldFits(s) && ServedFits(s) && GotFits(s) && Positions(s) && Can(s, a) && ByReader(a)
    ensures GotFits(ReaderAct(s, a)) && (s.surprises == 0 ==> ReaderAct(s, a).surprises == 0)
  {
    if a.ReaderReceive? {
      ReplyExpected(s);
      if s.reader.AwaitTuples? {
        var k := |s.got|;
        assert s.served[..k + 1] == s.served[..k] + [s.served[k]];
      }
    }
  }

  lemma ReaderKeeps(s: State, a: Action)
    requires Inv(s) && Can(s, a) && ByReader(a)
    ensures Inv(ReaderAct(s, a))
  {
    ReaderKeepsPositions(s, a);
    ReaderKeepsGot(s, a);
    var t := ReaderAct(s, a);
    assert a.Begin? || (t.told == s.told && t.served == s.served);
    assert AskedFits(t) by { ReaderKeepsAsked(s, a); }
    hide Positions, GotFits, ToldAt, ReaderAct;
  }

  lemma ReaderKeepsAsked(s: State, a: Action)
    requires AskedFits(s) && Positions(s) && Can(s, a) && ByReader(a)
    ensures AskedFits(ReaderAct(s, a))
  {}

  /** The next request is the script's, so the provider has no cause to complain. */
  lemma RequestExpected(s: State)
    requires AskedFits(s) && Positions(s) && Can(s, ProviderReceive)
    ensures s.asked[s.heard] == AskedAt(s.group, s.heard)
    ensures match s.provider
            case AwaitHello => s.heard == 0
            case AwaitWant => s.heard == 1
            case _ => s.heard >= 2
  {}

  lemma ProviderKeepsPositions(s: State, a: Action)
    requires AskedFits(s) && Positions(s) && Can(s, a) && !ByReader(a)
    ensures Positions(ProviderAct(s, a)) && (s.surprises == 0 ==> ProviderAct(s, a).surprises == 0)
  {
    if a.ProviderReceive? { RequestExpected(s); }
    hide AskedFits;
  }

  lemma ProviderKeepsTold(s: State, a: Action)
    requires ToldFits(s) && Positions(s) && Can(s, a) && !ByReader(a)
    ensures ToldFits(ProviderAct(s, a))
  {
    var t := ProviderAct(s, a);
    assert forall i :: 0 <= i <= 2 * |s.served| ==> ToldAt(t.served, i) == ToldAt(s.served, i);
  }

  lemma ProviderKeepsServed(s: State, a: Action)
    requires ServedFits(s) && GotFits(s) && Positions(s) && Can(s, a) && !ByReader(a)
    ensures ServedFits(ProviderAct(s, a)) && GotFits(ProviderAct(s, a))
  {
    hide ProviderAct, Positions;
    if a.Snapshot? {
      SnapshotServes(s, a.regions, a.tuples);
    } else {
      ServedSame(s, a);
    }
  }

  lemma ServedSame(s: State, a: Action)
    requires Can(s, a) && !ByReader(a) && !a.Snapshot?
    ensures var t := ProviderAct(s, a); t.served == s.served && t.got == s.got && t.group == s.group
  {}

  lemma SnapshotServes(s: State, regions: seq<RegionDesc>, tuples: seq<TupleDesc>)
    requires ServedFits(s) && GotFits(s) && Positions(s) && Can(s, Snapshot(regions, tuples))
    ensures var t := ProviderAct(s, Snapshot(regions, tuples)); ServedFits(t) && GotFits(t)
  {
    var t := ProviderAct(s, Snapshot(regions, tuples));
    assert t.served[..|s.got|] == s.served[..|s.got|];
  }

  lemma ProviderSame(s: State, a: Action)
    requires Can(s, a) && !ByReader(a)
    ensures ProviderAct(s, a).asked == s.asked && ProviderAct(s, a).group == s.group
  {}

  lemma ProviderKeeps(s: State, a: Action)
    requires Inv(s) && Can(s, a) && !ByReader(a)
    ensures Inv(ProviderAct(s, a))
  {
    hide Positions, GotFits, ServedFits, ToldFits, ProviderAct;
    ProviderSame(s, a);
    ProviderKeepsPositions(s, a);
    ProviderKeepsTold(s, a);
    ProviderKeepsServed(s, a);
  }

  // ----- Runs -----

  ghost predicate Run(states: seq<State>, actions: seq<Action>, group: u32) {
    && |states| == |actions| + 1 && states[0] == Initial(group)
    && forall m :: 0 <= m < |actions| ==> Can(states[m], actions[m]) && states[m + 1] == Do(states[m], actions[m])
  }

  lemma {:induction false} RunKeeps(states: seq<State>, actions: seq<Action>, group: u32, m: nat)
    requires Run(states, actions, group) && m < |states|
    ensures Inv(states[m]) && states[m].group == group
  {
    hide Inv, Do, Can, Initial;
    if m == 0 {
      StartFits(group);
    } else {
      RunKeeps(states, actions, group, m - 1);
      var s, a := states[m - 1], actions[m - 1];
      StepKeeps(s, a);
    }
  }

  lemma StartFits(group: u32)
    ensures Inv(Initial(group)) && Initial(group).group == group
  {}

  lemma StepKeeps(s: State, a: Action)
    requires Inv(s) && Can(s, a)
    ensures Inv(Do(s, a)) && Do(s, a).group == s.group
  {
    hide Inv, Can;
    SameGroup(s, a);
    if ByReader(a) { ReaderKeeps(s, a); } else { ProviderKeeps(s, a); }
  }

  lemma SameGroup(s: State, a: Action)
    requires Can(s, a)
    ensures Do(s, a).group == s.group
  {}

  /** Whatever fails, neither side is ever sent a message, version or group it did not expect. */
  lemma NeverSurprised(states: seq<State>, actions: seq<Action>, group: u32, m: nat)
    requires Run(states, actions, group) && m < |states|
    ensures states[m].surprises == 0
  {
    RunKeeps(states, actions, group, m);
  }

  /** Whatever arrives, a message other than the one due ends the session on either side, and is reported. */
  lemma OnlyWhatIsDueIsTaken(s: State, m: Message)
    ensures s.provider.AwaitHello? || s.provider.AwaitWant? || s.provider.AwaitUpdate? ==>
      var t := Heard(s, m);
      var due := match s.provider
        case AwaitHello => m == Hello(1)
        case AwaitWant => m.WantGroup?
        case _ => m == Update;
      (t.provider == Ended <==> !due) && t.surprises == s.surprises + if due then 0 else 1
    ensures s.reader == AwaitWelcome ==>
      var t := Received(s, m);
      (t.reader == Closed <==> m != Welcome(1)) && t.surprises == s.surprises + if m == Welcome(1) then 0 else 1
    ensures s.reader.AwaitTuples? ==>
      var t, first := Received(s, m), s.reader.first;
      t.surprises == s.surprises + if first.Metadata? && m.Tuples? && m.served == s.group then 0 else 1
  {}

  /** The provider's messages the reader has not received. */
  function Unread(s: State): (r: seq<Message>)
    requires s.read <= |s.told|
  {
    s.told[s.read..]
  }

  /**
   A channel the reader keeps between updates holds no unread reply, so an Update sent on it is
   answered by its own pair: the exchanges received are the pairs served, one for one and in
   order, each of them the reader's group's, and the provider waits for the next Update or is gone.
   */
  lemma KeptChannelIsDrained(states: seq<State>, actions: seq<Action>, group: u32, m: nat)
    requires Run(states, actions, group) && m < |states| && states[m].reader == Open
    ensures var s := states[m];
      && s.read <= |s.told| && Unread(s) == []
      && s.got == s.served && |s.asked| == |s.served| + 1
      && (s.provider == Ended || (s.provider == AwaitUpdate(group) && s.heard == |s.asked|))
      && (forall k :: 0 <= k < |s.got| ==> Cache.Call(group, s.got[k].0, s.got[k].1).Accepted())
  {
    RunKeeps(states, actions, group, m);
    var s := states[m];
    assert s.served[..|s.served|] == s.served;
  }

  // ----- Failure-free calls come to an end -----

  predicate Internal(a: Action) { !a.Begin? && !a.Ask? && !a.ReaderFails? && !a.ProviderFails? }

  function ReaderRank(r: ReaderAt): (result: nat) {
    match r
    case SayHello => 19 case AwaitWelcome => 12 case SayWant => 11 case Request => 4 case AwaitEstablished => 3
    case AwaitCatalog => 2 case AwaitTuples(_) => 1 case Open => 0 case Closed => 0
  }

  function ProviderRank(p: ProviderAt): (r: nat) {
    match p
    case Accepting(_) => 5 case Establishing(_) => 4 case Answering(_) => 3 case SayCatalog(_) => 2
    case SayWelcome => 1 case SayTuples(_) => 1
    case AwaitHello => 0 case AwaitWant => 0 case AwaitUpdate(_) => 0 case Ended => 0
  }

  /** An upper bound on the steps a call can still take. */
  function Rank(s: State): (r: nat)
    requires s.heard <= |s.asked|
  {
    ReaderRank(s.reader) + ProviderRank(s.provider) + 6 * (|s.asked| - s.heard)
  }

  lemma StepsDown(s: State, a: Action)
    requires Inv(s) && Can(s, a) && Internal(a)
    ensures Do(s, a).heard <= |Do(s, a).asked| && Rank(Do(s, a)) < Rank(s)
  {
    hide AskedFits, ToldFits, ServedFits, GotFits, ReaderAct, ProviderAct, Positions, Rank, Internal;
    if ByReader(a) { ReaderStepsDown(s, a); } else { ProviderStepsDown(s, a); }
  }

  lemma ReaderStepsDown(s: State, a: Action)
    requires ToldFits(s) && ServedFits(s) && GotFits(s) && Positions(s) && Can(s, a) && Internal(a) && ByReader(a)
    ensures var t := ReaderAct(s, a); t.heard <= |t.asked| && Rank(t) < Rank(s)
  {
    if a.ReaderReceive? { ReplyExpected(s); }
    hide ToldFits, ServedFits, GotFits, Cache.Call.Accepted;
  }

  lemma ProviderStepsDown(s: State, a: Action)
    requires AskedFits(s) && Positions(s) && Can(s, a) && Internal(a) && !ByReader(a)
    ensures var t := ProviderAct(s, a); t.heard <= |t.asked| && Rank(t) < Rank(s)
  {
    if a.ProviderReceive? { RequestExpected(s); }
    hide AskedFits;
  }

  predicate MidCall(s: State) { s.reader != Open && s.reader != Closed }

  /** A call in progress that nothing fails can always go on, on one side or the other. */
  lemma NeverStuck(s: State) returns (a: Action)
    requires Positions(s) && MidCall(s) && s.provider != Ended
    ensures Internal(a) && Can(s, a)
  {
    if s.provider.Answering? { a := Snapshot([], []); }
    else if Can(s, ReaderSend) { a := ReaderSend; }
    else if Can(s, ReaderReceive) { a := ReaderReceive; }
    else if Can(s, ReaderRequest) { a := ReaderRequest; }
    else if Can(s, ReaderConnected) { a := ReaderConnected; }
    else if Can(s, ProviderReceive) { a := ProviderReceive; }
    else if Can(s, ProviderSend) { a := ProviderSend; }
    else if Can(s, ProviderAccept) { a := ProviderAccept; }
    else { a := ProviderEstablished; }
  }

  /** `states` goes from `s` on by steps that are neither calls nor failures. */
  ghost predicate QuietRun(s: State, states: seq<State>, actions: seq<Action>) {
    && |states| == |actions| + 1 && states[0] == s
    && forall m :: 0 <= m < |actions| ==>
         Can(states[m], actions[m]) && Internal(actions[m]) && states[m + 1] == Do(states[m], actions[m])
  }

  /**
   Without failures a call ends, and ends well: however the two sides' steps interleave, there are
   at most Rank(s) of them, and when no more is possible the reader holds an open, drained channel
   with one exchange more than before the call (or the call had ended already).
   */
  lemma {:induction false} CallCompletes(s: State, states: seq<State>, actions: seq<Action>)
    requires Inv(s) && s.provider != Ended && s.reader != Closed && QuietRun(s, states, actions)
    ensures var t := states[|actions|];
      && |actions| <= Rank(s) && Inv(t) && t.provider != Ended && t.reader != Closed
      && ((forall a :: Internal(a) ==> !Can(t, a)) ==> t.reader == Open)
      && (t.reader == Open ==>
            t.got == t.served && Unread(t) == [] && |t.got| == |s.got| + if MidCall(s) then 1 else 0)
    decreases |actions|
  {
    hide Inv, Can, ReaderAct, ProviderAct, Rank;
    if actions == [] {
      AtRest(s);
    } else {
      QuietStep(s, actions[0]);
      assert forall m :: 0 <= m < |actions[1..]| ==>
        actions[1..][m] == actions[m + 1] && states[1..][m] == states[m + 1];
      CallCompletes(Do(s, actions[0]), states[1..], actions[1..]);
    }
  }

  lemma AtRest(s: State)
    requires Inv(s) && s.provider != Ended
    ensures MidCall(s) ==> exists a :: Internal(a) && Can(s, a)
    ensures s.reader == Open ==> s.got == s.served && Unread(s) == []
  {
    if MidCall(s) {
      var a := NeverStuck(s);
    } else {
      assert s.served[..|s.served|] == s.served;
    }
  }

  /** A quiet step keeps both sides in the conversation; the one that ends the call adds the exchange. */
  lemma QuietStep(s: State, a: Action)
    requires Inv(s) && s.provider != Ended && s.reader != Closed && Can(s, a) && Internal(a)
    ensures var t := Do(s, a);
      && Inv(t) && Rank(t) < Rank(s) && t.provider != Ended && t.reader != Closed
      && |t.got| == |s.got| + (if MidCall(s) && !MidCall(t) then 1 else 0) && (MidCall(t) ==> MidCall(s))
  {
    hide AskedFits, ToldFits, ServedFits, GotFits, Positions, Can, Rank, ReaderAct, ProviderAct;
    StepsDown(s, a);
    if ByReader(a) {
      ReaderKeeps(s, a);
      ReaderTalksOn(s, a);
    } else {
      ProviderKeeps(s, a);
      ProviderTalksOn(s, a);
    }
  }

  lemma ReaderTalksOn(s: State, a: Action)
    requires ToldFits(s) && ServedFits(s) && GotFits(s) && Positions(s) && s.reader != Closed
    requires Can(s, a) && Internal(a) && ByReader(a)
    ensures var t := ReaderAct(s, a);
      && t.provider == s.provider && t.reader != Closed
      && |t.got| == |s.got| + (if MidCall(s) && !MidCall(t) then 1 else 0) && (MidCall(t) ==> MidCall(s))
  {
    if a.ReaderReceive? { ReplyExpected(s); }
    hide ToldFits, ServedFits, GotFits, Positions, Cache.Call.Accepted;
  }

  lemma ProviderTalksOn(s: State, a: Action)
    requires AskedFits(s) && Positions(s) && s.provider != Ended && Can(s, a) && Internal(a) && !ByReader(a)
    ensures var t := ProviderAct(s, a); t.provider != Ended && t.reader == s.reader && t.got == s.got
  {
    if a.ProviderReceive? { RequestExpected(s); }
    hide AskedFits, Positions;
  }
}
