/**
 The distributed barrier (tests/common/mod.rs): N nodes, any number of rounds, polls that are
 delayed, lost or answered late.  A node's state is what `synch` and its responder thread hold;
 every step below is one action of one thread, and any interleaving of them is a run.
 */
module Barrier {
  import opened Common

  datatype Phase = Outside | Polling | Closing

  datatype Seen = Seen(addr: nat, clock: nat)

  datatype Node = Node(
    clock: nat, phase: Phase, known: seq<nat>, seen: seq<Seen>, poll: Option<nat>,
    // history: returned from the current clock's synch; binds failed; peers already known high enough on entry
    left: bool, fails: nat, early: set<nat>)

  datatype Stage = Sent | Heard | Replied | Done

  /** One poll: the poller's clock travels one way, the target's clock of that round the other. */
  datatype Conn = Conn(from: nat, to: nat, clock: nat, round: nat, stage: Stage)

  /**
   History: (i, j) is in `sent` when an exchange between them was heard during i's current round, and
   in `met` when j's clock was then at least i's.
   */
  datatype State = State(nodes: seq<Node>, conns: seq<Conn>, sent: set<(nat, nat)>, met: set<(nat, nat)>)

  datatype Action =
    | Enter(i: nat)
    | BindFails(i: nat)
    | EnterAlone(i: nat)
    | Connect(i: nat, j: nat)
    | Hear(k: nat)
    | Answer(k: nat)
    | AnswerFails(k: nat)
    | ReadReply(i: nat)
    | PollFails(i: nat)
    | Drain(i: nat)
    | Break(i: nat)
    | Return(i: nat)

  function Max(a: nat, b: nat): (r: nat) { if a < b then b else a }

  /** The node a heard address stands for: the first of the other nodes that has it. */
  function Position(net: seq<nat>, me: nat, addr: nat, from: nat := 0): (p: Option<nat>)
    ensures p.Some? ==> p.value < |net| && p.value != me && net[p.value] == addr
    ensures p.None? ==> forall j :: from <= j < |net| && j != me ==> net[j] != addr
    decreases |net| - from
  {
    if from >= |net| then None
    else if from != me && net[from] == addr then Some(from)
    else Position(net, me, addr, from + 1)
  }

  function Initial(n: nat): (r: State) {
    State(seq(n, i => Node(0, Outside, seq(n, j => 0), [], None, false, 0, {})), [], {}, {})
  }

  function Set(s: State, i: nat, n: Node): (r: State)
    requires i < |s.nodes|
  {
    s.(nodes := s.nodes[i := n])
  }

  predicate Responding(n: Node) { n.phase == Polling || n.phase == Closing }

  ghost predicate Can(s: State, a: Action) {
    match a
    case Enter(i) => i < |s.nodes| && s.nodes[i].phase == Outside && |s.nodes| > 1
    case BindFails(i) => i < |s.nodes| && s.nodes[i].phase == Outside && |s.nodes| > 1
    case EnterAlone(i) => i < |s.nodes| && s.nodes[i].phase == Outside && |s.nodes| == 1
    case Connect(i, j) =>
      i < |s.nodes| && j < |s.nodes| && i != j && s.nodes[i].phase == Polling && s.nodes[i].poll == None &&
      j < |s.nodes[i].known| && s.nodes[i].known[j] < s.nodes[i].clock && Responding(s.nodes[j])
    case Hear(k) => AtTarget(s, k, Sent)
    case Answer(k) => AtTarget(s, k, Heard)
    case AnswerFails(k) => AtTarget(s, k, Heard)
    case ReadReply(i) =>
      i < |s.nodes| && s.nodes[i].poll.Some? && s.nodes[i].poll.value < |s.conns| &&
      s.conns[s.nodes[i].poll.value].stage == Replied && s.conns[s.nodes[i].poll.value].to < |s.nodes[i].known|
    case PollFails(i) => i < |s.nodes| && s.nodes[i].poll.Some?
    case Drain(i) => i < |s.nodes| && s.nodes[i].phase == Polling && s.nodes[i].poll == None && s.nodes[i].seen != []
    case Break(i) =>
      i < |s.nodes| && s.nodes[i].phase == Polling && s.nodes[i].poll == None &&
      forall j :: 0 <= j < |s.nodes[i].known| && j != i ==> s.nodes[i].known[j] >= s.nodes[i].clock
    case Return(i) =>
      i < |s.nodes| && s.nodes[i].phase == Closing &&
      forall k :: 0 <= k < |s.conns| && s.conns[k].to == i && s.conns[k].round == s.nodes[i].clock ==>
        s.conns[k].stage != Heard
  }

  /** The connection is in the backlog, or in the hands, of the responder it was made to. */
  ghost predicate AtTarget(s: State, k: nat, stage: Stage) {
    && k < |s.conns| && s.conns[k].stage == stage && s.conns[k].from < |s.nodes| && s.conns[k].to < |s.nodes|
    && Responding(s.nodes[s.conns[k].to]) && s.conns[k].round == s.nodes[s.conns[k].to].clock
  }

  function Raise(known: seq<nat>, j: nat, clock: nat): (r: seq<nat>) {
    if j < |known| then known[j := Max(known[j], clock)] else known
  }

  function Without(pairs: set<(nat, nat)>, i: nat): (r: set<(nat, nat)>) { set p | p in pairs && p.0 != i }

  function Staged(s: State, k: nat, stage: Stage): (r: seq<Conn>)
    requires k < |s.conns|
  {
    s.conns[k := s.conns[k].(stage := stage)]
  }

  predicate EntryAction(a: Action) { a.Enter? || a.BindFails? || a.EnterAlone? }

  /** Raising the clock: with the port bound, without, or with nobody to wait for. */
  ghost function EntryAct(net: seq<nat>, s: State, a: Action): (r: State)
    requires |net| == |s.nodes| && Can(s, a) && EntryAction(a)
  {
    match a
    case Enter(i) =>
      var n := s.nodes[i];
      s.(nodes := s.nodes[i := n.(clock := n.clock + 1, phase := Polling, seen := [], left := false,
                                  early := set j | 0 <= j < |n.known| && n.known[j] >= n.clock + 1)],
         sent := Without(s.sent, i), met := Without(s.met, i))
    case BindFails(i) =>
      var n := s.nodes[i];
      s.(nodes := s.nodes[i := n.(clock := n.clock + 1, left := false, fails := n.fails + 1, early := {})],
         sent := Without(s.sent, i), met := Without(s.met, i))
    case EnterAlone(i) =>
      var n := s.nodes[i];
      Set(s, i, n.(clock := n.clock + 1, left := true, early := {}))
  }

  predicate WireAction(a: Action) { a.Connect? || a.Hear? || a.Answer? || a.AnswerFails? || a.ReadReply? }

  /** The two ends of a poll. */
  ghost function WireAct(net: seq<nat>, s: State, a: Action): (r: State)
    requires |net| == |s.nodes| && Can(s, a) && WireAction(a)
  {
    match a
    case Connect(i, j) =>
      s.(nodes := s.nodes[i := s.nodes[i].(poll := Some(|s.conns|))],
         conns := s.conns + [Conn(i, j, s.nodes[i].clock, s.nodes[j].clock, Sent)])
    case Hear(k) =>
      // The request is read and reported before the reply is sent.
      var c := s.conns[k];
      var t := s.nodes[c.to];
      var current := c.clock == s.nodes[c.from].clock;
      s.(nodes := s.nodes[c.to := t.(seen := t.seen + [Seen(net[c.from], c.clock)])], conns := Staged(s, k, Heard),
         sent := s.sent + {(c.to, c.from)} + (if current then {(c.from, c.to)} else {}),
         met := s.met + (if t.clock <= c.clock then {(c.to, c.from)} else {}) +
                (if current && c.clock <= t.clock then {(c.from, c.to)} else {}))
    case Answer(k) => s.(conns := Staged(s, k, Replied))
    case AnswerFails(k) => s.(conns := Staged(s, k, Done))
    case ReadReply(i) =>
      var n := s.nodes[i];
      var c := s.conns[n.poll.value];
      s.(nodes := s.nodes[i := n.(known := Raise(n.known, c.to, c.round), poll := None)],
         conns := Staged(s, n.poll.value, Done))
  }

  predicate LocalAction(a: Action) { a.PollFails? || a.Drain? || a.Break? || a.Return? }

  /** A node on its own: giving a poll up, draining what was heard, leaving. */
  ghost function LocalAct(net: seq<nat>, s: State, a: Action): (r: State)
    requires |net| == |s.nodes| && Can(s, a) && LocalAction(a)
  {
    match a
    case PollFails(i) => Set(s, i, s.nodes[i].(poll := None))
    case Drain(i) =>
      var n := s.nodes[i];
      var p := Position(net, i, n.seen[0].addr);
      Set(s, i, n.(seen := n.seen[1..], known := if p.Some? then Raise(n.known, p.value, n.seen[0].clock) else n.known))
    case Break(i) => Set(s, i, s.nodes[i].(phase := Closing))
    case Return(i) => Set(s, i, s.nodes[i].(phase := Outside, seen := [], left := true))
  }

  ghost function Do(net: seq<nat>, s: State, a: Action): (r: State)
    requires |net| == |s.nodes| && Can(s, a)
  {
    if EntryAction(a) then EntryAct(net, s, a)
    else if WireAction(a) then WireAct(net, s, a)
    else LocalAct(net, s, a)
  }

  ghost predicate Distinct(net: seq<nat>) { forall i, j :: 0 <= i < j < |net| ==> net[i] != net[j] }

  // ----- Safety -----

  ghost predicate ClocksFit(net: seq<nat>, s: State) {
    && |s.nodes| == |net|
    && (forall i :: 0 <= i < |net| ==> |s.nodes[i].known| == |net|)
    && (forall i, j :: 0 <= i < |net| && 0 <= j < |net| ==> s.nodes[i].known[j] <= s.nodes[j].clock)
    && (forall i, e :: 0 <= i < |net| && e in s.nodes[i].seen ==> SeenFits(net, s, i, e))
    && (forall k :: 0 <= k < |s.conns| ==> ConnFits(net, s, s.conns[k]))
  }

  /** A heard clock is no higher than the clock of the node it came from. */
  ghost predicate SeenFits(net: seq<nat>, s: State, i: nat, e: Seen)
    requires |s.nodes| == |net|
  {
    forall p :: 0 <= p < |net| && p != i && net[p] == e.addr ==> e.clock <= s.nodes[p].clock
  }

  ghost predicate ConnFits(net: seq<nat>, s: State, c: Conn)
    requires |s.nodes| == |net|
  {
    c.from < |net| && c.to < |net| && c.from != c.to && c.clock <= s.nodes[c.from].clock &&
      c.round <= s.nodes[c.to].clock
  }

  ghost predicate PollsFit(s: State) {
    forall i :: 0 <= i < |s.nodes| && s.nodes[i].poll.Some? ==> PollFits(s, i, s.nodes[i], s.nodes[i].poll.value)
  }

  ghost predicate PollFits(s: State, i: nat, n: Node, k: nat) {
    n.phase == Polling && k < |s.conns| && s.conns[k].from == i && s.conns[k].clock == n.clock
  }

  predicate Past(n: Node) { n.phase == Closing || n.left }

  /** A node past its barrier has heard every peer at its own clock. */
  ghost predicate LeaversKnow(s: State) {
    forall i, j :: 0 <= i < |s.nodes| && 0 <= j < |s.nodes[i].known| && i != j && Past(s.nodes[i]) ==>
      s.nodes[i].known[j] >= s.nodes[i].clock
  }

  ghost predicate ClocksClose(s: State) {
    forall i, j :: 0 <= i < |s.nodes| && 0 <= j < |s.nodes| && i != j ==>
      s.nodes[i].clock <= s.nodes[j].clock + s.nodes[i].fails + (if s.nodes[i].phase == Polling then 1 else 0)
  }

  ghost predicate Inv(net: seq<nat>, s: State) {
    ClocksFit(net, s) && PollsFit(s) && LeaversKnow(s) && ClocksClose(s)
  }

  lemma InitialFits(net: seq<nat>)
    ensures Inv(net, Initial(|net|))
  {}

  /** From `s` to `t` clocks only rise, and nothing is claimed about them that does not hold. */
  ghost predicate Honest(net: seq<nat>, s: State, t: State) {
    && |s.nodes| == |t.nodes| == |net| && |s.conns| <= |t.conns|
    && (forall i :: 0 <= i < |net| ==> s.nodes[i].clock <= t.nodes[i].clock && |t.nodes[i].known| == |s.nodes[i].known|)
    && (forall i, j :: 0 <= i < |net| && 0 <= j < |t.nodes[i].known| && j < |net| ==>
          t.nodes[i].known[j] <= t.nodes[j].clock || t.nodes[i].known[j] == s.nodes[i].known[j])
    && (forall i, e :: 0 <= i < |net| && e in t.nodes[i].seen ==> e in s.nodes[i].seen || SeenFits(net, s, i, e))
    && (forall k :: 0 <= k < |t.conns| ==>
          ConnFits(net, t, t.conns[k]) || (k < |s.conns| && SameEnds(s.conns[k], t.conns[k])))
  }

  predicate SameEnds(c: Conn, d: Conn) { c.(stage := d.stage) == d }

  lemma HonestKeepsClocks(net: seq<nat>, s: State, t: State)
    requires ClocksFit(net, s) && Honest(net, s, t)
    ensures ClocksFit(net, t)
  {
    forall i, e | 0 <= i < |net| && e in t.nodes[i].seen ensures SeenFits(net, t, i, e) {
      assert SeenFits(net, s, i, e);
    }
    forall k | 0 <= k < |t.conns| ensures ConnFits(net, t, t.conns[k]) {
      if k < |s.conns| { assert ConnFits(net, s, s.conns[k]); }
    }
  }

  /** A step that learns nothing is honest. */
  lemma QuietHonest(net: seq<nat>, s: State, t: State)
    requires ClocksFit(net, s) && |t.nodes| == |net| && |s.conns| <= |t.conns|
    requires forall i :: 0 <= i < |net| ==>
      s.nodes[i].clock <= t.nodes[i].clock && t.nodes[i].known == s.nodes[i].known &&
      (t.nodes[i].seen == s.nodes[i].seen || t.nodes[i].seen == [])
    requires forall k :: 0 <= k < |t.conns| ==>
      if k < |s.conns| then SameEnds(s.conns[k], t.conns[k]) else ConnFits(net, t, t.conns[k])
    ensures Honest(net, s, t)
  {
    hide SeenFits, ConnFits;
  }

  lemma EntrySame(net: seq<nat>, s: State, a: Action)
    requires |net| == |s.nodes| && Can(s, a) && EntryAction(a)
    ensures var t := EntryAct(net, s, a);
      |t.nodes| == |net| && t.conns == s.conns && forall i :: 0 <= i < |net| ==>
        s.nodes[i].clock <= t.nodes[i].clock && t.nodes[i].known == s.nodes[i].known &&
        (t.nodes[i].seen == s.nodes[i].seen || t.nodes[i].seen == [])
  {}

  lemma EntryHonest(net: seq<nat>, s: State, a: Action)
    requires ClocksFit(net, s) && Can(s, a) && EntryAction(a)
    ensures Honest(net, s, EntryAct(net, s, a))
  {
    SameLength(net, s);
    hide EntryAct, Can, ClocksFit, Honest;
    EntrySame(net, s, a);
    QuietHonest(net, s, EntryAct(net, s, a));
  }

  lemma HearHonest(net: seq<nat>, s: State, k: nat)
    requires Distinct(net) && ClocksFit(net, s) && Can(s, Hear(k))
    ensures Honest(net, s, WireAct(net, s, Hear(k)))
  {
    var c := s.conns[k];
    assert ConnFits(net, s, c);
    assert SeenFits(net, s, c.to, Seen(net[c.from], c.clock));
    HearSame(net, s, k);
    hide WireAct, SeenFits;
  }

  lemma HearSame(net: seq<nat>, s: State, k: nat)
    requires |net| == |s.nodes| && Can(s, Hear(k))
    ensures var t, c := WireAct(net, s, Hear(k)), s.conns[k];
      && |t.nodes| == |net| && |t.conns| == |s.conns|
      && (forall l :: 0 <= l < |s.conns| ==> SameEnds(s.conns[l], t.conns[l]))
      && (forall i :: 0 <= i < |net| ==>
            t.nodes[i].clock == s.nodes[i].clock && t.nodes[i].known == s.nodes[i].known &&
            t.nodes[i].seen == s.nodes[i].seen + if i == c.to then [Seen(net[c.from], c.clock)] else [])
  {}

  /** So is a step of one node that raises one entry no higher than its owner's clock. */
  lemma LearnHonest(net: seq<nat>, s: State, t: State, i: nat, p: nat, v: nat)
    requires ClocksFit(net, s) && i < |net| && p < |net| && |t.nodes| == |net|
    requires |t.conns| == |s.conns| && forall k :: 0 <= k < |s.conns| ==> SameEnds(s.conns[k], t.conns[k])
    requires forall j :: 0 <= j < |net| && j != i ==> t.nodes[j] == s.nodes[j]
    requires t.nodes[i].clock == s.nodes[i].clock && v <= s.nodes[p].clock
    requires t.nodes[i].known == s.nodes[i].known[p := v]
    requires forall e :: e in t.nodes[i].seen ==> e in s.nodes[i].seen
    ensures Honest(net, s, t)
  {
    hide SeenFits, ConnFits;
  }

  lemma ReadReplyHonest(net: seq<nat>, s: State, i: nat)
    requires ClocksFit(net, s) && Can(s, ReadReply(i))
    ensures Honest(net, s, WireAct(net, s, ReadReply(i)))
  {
    var c := s.conns[s.nodes[i].poll.value];
    assert ConnFits(net, s, c);
    ReadReplySame(net, s, i);
    var t := WireAct(net, s, ReadReply(i));
    hide WireAct, Honest;
    LearnHonest(net, s, t, i, c.to, Max(s.nodes[i].known[c.to], c.round));
  }

  lemma ReadReplySame(net: seq<nat>, s: State, i: nat)
    requires |net| == |s.nodes| && Can(s, ReadReply(i))
    ensures var t, c := WireAct(net, s, ReadReply(i)), s.conns[s.nodes[i].poll.value];
      && |t.nodes| == |net| && |t.conns| == |s.conns|
      && (forall k :: 0 <= k < |s.conns| ==> SameEnds(s.conns[k], t.conns[k]))
      && (forall j :: 0 <= j < |net| && j != i ==> t.nodes[j] == s.nodes[j])
      && t.nodes[i].clock == s.nodes[i].clock && t.nodes[i].seen == s.nodes[i].seen
      && t.nodes[i].known == s.nodes[i].known[c.to := Max(s.nodes[i].known[c.to], c.round)]
  {}

  lemma WireHonest(net: seq<nat>, s: State, a: Action)
    requires Distinct(net) && ClocksFit(net, s) && Can(s, a) && WireAction(a)
    ensures Honest(net, s, WireAct(net, s, a))
  {
    SameLength(net, s);
    hide WireAct, Can, ClocksFit, Honest, ConnFits;
    if a.Hear? {
      HearHonest(net, s, a.k);
    } else if a.ReadReply? {
      ReadReplyHonest(net, s, a.i);
    } else {
      WireQuiet(net, s, a);
      QuietHonest(net, s, WireAct(net, s, a));
    }
  }

  lemma WireQuiet(net: seq<nat>, s: State, a: Action)
    requires |net| == |s.nodes| && Can(s, a) && WireAction(a) && !a.Hear? && !a.ReadReply?
    ensures var t := WireAct(net, s, a);
      && |t.nodes| == |net| && |s.conns| <= |t.conns|
      && (forall i :: 0 <= i < |net| ==>
            t.nodes[i].clock == s.nodes[i].clock && t.nodes[i].known == s.nodes[i].known &&
              t.nodes[i].seen == s.nodes[i].seen)
      && (forall k :: 0 <= k < |t.conns| ==>
            if k < |s.conns| then SameEnds(s.conns[k], t.conns[k]) else ConnFits(net, t, t.conns[k]))
  {}

  lemma DrainHonest(net: seq<nat>, s: State, i: nat)
    requires ClocksFit(net, s) && Can(s, Drain(i))
    ensures Honest(net, s, LocalAct(net, s, Drain(i)))
  {
    var n := s.nodes[i];
    var e := n.seen[0];
    assert SeenFits(net, s, i, e);
    var p := Position(net, i, e.addr);
    var t := LocalAct(net, s, Drain(i));
    assert forall x :: x in n.seen[1..] ==> x in n.seen;
    hide LocalAct, Honest;
    if p.Some? {
      assert t.nodes[i].known == n.known[p.value := Max(n.known[p.value], e.clock)] by { DrainKnown(net, s, i); }
      LearnHonest(net, s, t, i, p.value, Max(n.known[p.value], e.clock));
    } else {
      LearnHonest(net, s, t, i, i, n.known[i]);
    }
  }

  lemma DrainKnown(net: seq<nat>, s: State, i: nat)
    requires |net| == |s.nodes| && Can(s, Drain(i))
    ensures var n, p := s.nodes[i], Position(net, i, s.nodes[i].seen[0].addr);
      LocalAct(net, s, Drain(i)).nodes[i].known == if p.Some? then Raise(n.known, p.value, n.seen[0].clock) else n.known
  {}

  lemma LocalHonest(net: seq<nat>, s: State, a: Action)
    requires ClocksFit(net, s) && Can(s, a) && LocalAction(a)
    ensures Honest(net, s, LocalAct(net, s, a))
  {
    SameLength(net, s);
    hide LocalAct, Can, ClocksFit, Honest;
    if a.Drain? {
      DrainHonest(net, s, a.i);
    } else {
      LocalQuiet(net, s, a);
      QuietHonest(net, s, LocalAct(net, s, a));
    }
  }

  lemma LocalQuiet(net: seq<nat>, s: State, a: Action)
    requires |net| == |s.nodes| && Can(s, a) && LocalAction(a) && !a.Drain?
    ensures var t := LocalAct(net, s, a);
      && |t.nodes| == |net| && t.conns == s.conns
      && (forall i :: 0 <= i < |net| ==>
            t.nodes[i].clock == s.nodes[i].clock && t.nodes[i].known == s.nodes[i].known &&
            (t.nodes[i].seen == s.nodes[i].seen || t.nodes[i].seen == []))
  {}

  lemma EntryKeepsPolls(net: seq<nat>, s: State, a: Action)
    requires ClocksFit(net, s) && PollsFit(s) && Can(s, a) && EntryAction(a)
    ensures PollsFit(EntryAct(net, s, a))
  {}

  lemma WireKeepsPolls(net: seq<nat>, s: State, a: Action)
    requires ClocksFit(net, s) && PollsFit(s) && Can(s, a) && WireAction(a)
    ensures PollsFit(WireAct(net, s, a))
  {}

  lemma LocalKeepsPolls(net: seq<nat>, s: State, a: Action)
    requires ClocksFit(net, s) && PollsFit(s) && Can(s, a) && LocalAction(a)
    ensures PollsFit(LocalAct(net, s, a))
  {}

  lemma EntryKeepsLeavers(net: seq<nat>, s: State, a: Action)
    requires ClocksFit(net, s) && LeaversKnow(s) && PollsFit(s) && Can(s, a) && EntryAction(a)
    ensures LeaversKnow(EntryAct(net, s, a))
  {}

  lemma WireKeepsLeavers(net: seq<nat>, s: State, a: Action)
    requires ClocksFit(net, s) && LeaversKnow(s) && PollsFit(s) && Can(s, a) && WireAction(a)
    ensures LeaversKnow(WireAct(net, s, a))
  {}

  lemma LocalKeepsLeavers(net: seq<nat>, s: State, a: Action)
    requires ClocksFit(net, s) && LeaversKnow(s) && PollsFit(s) && Can(s, a) && LocalAction(a)
    ensures LeaversKnow(LocalAct(net, s, a))
  {}

  lemma EntryKeepsClose(net: seq<nat>, s: State, a: Action)
    requires ClocksFit(net, s) && LeaversKnow(s) && ClocksClose(s) && Can(s, a) && EntryAction(a)
    ensures ClocksClose(EntryAct(net, s, a))
  {}

  lemma WireSame(net: seq<nat>, s: State, a: Action)
    requires |net| == |s.nodes| && Can(s, a) && WireAction(a)
    ensures var t := WireAct(net, s, a);
      |t.nodes| == |net| && forall i :: 0 <= i < |net| ==>
        t.nodes[i].clock == s.nodes[i].clock && t.nodes[i].phase == s.nodes[i].phase &&
        t.nodes[i].fails == s.nodes[i].fails && t.nodes[i].left == s.nodes[i].left &&
          t.nodes[i].early == s.nodes[i].early
  {}

  lemma WireKeepsClose(net: seq<nat>, s: State, a: Action)
    requires |net| == |s.nodes| && ClocksClose(s) && Can(s, a) && WireAction(a)
    ensures ClocksClose(WireAct(net, s, a))
  {
    hide WireAct, Can;
    WireSame(net, s, a);
  }

  lemma LocalKeepsClose(net: seq<nat>, s: State, a: Action)
    requires ClocksFit(net, s) && LeaversKnow(s) && ClocksClose(s) && Can(s, a) && LocalAction(a)
    ensures ClocksClose(LocalAct(net, s, a))
  {
    SameLength(net, s);
    hide LocalAct, Can, LeaversKnow, ClocksFit;
    if a.Break? {
      BreakKeepsClose(net, s, a.i);
    } else {
      LocalSame(net, s, a);
    }
  }

  lemma LocalSame(net: seq<nat>, s: State, a: Action)
    requires |net| == |s.nodes| && Can(s, a) && LocalAction(a) && !a.Break?
    ensures var t := LocalAct(net, s, a);
      |t.nodes| == |net| && forall i :: 0 <= i < |net| ==>
        t.nodes[i].clock == s.nodes[i].clock && t.nodes[i].fails == s.nodes[i].fails &&
        (t.nodes[i].phase == Polling <==> s.nodes[i].phase == Polling)
  {}

  /** Whoever leaves the loop has heard every peer at its round. */
  lemma BreakKeepsClose(net: seq<nat>, s: State, i: nat)
    requires ClocksFit(net, s) && ClocksClose(s) && Can(s, Break(i))
    ensures ClocksClose(LocalAct(net, s, Break(i)))
  {}

  lemma StepKeeps(net: seq<nat>, s: State, a: Action)
    requires Distinct(net) && Inv(net, s) && Can(s, a)
    ensures Inv(net, Do(net, s, a))
  {
    hide Can, ClocksFit, PollsFit, LeaversKnow, ClocksClose, Honest, EntryAct, WireAct, LocalAct;
    SameLength(net, s);
    if EntryAction(a) {
      EntryHonest(net, s, a); EntryKeepsPolls(net, s, a); EntryKeepsLeavers(net, s, a); EntryKeepsClose(net, s, a);
    } else if WireAction(a) {
      WireHonest(net, s, a); WireKeepsPolls(net, s, a); WireKeepsLeavers(net, s, a); WireKeepsClose(net, s, a);
    } else {
      LocalHonest(net, s, a); LocalKeepsPolls(net, s, a); LocalKeepsLeavers(net, s, a); LocalKeepsClose(net, s, a);
    }
    HonestKeepsClocks(net, s, Do(net, s, a));
  }

  lemma SameLength(net: seq<nat>, s: State)
    requires ClocksFit(net, s)
    ensures |net| == |s.nodes|
  {}

  // ----- Runs -----

  ghost predicate Run(net: seq<nat>, states: seq<State>, actions: seq<Action>) {
    && |states| == |actions| + 1 && states[0] == Initial(|net|)
    && forall m :: 0 <= m < |actions| ==>
         |states[m].nodes| == |net| && Can(states[m], actions[m]) && states[m + 1] == Do(net, states[m], actions[m])
  }

  lemma {:induction false} RunKeeps(net: seq<nat>, states: seq<State>, actions: seq<Action>, m: nat)
    requires Distinct(net) && Run(net, states, actions) && m < |states|
    ensures Inv(net, states[m])
  {
    hide Inv, Can, Do;
    if m == 0 {
      InitialFits(net);
    } else {
      RunKeeps(net, states, actions, m - 1);
      StepKeeps(net, states[m - 1], actions[m - 1]);
    }
  }

  /** How often node `j` has called `synch` in the first `m` steps. */
  function Entries(actions: seq<Action>, m: nat, j: nat): (r: nat)
    requires m <= |actions|
  {
    if m == 0 then 0
    else Entries(actions, m - 1, j) + if EntryAction(actions[m - 1]) && actions[m - 1].i == j then 1 else 0
  }

  /** A node's clock is the number of its calls. */
  lemma {:induction false} ClockCountsCalls(net: seq<nat>, states: seq<State>, actions: seq<Action>, m: nat, j: nat)
    requires Run(net, states, actions) && m < |states| && j < |net|
    ensures |states[m].nodes| == |net| && states[m].nodes[j].clock == Entries(actions, m, j)
  {
    hide Do, Can;
    if m > 0 {
      ClockCountsCalls(net, states, actions, m - 1, j);
      ClockStep(net, states[m - 1], actions[m - 1], j);
    }
  }

  lemma ClockStep(net: seq<nat>, s: State, a: Action, j: nat)
    requires |net| == |s.nodes| && Can(s, a) && j < |net|
    ensures var t := Do(net, s, a);
      |t.nodes| == |net| && t.nodes[j].clock == s.nodes[j].clock + (if EntryAction(a) && a.i == j then 1 else 0)
  {}

  /**
   The barrier: whenever a node returns from its r-th `synch`, every node has called `synch` at
   least r times.  For any number of nodes with distinct addresses, any number of rounds, and
   polls that are lost, delayed, or answered after the poller gave up.
   */
  lemma BarrierHolds(net: seq<nat>, states: seq<State>, actions: seq<Action>, m: nat, i: nat, j: nat)
    requires Distinct(net) && Run(net, states, actions) && m < |actions| && i < |net| && j < |net|
    requires actions[m] == Return(i) || actions[m] == EnterAlone(i)
    ensures Entries(actions, m + 1, j) >= Entries(actions, m + 1, i)
  {
    ClockCountsCalls(net, states, actions, m, i);
    ClockCountsCalls(net, states, actions, m, j);
    hide Do;
    RunKeeps(net, states, actions, m);
    assert |net| == |states[m].nodes|;
    if actions[m] == Return(i) && i != j {
      var s := states[m];
      assert s.nodes[i].known[j] >= s.nodes[i].clock;
      assert s.nodes[i].known[j] <= s.nodes[j].clock;
    }
  }

  /** Two clocks never differ by more than one, plus the higher node's failed binds. */
  lemma ClocksStayClose(net: seq<nat>, states: seq<State>, actions: seq<Action>, m: nat, i: nat, j: nat)
    requires Distinct(net) && Run(net, states, actions) && m < |states| && i < |net| && j < |net|
    ensures |states[m].nodes| == |net|
    ensures states[m].nodes[i].clock <= states[m].nodes[j].clock + states[m].nodes[i].fails + 1
  {
    hide Can, Do;
    RunKeeps(net, states, actions, m);
  }

  lemma FailsStep(net: seq<nat>, s: State, a: Action, j: nat)
    requires |net| == |s.nodes| && Can(s, a) && j < |net|
    ensures var t := Do(net, s, a);
      |t.nodes| == |net| && t.nodes[j].fails == s.nodes[j].fails + (if a == BindFails(j) then 1 else 0)
  {}

  lemma {:induction false} NoFails(net: seq<nat>, states: seq<State>, actions: seq<Action>, m: nat, j: nat)
    requires Run(net, states, actions) && m < |states| && j < |net|
    requires forall l :: 0 <= l < |actions| ==> !actions[l].BindFails?
    ensures |states[m].nodes| == |net| && states[m].nodes[j].fails == 0
  {
    hide Do, Can;
    if m > 0 {
      NoFails(net, states, actions, m - 1, j);
      FailsStep(net, states[m - 1], actions[m - 1], j);
    }
  }

  /** If no bind ever fails, no two clocks ever differ by more than one. */
  lemma ClocksWithinOne(net: seq<nat>, states: seq<State>, actions: seq<Action>, m: nat, i: nat, j: nat)
    requires Distinct(net) && Run(net, states, actions) && m < |states| && i < |net| && j < |net|
    requires forall l :: 0 <= l < |actions| ==> !actions[l].BindFails?
    ensures |states[m].nodes| == |net| && states[m].nodes[i].clock <= states[m].nodes[j].clock + 1
  {
    ClocksStayClose(net, states, actions, m, i, j);
    NoFails(net, states, actions, m, i);
  }

  /** The bound is attained: after `f` failed binds and one entry a node is `f` + 1 ahead of one that never called. */
  lemma {:induction false} BoundIsAttained(net: seq<nat>, f: nat)
    requires |net| > 1
    ensures exists states: seq<State>, actions: seq<Action> :: Run(net, states, actions) && Ahead(states[|actions|], f)
  {
    var states, actions := FailOften(net, f);
    var s := states[|actions|];
    assert Can(s, Enter(0));
    var t := Do(net, s, Enter(0));
    assert Run(net, states + [t], actions + [Enter(0)]) by { RunExtends(net, states, actions, Enter(0)); }
    assert (states + [t])[|actions + [Enter(0)]|] == t;
  }

  ghost predicate Ahead(s: State, f: nat) {
    |s.nodes| > 1 && s.nodes[0].clock == f + 1 && s.nodes[0].fails == f && s.nodes[1].clock == 0
  }

  lemma RunExtends(net: seq<nat>, states: seq<State>, actions: seq<Action>, a: Action)
    requires Run(net, states, actions) && |states[|actions|].nodes| == |net| && Can(states[|actions|], a)
    ensures Run(net, states + [Do(net, states[|actions|], a)], actions + [a])
  {
    hide Can, Do, Initial;
    var more := states + [Do(net, states[|actions|], a)];
    assert forall m :: 0 <= m < |states| ==> more[m] == states[m];
  }

  lemma {:induction false} FailOften(net: seq<nat>, f: nat) returns (states: seq<State>, actions: seq<Action>)
    requires |net| > 1
    ensures Run(net, states, actions)
    ensures var s := states[|actions|];
      |s.nodes| == |net| && s.nodes[0].clock == f && s.nodes[0].fails == f && s.nodes[0].phase == Outside &&
        s.nodes[1].clock == 0
  {
    if f == 0 {
      states, actions := [Initial(|net|)], [];
    } else {
      states, actions := FailOften(net, f - 1);
      var s := states[|actions|];
      RunExtends(net, states, actions, BindFails(0));
      states, actions := states + [Do(net, s, BindFails(0))], actions + [BindFails(0)];
    }
  }
}
