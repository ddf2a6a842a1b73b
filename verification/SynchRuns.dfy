/**
 The barrier's state machine runs the node's own code (tests/common/mod.rs): in every run, one call of
 a node, from its entry to its return, is a sequence of laps of its loop.
 */
module SynchRuns {
  import opened Common
  import opened Barrier
  import opened Synch

  // ----- A node polls only peers that are behind, and they stay so until the reply is read -----

  ghost predicate PollsBehind(s: State) {
    forall i :: 0 <= i < |s.nodes| && s.nodes[i].poll.Some? ==> PollBehind(s, i, s.nodes[i].poll.value)
  }

  ghost predicate PollBehind(s: State, i: nat, k: nat)
    requires i < |s.nodes|
  {
    && k < |s.conns| && s.conns[k].to != i && s.conns[k].to < |s.nodes[i].known|
    && s.nodes[i].known[s.conns[k].to] < s.nodes[i].clock
  }

  lemma EntryKeepsBehind(net: seq<nat>, s: State, a: Action)
    requires PollsBehind(s) && PollsFit(s) && |s.nodes| == |net| && Can(s, a) && EntryAction(a)
    ensures PollsBehind(EntryAct(net, s, a))
  {}

  lemma WireKeepsBehind(net: seq<nat>, s: State, a: Action)
    requires PollsBehind(s) && |s.nodes| == |net| && Can(s, a) && WireAction(a)
    ensures PollsBehind(WireAct(net, s, a))
  {}

  lemma LocalKeepsBehind(net: seq<nat>, s: State, a: Action)
    requires PollsBehind(s) && |s.nodes| == |net| && Can(s, a) && LocalAction(a)
    ensures PollsBehind(LocalAct(net, s, a))
  {}

  lemma {:induction false} RunBehind(net: seq<nat>, states: seq<State>, actions: seq<Action>, m: nat)
    requires Distinct(net) && Run(net, states, actions) && m < |states|
    ensures PollsBehind(states[m])
  {
    hide Inv, PollsBehind, Can, EntryAct, WireAct, LocalAct, Initial;
    if m == 0 {
      NoPolls(|net|);
    } else {
      RunBehind(net, states, actions, m - 1);
      RunKeeps(net, states, actions, m - 1);
      var s, a := states[m - 1], actions[m - 1];
      PollsOf(net, s);
      if EntryAction(a) { EntryKeepsBehind(net, s, a); }
      else if WireAction(a) { WireKeepsBehind(net, s, a); }
      else { LocalKeepsBehind(net, s, a); }
    }
  }

  lemma NoPolls(n: nat)
    ensures PollsBehind(Initial(n))
  {}

  lemma PollsOf(net: seq<nat>, s: State)
    requires Inv(net, s)
    ensures PollsFit(s) && |s.nodes| == |net| && forall i :: 0 <= i < |net| ==> |s.nodes[i].known| == |net|
  {}

  // ----- The laps of a stretch of a run -----

  /** One peer's reply and nobody else's. */
  function OneReply(n: nat, p: nat, clock: nat): (r: seq<Option<nat>>)
    ensures |r| == n
  {
    seq(n, j => if j == p then Some(clock) else None)
  }

  /** The place of node `j` among the others. */
  function Place(i: nat, j: nat): (p: nat)
    requires i != j
  {
    if j < i then j else j - 1
  }

  /** The laps node `i` has run since state `a`, and what it has recorded since the last of them. */
  ghost function Extract(states: seq<State>, actions: seq<Action>, i: nat, a: nat, m: nat): (r: (seq<Lap>, seq<Seen>))
    requires a <= m < |states| && |states| == |actions| + 1
  {
    if m == a then ([], [])
    else
      var (laps, heard) := Extract(states, actions, i, a, m - 1);
      Extracted(states[m - 1], actions[m - 1], i, laps, heard)
  }

  function Extracted(s: State, a: Action, i: nat, laps: seq<Lap>, heard: seq<Seen>): (r: (seq<Lap>, seq<Seen>)) {
    if i >= |s.nodes| then (laps, heard)
    else if a == Barrier.Action.Drain(i) && s.nodes[i].seen != [] then (laps, heard + [s.nodes[i].seen[0]])
    else if a == ReadReply(i) && s.nodes[i].poll.Some? && s.nodes[i].poll.value < |s.conns| &&
            s.conns[s.nodes[i].poll.value].to != i && s.nodes[i].known != [] then
      var c := s.conns[s.nodes[i].poll.value];
      (laps + [Lap(heard, OneReply(|s.nodes[i].known| - 1, Place(i, c.to), c.round))], [])
    else (laps, heard)
  }

  lemma {:induction false} LapsAppend(peers: seq<nat>, known: seq<nat>, round: nat, laps: seq<Lap>, lap: Lap)
    requires |known| == |peers| && !Laps(peers, known, round, laps).1
    ensures var noted := Noted(peers, Laps(peers, known, round, laps).0, lap.heard);
      Laps(peers, known, round, laps + [lap]) ==
        if All(noted, round) then (noted, true) else (Polled(noted, round, lap), false)
    decreases |laps|
  {
    if laps == [] {
      assert [] + [lap] == [lap] && [lap][1..] == [];
    } else {
      var noted := Noted(peers, known, laps[0].heard);
      assert (laps + [lap])[0] == laps[0] && (laps + [lap])[1..] == laps[1..] + [lap];
      LapsAppend(peers, Polled(noted, round, laps[0]), round, laps[1..], lap);
    }
  }

  /** What has been recorded so far is what the laps so far, and what was heard since, come to. */
  ghost predicate Agrees(net: seq<nat>, known: seq<nat>, s: State, i: nat, laps: seq<Lap>, heard: seq<Seen>) {
    && |known| == |net| && i < |net| && i < |s.nodes| && |s.nodes[i].known| == |net|
    && var peers, before := Others(net, i), Others(known, i);
       var r := Laps(peers, before, s.nodes[i].clock, laps);
       !r.1 && Others(s.nodes[i].known, i) == Noted(peers, r.0, heard)
  }

  lemma DrainAgrees(net: seq<nat>, known: seq<nat>, s: State, i: nat, laps: seq<Lap>, heard: seq<Seen>)
    requires |net| == |s.nodes| && Can(s, Barrier.Action.Drain(i)) && Agrees(net, known, s, i, laps, heard)
    ensures var t := LocalAct(net, s, Barrier.Action.Drain(i));
      |t.nodes| == |net| && Agrees(net, known, t, i, laps, heard + [s.nodes[i].seen[0]])
  {
    DrainIsNote(net, s, i);
    assert (heard + [s.nodes[i].seen[0]])[..|heard|] == heard;
    hide Note, Laps;
  }

  lemma ReplyAgrees(net: seq<nat>, known: seq<nat>, s: State, i: nat, laps: seq<Lap>, heard: seq<Seen>)
    requires |net| == |s.nodes| && PollsBehind(s) && Can(s, ReadReply(i)) && Agrees(net, known, s, i, laps, heard)
    ensures s.conns[s.nodes[i].poll.value].to != i
    ensures var t, c := WireAct(net, s, ReadReply(i)), s.conns[s.nodes[i].poll.value];
      |t.nodes| == |net| &&
      Agrees(net, known, t, i, laps + [Lap(heard, OneReply(|net| - 1, Place(i, c.to), c.round))], [])
  {
    assert PollBehind(s, i, s.nodes[i].poll.value);
    var c := s.conns[s.nodes[i].poll.value];
    var lap := Lap(heard, OneReply(|net| - 1, Place(i, c.to), c.round));
    var t := WireAct(net, s, ReadReply(i));
    LapsAppend(Others(net, i), Others(known, i), s.nodes[i].clock, laps, lap);
    assert Others(s.nodes[i].known, i)[Place(i, c.to)] < s.nodes[i].clock;
    RaiseIsPoll(s.nodes[i].known, i, c.to, c.round, s.nodes[i].clock, lap);
    hide Laps, OneReply;
  }

  lemma RaiseIsPoll(known: seq<nat>, i: nat, j: nat, clock: nat, round: nat, lap: Lap)
    requires i < |known| && j < |known| && i != j && known[j] < round
    requires lap.replies == OneReply(|known| - 1, Place(i, j), clock)
    ensures Others(Raise(known, j, clock), i) == Polled(Others(known, i), round, lap)
  {}

  /** Steps of other nodes, and a node's own polls and failures, record nothing. */
  lemma OtherStepSame(net: seq<nat>, s: State, a: Action, i: nat)
    requires |net| == |s.nodes| && Can(s, a) && i < |net|
    requires a != Barrier.Action.Drain(i) && a != ReadReply(i) && !(EntryAction(a) && a.i == i)
    ensures var t := Do(net, s, a);
      |t.nodes| == |net| && t.nodes[i].known == s.nodes[i].known && t.nodes[i].clock == s.nodes[i].clock
  {}

  lemma NoEntryInside(s: State, a: Action, i: nat)
    requires Can(s, a) && i < |s.nodes| && s.nodes[i].phase != Outside
    ensures !(EntryAction(a) && a.i == i)
  {}

  ghost predicate Throughout(states: seq<State>, i: nat, a: nat, b: nat, phase: Phase) {
    forall m :: a <= m <= b && m < |states| ==> i < |states[m].nodes| && states[m].nodes[i].phase == phase
  }

  /** While a node is in its loop, its table is that of the laps extracted so far. */
  lemma {:induction false} LoopIsLaps(net: seq<nat>, states: seq<State>, actions: seq<Action>, i: nat, a: nat, m: nat)
    requires Distinct(net) && Run(net, states, actions) && a <= m < |states| && i < |net|
    requires Throughout(states, i, a, m, Polling)
    ensures |states[a].nodes| == |states[m].nodes| == |net| && states[m].nodes[i].clock == states[a].nodes[i].clock
    ensures var (laps, heard) := Extract(states, actions, i, a, m);
      Agrees(net, states[a].nodes[i].known, states[m], i, laps, heard)
  {
    hide Inv, PollsBehind, Can, Do, Initial, Agrees, Extracted;
    RunKeeps(net, states, actions, a);
    PollsOf(net, states[a]);
    if m == a {
      NothingExtracted(net, states[a], i);
    } else {
      LoopIsLaps(net, states, actions, i, a, m - 1);
      RunBehind(net, states, actions, m - 1);
      var (laps, heard) := Extract(states, actions, i, a, m - 1);
      LoopStep(net, states[a].nodes[i].known, states[m - 1], actions[m - 1], i, laps, heard);
    }
  }

  lemma NothingExtracted(net: seq<nat>, s: State, i: nat)
    requires |s.nodes| == |net| && i < |net| && |s.nodes[i].known| == |net|
    ensures Agrees(net, s.nodes[i].known, s, i, [], [])
  {}

  lemma LoopStep(net: seq<nat>, known: seq<nat>, s: State, a: Action, i: nat, laps: seq<Lap>, heard: seq<Seen>)
    requires |net| == |s.nodes| && PollsBehind(s) && Can(s, a) && i < |net| && s.nodes[i].phase == Polling
    requires Agrees(net, known, s, i, laps, heard)
    ensures var t := Do(net, s, a);
      var (more, left) := Extracted(s, a, i, laps, heard);
      |t.nodes| == |net| && t.nodes[i].clock == s.nodes[i].clock && Agrees(net, known, t, i, more, left)
  {
    NoEntryInside(s, a, i);
    if a == Barrier.Action.Drain(i) {
      DrainAgrees(net, known, s, i, laps, heard);
    } else if a == ReadReply(i) {
      ReplyAgrees(net, known, s, i, laps, heard);
    } else {
      OtherStepSame(net, s, a, i);
      hide Laps, Noted, Do, Can;
    }
    hide Laps, Noted, PollsBehind;
  }

  /** Between the loop and the return the table stands. */
  lemma {:induction false} ClosingKeeps(net: seq<nat>, states: seq<State>, actions: seq<Action>, i: nat, a: nat, m: nat)
    requires Distinct(net) && Run(net, states, actions) && a <= m < |states| && i < |net|
    requires Throughout(states, i, a, m, Closing)
    ensures |states[m].nodes| == |states[a].nodes| == |net| && states[m].nodes[i].known == states[a].nodes[i].known
  {
    hide Inv, Can, Do, Initial;
    RunKeeps(net, states, actions, m);
    PollsOf(net, states[m]);
    if a < m {
      ClosingKeeps(net, states, actions, i, a, m - 1);
      RunKeeps(net, states, actions, m - 1);
      PollsOf(net, states[m - 1]);
      ClosingStep(net, states[m - 1], actions[m - 1], i);
    } else {
      RunKeeps(net, states, actions, a);
    }
  }

  lemma ClosingStep(net: seq<nat>, s: State, a: Action, i: nat)
    requires |net| == |s.nodes| && PollsFit(s) && Can(s, a) && i < |net| && s.nodes[i].phase == Closing
    ensures |Do(net, s, a).nodes| == |net| && Do(net, s, a).nodes[i].known == s.nodes[i].known
  {
    NoEntryInside(s, a, i);
    OtherStepSame(net, s, a, i);
  }

  /** Node `i` enters at step `e`, leaves its loop at step `b`, and returns at step `r`. */
  ghost predicate OneCall(states: seq<State>, actions: seq<Action>, i: nat, e: nat, b: nat, r: nat) {
    && e < b < r < |actions| && |states| == |actions| + 1
    && actions[e] == Enter(i) && actions[b] == Break(i) && actions[r] == Return(i)
    && Throughout(states, i, e + 1, b, Polling) && Throughout(states, i, b + 1, r, Closing)
  }

  /** `synch`, called by node `i` with the table of `s` and given these laps, gets through with the table of `t`. */
  ghost predicate GetsThrough(net: seq<nat>, s: State, t: State, i: nat, laps: seq<Lap>) {
    && |s.nodes| == |t.nodes| == |net| && i < |net| && |s.nodes[i].known| == |t.nodes[i].known| == |net|
    && Laps(Others(net, i), Others(s.nodes[i].known, i), s.nodes[i].clock + 1, laps) ==
         (Others(t.nodes[i].known, i), true)
  }

  lemma EnterAndReturn(net: seq<nat>, s: State, i: nat)
    requires |net| == |s.nodes|
    ensures Can(s, Enter(i)) ==> var t := Do(net, s, Enter(i));
      |t.nodes| == |net| && t.nodes[i].known == s.nodes[i].known && t.nodes[i].clock == s.nodes[i].clock + 1
    ensures Can(s, Break(i)) ==> var t := Do(net, s, Break(i));
      |t.nodes| == |net| && t.nodes[i].known == s.nodes[i].known
    ensures Can(s, Return(i)) ==> var t := Do(net, s, Return(i));
      |t.nodes| == |net| && t.nodes[i].known == s.nodes[i].known
  {}

  /**
   Refinement.  In every run of the machine, each call of each node that returns is a call of the
   node's code: given the laps extracted from that very run, what it drained and what its polls
   brought back in the order they did, `synch` takes the table the node had on entry to the table it
   has on return, and gets through.
   */
  lemma CallIsLaps(net: seq<nat>, states: seq<State>, actions: seq<Action>, i: nat, e: nat, b: nat, r: nat)
    requires Distinct(net) && Run(net, states, actions) && i < |net| && OneCall(states, actions, i, e, b, r)
    ensures var (laps, heard) := Extract(states, actions, i, e + 1, b);
      GetsThrough(net, states[e], states[r + 1], i, laps + [Lap(heard, [])])
  {
    hide Inv, Can, Do, Initial, Laps, Noted, Extracted;
    var (laps, heard) := Extract(states, actions, i, e + 1, b);
    LoopIsLaps(net, states, actions, i, e + 1, b);
    ClosingKeeps(net, states, actions, i, b + 1, r);
    EnterAndReturn(net, states[e], i);
    EnterAndReturn(net, states[b], i);
    EnterAndReturn(net, states[r], i);
    RunKeeps(net, states, actions, e);
    PollsOf(net, states[e]);
    var before, clock := Others(states[e].nodes[i].known, i), states[b].nodes[i].clock;
    LapsAppend(Others(net, i), before, clock, laps, Lap(heard, []));
    LeavesWithAll(states[b], i);
    assert GetsThrough(net, states[e], states[r + 1], i, laps + [Lap(heard, [])]);
  }

  lemma LeavesWithAll(s: State, i: nat)
    requires Can(s, Break(i)) && i < |s.nodes[i].known|
    ensures All(Others(s.nodes[i].known, i), s.nodes[i].clock)
  {
    BreakIsAll(s, i);
  }
}
