/**
 A run that shows the limit of "no peer ever still needs to hear from a node that has left"
 (tests/common/mod.rs): a clock recorded one round early lets a node leave its second round without
 an exchange in it, while its peer still waits for exactly that clock.
 */
module Stranded {
  import opened Common
  import opened Barrier
  import opened Departure

  ghost predicate Reached(net: seq<nat>, s: State) {
    |s.nodes| == |net| && ByReliableRun(net, s)
  }

  ghost predicate ByReliableRun(net: seq<nat>, s: State) {
    exists states: seq<State>, actions: seq<Action> :: Reachable(net, states, actions, s)
  }

  ghost predicate Reachable(net: seq<nat>, states: seq<State>, actions: seq<Action>, s: State) {
    ReliableRun(net, states, actions) && |states| == |actions| + 1 && states[|actions|] == s
  }

  lemma ReachStart(net: seq<nat>)
    ensures Reached(net, Initial(|net|))
  {
    assert Reachable(net, [Initial(|net|)], [], Initial(|net|));
  }

  lemma ReliableExtends(net: seq<nat>, states: seq<State>, actions: seq<Action>, a: Action)
    requires ReliableRun(net, states, actions) && |states[|actions|].nodes| == |net|
    requires Can(states[|actions|], a) && Reliable(states[|actions|], a)
    ensures ReliableRun(net, states + [Do(net, states[|actions|], a)], actions + [a])
    ensures |Do(net, states[|actions|], a).nodes| == |net|
  {
    hide Can, Do, Reliable, Initial;
    RunExtends(net, states, actions, a);
    SameCount(net, states[|actions|], a);
  }

  lemma ReachStep(net: seq<nat>, s: State, a: Action)
    requires Reached(net, s) && Can(s, a) && Reliable(s, a)
    ensures Reached(net, Do(net, s, a))
  {
    hide Can, Do, Reliable, Initial, ReliableRun;
    var states: seq<State>, actions: seq<Action> :| Reachable(net, states, actions, s);
    ReliableExtends(net, states, actions, a);
    assert Reachable(net, states + [Do(net, s, a)], actions + [a], Do(net, s, a));
  }

  lemma SameCount(net: seq<nat>, s: State, a: Action)
    requires |s.nodes| == |net| && Can(s, a)
    ensures |Do(net, s, a).nodes| == |net|
  {}

  /** One whole exchange: node 1 polls node 0 and reads the reply. */
  lemma Exchange(net: seq<nat>, s: State) returns (t: State)
    requires Reached(net, s) && |net| == 2
    requires s.nodes[0].phase == Polling && s.nodes[1].phase == Polling && s.nodes[1].poll == None
    requires |s.nodes[0].known| == 2 && |s.nodes[1].known| == 2 && s.nodes[1].known[0] < s.nodes[1].clock
    ensures Reached(net, t)
    ensures t.nodes == [s.nodes[0].(seen := s.nodes[0].seen + [Seen(net[1], s.nodes[1].clock)]),
                        s.nodes[1].(known := s.nodes[1].known[0 := Max(s.nodes[1].known[0], s.nodes[0].clock)])]
    ensures |t.conns| == |s.conns| + 1 && t.conns[..|s.conns|] == s.conns && t.conns[|s.conns|].stage == Done
  {
    hide ByReliableRun;
    var k := |s.conns|;
    ReachStep(net, s, Connect(1, 0));
    var s1 := Do(net, s, Connect(1, 0));
    ReachStep(net, s1, Hear(k));
    var s2 := Do(net, s1, Hear(k));
    ReachStep(net, s2, Answer(k));
    var s3 := Do(net, s2, Answer(k));
    ReachStep(net, s3, ReadReply(1));
    t := Do(net, s3, ReadReply(1));
  }

  ghost predicate AllDone(s: State) { forall k :: 0 <= k < |s.conns| ==> s.conns[k].stage == Done }

  /** A node that knows enough leaves, its channel drained or not. */
  lemma Leaves(net: seq<nat>, s: State, i: nat) returns (t: State)
    requires Reached(net, s) && |net| == 2 && i < 2 && AllDone(s)
    requires s.nodes[i].phase == Polling && s.nodes[i].poll == None && |s.nodes[i].known| == 2
    requires s.nodes[i].known[1 - i] >= s.nodes[i].clock
    ensures Reached(net, t)
    ensures t == s.(nodes := s.nodes[i := s.nodes[i].(phase := Outside, seen := [], left := true)])
  {
    hide ByReliableRun;
    ReachStep(net, s, Break(i));
    var s1 := Do(net, s, Break(i));
    ReachStep(net, s1, Return(i));
    t := Do(net, s1, Return(i));
  }

  lemma Enters(net: seq<nat>, s: State, i: nat) returns (t: State)
    requires Reached(net, s) && |net| == 2 && i < 2 && s.nodes[i].phase == Outside
    ensures Reached(net, t) && t == Do(net, s, Enter(i))
  {
    ReachStep(net, s, Enter(i));
    t := Do(net, s, Enter(i));
  }

  lemma Drains(net: seq<nat>, s: State) returns (t: State)
    requires Reached(net, s) && |net| == 2 && net[0] != net[1]
    requires s.nodes[0].phase == Polling && s.nodes[0].poll == None && |s.nodes[0].known| == 2
    requires s.nodes[0].seen != [] && s.nodes[0].seen[0].addr == net[1]
    ensures Reached(net, t)
    ensures t == s.(nodes := s.nodes[0 := s.nodes[0].(
      seen := s.nodes[0].seen[1..],
      known := s.nodes[0].known[1 := Max(s.nodes[0].known[1], s.nodes[0].seen[0].clock)])])
  {
    hide ByReliableRun;
    assert Position(net, 0, net[1]) == Some(1) by { assert Position(net, 0, net[1], 1) == Some(1); }
    ReachStep(net, s, Drain(0));
    t := Do(net, s, Drain(0));
  }

  /** Node 1 is done with its first round and polls in its second, which node 0 hears in its first. */
  lemma RunsAhead(net: seq<nat>) returns (t: State)
    requires |net| == 2 && net[0] != net[1]
    ensures Reached(net, t) && AllDone(t)
    ensures t.nodes[0] == Node(1, Polling, [0, 0], [Seen(net[1], 1), Seen(net[1], 2)], None, false, 0, {})
    ensures t.nodes[1].clock == 2 && t.nodes[1].phase == Polling && t.nodes[1].known == [1, 0]
    ensures t.nodes[1].poll == None && t.nodes[1].seen == []
  {
    ReachStart(net);
    hide ByReliableRun;
    var s0 := Initial(2);
    assert s0.nodes[0].known == [0, 0] && s0.nodes[1].known == [0, 0];
    var s1 := Enters(net, s0, 0);
    var s2 := Enters(net, s1, 1);
    var s3 := Exchange(net, s2);
    var s4 := Leaves(net, s3, 1);
    var s5 := Enters(net, s4, 1);
    assert s5.nodes[1].known == [1, 0];
    t := Exchange(net, s5);
  }

  /** Node 0 catches up with its channel, leaves, and passes its second round on what it heard early. */
  lemma PassesThrough(net: seq<nat>, s: State) returns (t: State)
    requires |net| == 2 && net[0] != net[1] && Reached(net, s) && AllDone(s)
    requires s.nodes[0] == Node(1, Polling, [0, 0], [Seen(net[1], 1), Seen(net[1], 2)], None, false, 0, {})
    ensures Reached(net, t) && t.nodes[1] == s.nodes[1]
    ensures t.nodes[0].left && t.nodes[0].clock == 2
  {
    hide ByReliableRun;
    var s1 := Drains(net, s);
    var s2 := Drains(net, s1);
    assert s2.nodes[0].known == [0, 2];
    var s3 := Leaves(net, s2, 0);
    var s4 := Enters(net, s3, 0);
    t := Leaves(net, s4, 0);
  }

  /** Node 0 has left its second round; node 1 is in it, waits for node 0's clock, and has no way to it. */
  ghost predicate LeftBehind(net: seq<nat>, s: State) {
    && |s.nodes| == |net| == 2 && s.nodes[0].left && s.nodes[0].clock == s.nodes[1].clock == 2
    && s.nodes[1].phase == Polling && !Told(net, s, 0, 1)
  }

  /** The departure promise fails from the second round on, even in reliable runs. */
  lemma EarlyClockStrandsPeer(net: seq<nat>)
    requires |net| == 2 && net[0] != net[1]
    ensures exists s: State :: Reached(net, s) && LeftBehind(net, s)
  {
    var s := RunsAhead(net);
    var t := PassesThrough(net, s);
  }

  // ----- What decides it, for any number of nodes -----

  /** What a node can check before it calls: every peer is already known at the round it would enter. */
  predicate AllEarly(s: State, i: nat)
    requires i < |s.nodes|
  {
    forall j :: 0 <= j < |s.nodes[i].known| && j != i ==> s.nodes[i].known[j] > s.nodes[i].clock
  }

  /** Node `i` is past the round after `clock`, and no peer has, or can still get, its clock of that round. */
  ghost predicate UntoldByAll(net: seq<nat>, s: State, i: nat, clock: nat) {
    && |s.nodes| == |net| && i < |net| && s.nodes[i].left && s.nodes[i].clock == clock + 1
    && forall j :: 0 <= j < |net| && j != i ==> !Told(net, s, i, j)
  }

  /** A reliable run goes on with i's next call and gets to where that call has returned with nobody told. */
  ghost predicate CanLeaveUntold(net: seq<nat>, states: seq<State>, actions: seq<Action>, i: nat)
    requires |states| == |actions| + 1 && i < |states[|actions|].nodes|
  {
    exists more: seq<State>, acts: seq<Action> :: LeavesUntold(net, states, actions, i, more, acts)
  }

  ghost predicate LeavesUntold(net: seq<nat>, states: seq<State>, actions: seq<Action>, i: nat,
                               more: seq<State>, acts: seq<Action>)
    requires |states| == |actions| + 1 && i < |states[|actions|].nodes|
  {
    && |more| == |acts| > 0 && acts[0] == Enter(i) && ReliableRun(net, states + more, actions + acts)
    && UntoldByAll(net, more[|more| - 1], i, states[|actions|].nodes[i].clock)
  }

  /** The three steps of a call that finds everything it waits for already known. */
  lemma PassesAtOnce(net: seq<nat>, s: State, i: nat)
    requires ClocksFit(net, s) && |net| > 1 && i < |net| && s.nodes[i].phase == Outside && s.nodes[i].poll == None
    requires AllEarly(s, i)
    ensures Can(s, Enter(i))
    ensures Can(Do(net, s, Enter(i)), Break(i))
    ensures Can(Do(net, Do(net, s, Enter(i)), Break(i)), Return(i))
    ensures var t := Do(net, Do(net, Do(net, s, Enter(i)), Break(i)), Return(i));
      && |t.nodes| == |net| && t.nodes[i].left && t.nodes[i].clock == s.nodes[i].clock + 1
      && t.sent == Without(s.sent, i)
  {
    assert forall k :: 0 <= k < |s.conns| ==> ConnFits(net, s, s.conns[k]);
  }

  lemma NoPollOutside(s: State, i: nat)
    requires PollsFit(s) && i < |s.nodes| && s.nodes[i].phase == Outside
    ensures s.nodes[i].poll == None
  {}

  /** Calls, and what a node does by itself, are reliable whatever the wire does. */
  lemma EntryIsReliable(i: nat)
    ensures forall t: State :: Reliable(t, Enter(i)) && Reliable(t, Break(i)) && Reliable(t, Return(i))
  {}

  lemma EarlyCanLeave(net: seq<nat>, states: seq<State>, actions: seq<Action>, i: nat)
    requires Distinct(net) && ReliableRun(net, states, actions) && |net| > 1 && i < |net|
    requires i < |states[|actions|].nodes| && states[|actions|].nodes[i].phase == Outside
    requires AllEarly(states[|actions|], i)
    ensures CanLeaveUntold(net, states, actions, i)
  {
    hide Can, Do, Told, Reliable, Initial, History, SilenceFits, FreshStart, LeaversKnow, ClocksClose, AllEarly;
    var s := states[|actions|];
    RunAlways(net, states, actions, |actions|);
    EntryIsReliable(i);
    NoPollOutside(s, i);
    SameLength(net, s);
    PassesAtOnce(net, s, i);
    var s1 := Do(net, s, Enter(i));
    ReliableExtends(net, states, actions, Enter(i));
    var s2 := Do(net, s1, Break(i));
    ReliableExtends(net, states + [s1], actions + [Enter(i)], Break(i));
    var t := Do(net, s2, Return(i));
    ReliableExtends(net, states + [s1] + [s2], actions + [Enter(i)] + [Break(i)], Return(i));
    var more, acts := [s1, s2, t], [Enter(i), Break(i), Return(i)];
    assert states + [s1] + [s2] + [t] == states + more;
    assert actions + [Enter(i)] + [Break(i)] + [Return(i)] == actions + acts;
    assert (states + more)[|actions + acts|] == t;
    forall j | 0 <= j < |net| && j != i ensures !Told(net, t, i, j) {
      UntoldAfter(net, states + more, actions + acts, i, j);
    }
    assert LeavesUntold(net, states, actions, i, more, acts);
  }

  lemma UntoldAfter(net: seq<nat>, states: seq<State>, actions: seq<Action>, i: nat, j: nat)
    requires Distinct(net) && ReliableRun(net, states, actions) && i < |net| && j < |net| && i != j
    requires |states[|actions|].nodes| == |net| && states[|actions|].nodes[i].clock > 0
    requires (i, j) !in states[|actions|].sent
    ensures !Told(net, states[|actions|], i, j)
  {
    hide Can, Do, Told, Reliable, Initial;
    SilentPeersAreUntold(net, states, actions, |actions|, i, j);
  }

  lemma EarlyStep(net: seq<nat>, s: State, a: Action, i: nat)
    requires |net| == |s.nodes| && Can(s, a) && i < |net|
    ensures var t := Do(net, s, a);
      |t.nodes| == |net| && t.nodes[i].clock >= s.nodes[i].clock &&
      (t.nodes[i].clock == s.nodes[i].clock ==> t.nodes[i].early == s.nodes[i].early)
  {}

  /** While the clock stands, so does what was known on entry. */
  lemma {:induction false} EarlyStands(net: seq<nat>, states: seq<State>, actions: seq<Action>, m: nat, n: nat, i: nat)
    requires Run(net, states, actions) && m <= n < |states| && i < |net| && |states[m].nodes| == |net|
    ensures |states[n].nodes| == |net| && states[n].nodes[i].clock >= states[m].nodes[i].clock
    ensures states[n].nodes[i].clock == states[m].nodes[i].clock ==>
      states[n].nodes[i].early == states[m].nodes[i].early
  {
    hide Can, Do, Initial;
    if m < n {
      EarlyStands(net, states, actions, m, n - 1, i);
      EarlyStep(net, states[n - 1], actions[n - 1], i);
    }
  }

  lemma EntersWithEarly(net: seq<nat>, s: State, i: nat)
    requires |net| == |s.nodes| && Can(s, Enter(i))
    ensures var t := Do(net, s, Enter(i));
      |t.nodes| == |net| && t.nodes[i].clock == s.nodes[i].clock + 1 &&
      forall j :: 0 <= j < |s.nodes[i].known| ==> (j in t.nodes[i].early <==> s.nodes[i].known[j] > s.nodes[i].clock)
  {}

  /** A peer that the call leaves untold was known high enough on entry. */
  lemma UntoldWasEarly(net: seq<nat>, states: seq<State>, actions: seq<Action>, i: nat, j: nat,
                       more: seq<State>, acts: seq<Action>)
    requires Distinct(net) && ReliableRun(net, states, actions) && i < |net| && j < |net| && i != j
    requires i < |states[|actions|].nodes| && |more| == |acts| > 0 && acts[0] == Enter(i)
    requires ReliableRun(net, states + more, actions + acts)
    requires var t := more[|more| - 1];
      |t.nodes| == |net| && t.nodes[i].left && t.nodes[i].clock == states[|actions|].nodes[i].clock + 1 &&
      !Told(net, t, i, j)
    ensures j < |states[|actions|].nodes[i].known|
    ensures states[|actions|].nodes[i].known[j] > states[|actions|].nodes[i].clock
  {
    hide Can, Do, Told, Reliable, Initial;
    var s, n := states[|actions|], |actions|;
    var all, done := states + more, actions + acts;
    assert all[n] == s && done[n] == Enter(i) && all[|done|] == more[|more| - 1];
    RunLength(net, states, actions, n);
    EntersWithEarly(net, s, i);
    EarlyStands(net, all, done, n + 1, |done|, i);
    LeaverHasTold(net, all, done, |done|, i, j);
  }

  lemma OnlyEarlyCanLeave(net: seq<nat>, states: seq<State>, actions: seq<Action>, i: nat,
                          more: seq<State>, acts: seq<Action>)
    requires Distinct(net) && ReliableRun(net, states, actions) && i < |net| && i < |states[|actions|].nodes|
    requires LeavesUntold(net, states, actions, i, more, acts)
    ensures AllEarly(states[|actions|], i)
  {
    hide Can, Do, Told, Reliable, Initial;
    var s := states[|actions|];
    RunLength(net, states, actions, |actions|);
    forall j | 0 <= j < |s.nodes[i].known| && j != i ensures s.nodes[i].known[j] > s.nodes[i].clock {
      UntoldWasEarly(net, states, actions, i, j, more, acts);
    }
  }

  lemma RunLength(net: seq<nat>, states: seq<State>, actions: seq<Action>, m: nat)
    requires Distinct(net) && Run(net, states, actions) && m < |states|
    ensures |states[m].nodes| == |net| && forall i :: 0 <= i < |net| ==> |states[m].nodes[i].known| == |net|
  {
    hide Can, Do, Initial;
    RunKeeps(net, states, actions, m);
  }

  /**
   The exact condition, which a node can check before it calls: from any point of any reliable run, and
   for any number of nodes, its next call can return with no peer told its clock if and only if every
   peer is already known at that round.
   */
  lemma UntoldIffAllEarly(net: seq<nat>, states: seq<State>, actions: seq<Action>, i: nat)
    requires Distinct(net) && ReliableRun(net, states, actions) && |net| > 1 && i < |net|
    requires i < |states[|actions|].nodes| && states[|actions|].nodes[i].phase == Outside
    ensures AllEarly(states[|actions|], i) <==> CanLeaveUntold(net, states, actions, i)
  {
    hide AllEarly, LeavesUntold, Can, Do, Reliable, Initial;
    if AllEarly(states[|actions|], i) {
      EarlyCanLeave(net, states, actions, i);
    } else if CanLeaveUntold(net, states, actions, i) {
      var more: seq<State>, acts: seq<Action> :| LeavesUntold(net, states, actions, i, more, acts);
      OnlyEarlyCanLeave(net, states, actions, i, more, acts);
    }
  }
}
