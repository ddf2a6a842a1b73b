/**
 Passing a peer by at the barrier (tests/common/mod.rs), peer by peer: a node that already knows a
 peer at its next round can always come to leave that round without that peer having its clock.
 The proof is a schedule that the code can run: finish the polls under way, bring every other peer to
 the round, drain the channel, poll whoever is still behind, and leave.
 */
module Bypass {
  import opened Common
  import opened Barrier
  import opened Departure
  import opened Stranded

  // ----- Reliable continuations in which every bind succeeds -----

  ghost predicate Path(net: seq<nat>, s: State, t: State, states: seq<State>, actions: seq<Action>) {
    && |states| == |actions| + 1 && states[0] == s && states[|actions|] == t
    && forall m :: 0 <= m < |actions| ==>
         |states[m].nodes| == |net| && Can(states[m], actions[m]) && Reliable(states[m], actions[m]) &&
         !actions[m].BindFails? && states[m + 1] == Do(net, states[m], actions[m])
  }

  ghost predicate Onward(net: seq<nat>, s: State, t: State) {
    exists states: seq<State>, actions: seq<Action> :: Path(net, s, t, states, actions)
  }

  lemma Stay(net: seq<nat>, s: State)
    ensures Onward(net, s, s)
  {
    assert Path(net, s, s, [s], []);
  }

  lemma Then(net: seq<nat>, s: State, t: State, a: Action)
    requires Onward(net, s, t) && |t.nodes| == |net| && Can(t, a) && Reliable(t, a) && !a.BindFails?
    ensures Onward(net, s, Do(net, t, a)) && |Do(net, t, a).nodes| == |net|
  {
    hide Can, Do, Reliable;
    SameCount(net, t, a);
    var states: seq<State>, actions: seq<Action> :| Path(net, s, t, states, actions);
    assert Path(net, s, Do(net, t, a), states + [Do(net, t, a)], actions + [a]);
  }

  lemma Onwards(net: seq<nat>, s: State, t: State, u: State)
    requires Onward(net, s, t) && Onward(net, t, u)
    ensures Onward(net, s, u)
  {
    hide Can, Do, Reliable;
    var states: seq<State>, actions: seq<Action> :| Path(net, s, t, states, actions);
    var rest: seq<State>, more: seq<Action> :| Path(net, t, u, rest, more);
    var all := states + rest[1..];
    assert forall m :: 0 <= m < |states| ==> all[m] == states[m];
    assert forall m :: 0 <= m < |rest| ==> all[|actions| + m] == rest[m];
    assert Path(net, s, u, all, actions + more);
  }

  /** A continuation of a reliable run is one. */
  lemma RunGoesOn(net: seq<nat>, run: seq<State>, past: seq<Action>, t: State, states: seq<State>, actions: seq<Action>)
    requires ReliableRun(net, run, past) && |run| == |past| + 1 && Path(net, run[|past|], t, states, actions)
    ensures ReliableRun(net, run + states[1..], past + actions)
    ensures (run + states[1..])[|past + actions|] == t
  {
    hide Can, Do, Reliable, Initial;
    var all := run + states[1..];
    assert forall m :: 0 <= m < |run| ==> all[m] == run[m];
    assert forall m :: 0 <= m < |states| ==> all[|past| + m] == states[m];
  }

  // ----- What polls under way can be in: in reliable runs -----

  ghost predicate PollAlive(s: State) {
    forall i :: 0 <= i < |s.nodes| && s.nodes[i].poll.Some? ==>
      s.nodes[i].poll.value < |s.conns| && s.conns[s.nodes[i].poll.value].stage != Done
  }

  ghost predicate HeardCurrent(s: State) {
    forall k :: 0 <= k < |s.conns| && s.conns[k].stage == Heard ==> AtTarget(s, k, Heard)
  }

  lemma EntryKeepsAlive(net: seq<nat>, s: State, a: Action)
    requires PollAlive(s) && HeardCurrent(s) && PollsFit(s) && |s.nodes| == |net| && Can(s, a) && EntryAction(a)
    ensures PollAlive(EntryAct(net, s, a)) && HeardCurrent(EntryAct(net, s, a))
  {}

  lemma WireKeepsAlive(net: seq<nat>, s: State, a: Action)
    requires PollAlive(s) && PollsFit(s) && Waiting(s) && |s.nodes| == |net|
    requires Can(s, a) && Reliable(s, a) && WireAction(a)
    ensures PollAlive(WireAct(net, s, a))
  {
    var n := |s.nodes|;
    forall i, j | 0 <= i < n && 0 <= j < n && s.nodes[i].poll.Some? && s.nodes[i].poll == s.nodes[j].poll
      ensures i == j
    {
      assert PollFits(s, i, s.nodes[i], s.nodes[i].poll.value);
      assert PollFits(s, j, s.nodes[j], s.nodes[j].poll.value);
    }
  }

  lemma WireKeepsHeard(net: seq<nat>, s: State, a: Action)
    requires HeardCurrent(s) && |s.nodes| == |net| && Can(s, a) && WireAction(a)
    ensures HeardCurrent(WireAct(net, s, a))
  {}

  lemma LocalKeepsAlive(net: seq<nat>, s: State, a: Action)
    requires PollAlive(s) && HeardCurrent(s) && |s.nodes| == |net| && Can(s, a) && LocalAction(a)
    ensures PollAlive(LocalAct(net, s, a)) && HeardCurrent(LocalAct(net, s, a))
  {}

  ghost predicate Sound(net: seq<nat>, s: State) {
    && |s.nodes| == |net| && (forall i :: 0 <= i < |net| ==> |s.nodes[i].known| == |net|)
    && PollsFit(s) && Waiting(s) && PollAlive(s) && HeardCurrent(s)
    && (forall k :: 0 <= k < |s.conns| ==>
          s.conns[k].from < |net| && s.conns[k].to < |net| && s.conns[k].from != s.conns[k].to)
  }

  lemma {:induction false} RunAlive(net: seq<nat>, states: seq<State>, actions: seq<Action>, m: nat)
    requires Distinct(net) && ReliableRun(net, states, actions) && m < |states|
    ensures PollAlive(states[m]) && HeardCurrent(states[m])
  {
    hide Always, Courtesy, PollAlive, HeardCurrent, Can, EntryAct, WireAct, LocalAct, Reliable, Initial;
    if m == 0 {
      NothingAlive(|net|);
    } else {
      RunAlive(net, states, actions, m - 1);
      RunAlways(net, states, actions, m - 1);
      RunCourtesy(net, states, actions, m - 1);
      var s, a := states[m - 1], actions[m - 1];
      PollsWait(net, s);
      if EntryAction(a) { EntryKeepsAlive(net, s, a); }
      else if WireAction(a) { WireKeepsAlive(net, s, a); WireKeepsHeard(net, s, a); }
      else { LocalKeepsAlive(net, s, a); }
    }
  }

  lemma NothingAlive(n: nat)
    ensures PollAlive(Initial(n)) && HeardCurrent(Initial(n))
  {}

  lemma PollsWait(net: seq<nat>, s: State)
    requires Always(net, s) && Courtesy(net, s)
    ensures PollsFit(s) && Waiting(s) && |s.nodes| == |net|
    ensures forall i :: 0 <= i < |net| ==> |s.nodes[i].known| == |net|
    ensures forall k :: 0 <= k < |s.conns| ==>
      s.conns[k].from < |net| && s.conns[k].to < |net| && s.conns[k].from != s.conns[k].to
  {
    assert forall k :: 0 <= k < |s.conns| ==> ConnFits(net, s, s.conns[k]);
  }

  lemma ReachedSound(net: seq<nat>, s: State)
    requires Distinct(net) && Reached(net, s)
    ensures Sound(net, s)
  {
    hide Can, Do, Reliable, Initial, Always, Courtesy;
    var states: seq<State>, actions: seq<Action> :| Stranded.Reachable(net, states, actions, s);
    RunAlive(net, states, actions, |actions|);
    RunAlways(net, states, actions, |actions|);
    RunCourtesy(net, states, actions, |actions|);
    PollsWait(net, s);
  }

  // ----- Finishing the polls under way -----

  /** Clocks, phases and exchanges are the same, and nodes that were not polling are untouched. */
  ghost predicate OnlyPolls(s: State, t: State) {
    && |t.nodes| == |s.nodes| && t.sent == s.sent
    && forall x :: 0 <= x < |s.nodes| ==>
         t.nodes[x].phase == s.nodes[x].phase && t.nodes[x].clock == s.nodes[x].clock &&
         (s.nodes[x].poll == None ==> t.nodes[x] == s.nodes[x])
  }

  lemma Walk(net: seq<nat>, s: State, t: State, a: Action)
    requires Reached(net, t) && Onward(net, s, t) && Can(t, a) && Reliable(t, a) && !a.BindFails?
    ensures Reached(net, Do(net, t, a)) && Onward(net, s, Do(net, t, a))
  {
    hide Can, Do, Reliable, ByReliableRun, Onward;
    ReachStep(net, t, a);
    Then(net, s, t, a);
  }

  lemma GiveUp(net: seq<nat>, s: State, p: nat) returns (t: State)
    requires Sound(net, s) && Reached(net, s) && p < |net| && s.nodes[p].poll.Some?
    requires s.conns[s.nodes[p].poll.value].stage == Sent
    ensures Reached(net, t) && Onward(net, s, t) && OnlyPolls(s, t) && t.nodes[p].poll == None
    ensures forall x :: 0 <= x < |net| && x != p ==> t.nodes[x] == s.nodes[x]
  {
    Stay(net, s);
    hide ByReliableRun, Onward, Waiting, HeardCurrent;
    Walk(net, s, s, PollFails(p));
    t := Do(net, s, PollFails(p));
  }

  lemma GetAnswer(net: seq<nat>, s: State, p: nat) returns (t: State)
    requires Sound(net, s) && Reached(net, s) && p < |net| && s.nodes[p].poll.Some?
    requires s.conns[s.nodes[p].poll.value].stage == Heard
    ensures Reached(net, t) && Onward(net, s, t) && t.nodes == s.nodes && t.sent == s.sent && |t.conns| == |s.conns|
    ensures t.conns[s.nodes[p].poll.value].stage == Replied
  {
    Stay(net, s);
    hide ByReliableRun, Onward, Waiting, PollsFit;
    Walk(net, s, s, Answer(s.nodes[p].poll.value));
    t := Do(net, s, Answer(s.nodes[p].poll.value));
  }

  lemma ReadAnswer(net: seq<nat>, s: State, p: nat) returns (t: State)
    requires Sound(net, s) && Reached(net, s) && p < |net| && s.nodes[p].poll.Some?
    requires s.conns[s.nodes[p].poll.value].stage == Replied
    ensures Reached(net, t) && Onward(net, s, t) && OnlyPolls(s, t) && t.nodes[p].poll == None
    ensures forall x :: 0 <= x < |net| && x != p ==> t.nodes[x] == s.nodes[x]
  {
    Stay(net, s);
    hide ByReliableRun, Onward, Waiting, HeardCurrent, PollsFit;
    Walk(net, s, s, ReadReply(p));
    t := Do(net, s, ReadReply(p));
  }

  lemma FinishPoll(net: seq<nat>, s: State, p: nat) returns (t: State)
    requires Distinct(net) && Reached(net, s) && p < |net| && s.nodes[p].poll.Some?
    ensures Reached(net, t) && Onward(net, s, t) && OnlyPolls(s, t) && t.nodes[p].poll == None
    ensures forall x :: 0 <= x < |net| && x != p ==> t.nodes[x] == s.nodes[x]
  {
    ReachedSound(net, s);
    hide ByReliableRun, Onward, Waiting, HeardCurrent, PollsFit, Distinct;
    var stage := s.conns[s.nodes[p].poll.value].stage;
    if stage == Sent {
      t := GiveUp(net, s, p);
    } else if stage == Heard {
      var s1 := GetAnswer(net, s, p);
      ReachedSound(net, s1);
      t := ReadAnswer(net, s1, p);
      Onwards(net, s, s1, t);
    } else {
      t := ReadAnswer(net, s, p);
    }
  }

  lemma {:induction false} FinishPolls(net: seq<nat>, s: State, p: nat) returns (t: State)
    requires Distinct(net) && Reached(net, s) && p <= |net|
    requires forall x :: 0 <= x < p ==> s.nodes[x].poll == None
    ensures Reached(net, t) && Onward(net, s, t) && OnlyPolls(s, t)
    ensures forall x :: 0 <= x < |net| ==> t.nodes[x].poll == None
    decreases |net| - p
  {
    hide ByReliableRun, Onward, Distinct;
    if p == |net| {
      Stay(net, s);
      t := s;
    } else {
      var s1 := s;
      Stay(net, s);
      if s.nodes[p].poll.Some? { s1 := FinishPoll(net, s, p); }
      t := FinishPolls(net, s1, p + 1);
      Onwards(net, s, s1, t);
    }
  }

  // ----- With no poll under way -----

  /** Nobody polls, and no request waits for an answer. */
  ghost predicate Calm(net: seq<nat>, s: State) {
    && |s.nodes| == |net|
    && (forall x :: 0 <= x < |net| ==> |s.nodes[x].known| == |net| && s.nodes[x].poll == None)
    && (forall k :: 0 <= k < |s.conns| ==> s.conns[k].stage != Heard)
  }

  lemma FinishedIsCalm(net: seq<nat>, s: State)
    requires Sound(net, s) && forall x :: 0 <= x < |net| ==> s.nodes[x].poll == None
    ensures Calm(net, s)
  {}

  /** Apart from what is in its channel. */
  predicate SameButHeard(m: Node, n: Node) { m.(seen := n.seen) == n }

  /** One exchange: `p` polls `q` and reads the reply. */
  lemma Exchanged(net: seq<nat>, s: State, p: nat, q: nat) returns (t: State)
    requires Calm(net, s) && p < |net| && q < |net| && p != q
    requires s.nodes[p].phase == Polling && s.nodes[p].known[q] < s.nodes[p].clock && Responding(s.nodes[q])
    ensures Onward(net, s, t) && Calm(net, t)
    ensures t.nodes[p] == s.nodes[p].(known := s.nodes[p].known[q := Max(s.nodes[p].known[q], s.nodes[q].clock)])
    ensures forall x :: 0 <= x < |net| && x != p ==> SameButHeard(s.nodes[x], t.nodes[x])
    ensures t.sent <= s.sent + {(p, q), (q, p)}
  {
    Stay(net, s);
    hide Onward;
    var k := |s.conns|;
    Then(net, s, s, Connect(p, q));
    var s1 := Do(net, s, Connect(p, q));
    Then(net, s, s1, Hear(k));
    var s2 := Do(net, s1, Hear(k));
    Then(net, s, s2, Answer(k));
    var s3 := Do(net, s2, Answer(k));
    Then(net, s, s3, ReadReply(p));
    t := Do(net, s3, ReadReply(p));
  }

  /** `p` needs to hear `q`, or the other way round. */
  predicate Needs(s: State, p: nat, x: nat, y: nat)
    requires p < |s.nodes| && forall z :: 0 <= z < |s.nodes| ==> |s.nodes[z].known| == |s.nodes|
  {
    (x == p && y < |s.nodes| && s.nodes[p].known[y] < s.nodes[p].clock) ||
    (y == p && x < |s.nodes| && s.nodes[p].known[x] < s.nodes[p].clock)
  }

  /** `p` hears everyone it still needs; the pair (x, y) has no exchange unless it is one of those. */
  lemma {:induction false} HearAll(net: seq<nat>, s: State, p: nat, n: nat, x: nat, y: nat) returns (t: State)
    requires Calm(net, s) && p < |net| && n <= |net| && s.nodes[p].phase == Polling
    requires forall q :: n <= q < |net| && q != p && s.nodes[p].known[q] < s.nodes[p].clock ==>
      Responding(s.nodes[q]) && s.nodes[q].clock >= s.nodes[p].clock
    requires forall q :: 0 <= q < n && q != p ==> s.nodes[p].known[q] >= s.nodes[p].clock
    ensures Onward(net, s, t) && Calm(net, t)
    ensures t.nodes[p] == s.nodes[p].(known := t.nodes[p].known)
    ensures forall q :: 0 <= q < |net| && q != p ==> t.nodes[p].known[q] >= s.nodes[p].clock
    ensures forall q :: 0 <= q < |net| && q != p ==> SameButHeard(s.nodes[q], t.nodes[q])
    ensures (x, y) !in s.sent && !Needs(s, p, x, y) ==> (x, y) !in t.sent
    decreases |net| - n
  {
    hide Onward;
    if n == |net| {
      Stay(net, s);
      t := s;
    } else if n == p || s.nodes[p].known[n] >= s.nodes[p].clock {
      t := HearAll(net, s, p, n + 1, x, y);
    } else {
      var s1 := Exchanged(net, s, p, n);
      t := HearAll(net, s1, p, n + 1, x, y);
      Onwards(net, s, s1, t);
    }
  }

  /** What the responder has heard is recorded. */
  lemma {:induction false} DrainAll(net: seq<nat>, s: State, p: nat) returns (t: State)
    requires Calm(net, s) && p < |net| && s.nodes[p].phase == Polling
    ensures Onward(net, s, t) && Calm(net, t) && t.sent == s.sent
    ensures t.nodes[p] == s.nodes[p].(seen := [], known := t.nodes[p].known)
    ensures forall q :: 0 <= q < |net| ==> t.nodes[p].known[q] >= s.nodes[p].known[q]
    ensures forall q :: 0 <= q < |net| && q != p ==> t.nodes[q] == s.nodes[q]
    decreases |s.nodes[p].seen|
  {
    Stay(net, s);
    hide Onward;
    if s.nodes[p].seen == [] {
      t := s;
    } else {
      Then(net, s, s, Drain(p));
      var s1 := Do(net, s, Drain(p));
      t := DrainAll(net, s1, p);
      Onwards(net, s, s1, t);
    }
  }

  /** A node that has drained its channel and found everyone heard leaves its round. */
  lemma Leave(net: seq<nat>, s: State, p: nat) returns (t: State)
    requires Calm(net, s) && p < |net| && Responding(s.nodes[p])
    requires s.nodes[p].phase == Polling ==> s.nodes[p].seen == []
    requires s.nodes[p].phase == Polling ==>
      forall q :: 0 <= q < |net| && q != p ==> s.nodes[p].known[q] >= s.nodes[p].clock
    ensures Onward(net, s, t) && Calm(net, t)
    ensures t == s.(nodes := s.nodes[p := s.nodes[p].(phase := Outside, seen := [], left := true)])
  {
    Stay(net, s);
    hide Onward;
    var s1 := s;
    if s.nodes[p].phase == Polling {
      Then(net, s, s, Break(p));
      s1 := Do(net, s, Break(p));
    }
    Then(net, s, s1, Return(p));
    t := Do(net, s1, Return(p));
  }

  /** A node outside calls, and is in the next round. */
  lemma Arrive(net: seq<nat>, s: State, p: nat) returns (t: State)
    requires Calm(net, s) && |net| > 1 && p < |net| && s.nodes[p].phase == Outside
    ensures Onward(net, s, t) && Calm(net, t)
    ensures t.nodes[p].phase == Polling && t.nodes[p].clock == s.nodes[p].clock + 1 && t.sent <= s.sent
    ensures forall x :: 0 <= x < |net| && x != p ==> t.nodes[x] == s.nodes[x]
  {
    Stay(net, s);
    hide Onward;
    Then(net, s, s, Enter(p));
    t := Do(net, s, Enter(p));
  }

  // ----- Bringing every peer to the round -----

  predicate Present(n: Node, r: nat) { Responding(n) && n.clock >= r }

  ghost function Missing(s: State, i: nat, r: nat): (m: set<nat>) {
    set p | 0 <= p < |s.nodes| && p != i && !Present(s.nodes[p], r)
  }

  /** Of the nodes missing, one with the lowest clock. */
  lemma {:induction false} Lowest(s: State, m: set<nat>) returns (p: nat)
    requires m != {} && forall q :: q in m ==> q < |s.nodes|
    ensures p in m && forall q :: q in m ==> s.nodes[p].clock <= s.nodes[q].clock
    decreases |m|
  {
    var first :| first in m;
    var rest := m - {first};
    p := first;
    if rest != {} {
      var q := Lowest(s, rest);
      if s.nodes[q].clock < s.nodes[first].clock { p := q; }
    }
    forall z | z in m ensures s.nodes[p].clock <= s.nodes[z].clock {
      assert z == first || z in rest;
    }
  }

  /**
   What the schedule keeps: node `i` is in its loop in round `r`, knows `j` at that round and has had no
   exchange with it, and `j` is at that round or beyond.
   */
  ghost predicate PassingBy(net: seq<nat>, s: State, i: nat, j: nat, r: nat) {
    && Calm(net, s) && i < |net| && j < |net| && i != j && s.nodes[i].phase == Polling && s.nodes[i].clock == r
    && s.nodes[i].known[j] >= r && s.nodes[j].clock >= r && (i, j) !in s.sent
  }

  /** Takes a missing node out of the round it is in. */
  lemma TakenOut(net: seq<nat>, s: State, i: nat, j: nat, r: nat, p: nat) returns (t: State)
    requires PassingBy(net, s, i, j, r) && p in Missing(s, i, r) && Responding(s.nodes[p])
    requires s.nodes[p].phase == Polling ==>
      forall q :: 0 <= q < |net| && q != p ==> Present(s.nodes[q], s.nodes[p].clock)
    ensures Onward(net, s, t) && PassingBy(net, t, i, j, r)
    ensures t.nodes[p].phase == Outside && t.nodes[p].clock == s.nodes[p].clock
    ensures forall q :: 0 <= q < |net| && q != p ==> SameButHeard(s.nodes[q], t.nodes[q])
  {
    hide Onward;
    Stay(net, s);
    var s1 := s;
    if s.nodes[p].phase == Polling {
      var s0 := DrainAll(net, s, p);
      s1 := HearAll(net, s0, p, 0, i, j);
      Onwards(net, s, s0, s1);
    }
    t := Leave(net, s1, p);
    Onwards(net, s, s1, t);
  }

  /** How many calls and returns a node still is from round `r`, weighed so that each takes one off. */
  function Weight(n: Node, r: nat): (w: nat)
    ensures w == 0 <==> Present(n, r)
  {
    if Present(n, r) then 0
    else if n.clock >= r then 1
    else if n.phase == Outside then 2 * (r - n.clock)
    else 2 * (r - n.clock) + 1
  }

  /** The weights of the first `n` nodes but `i`. */
  ghost function Total(s: State, i: nat, r: nat, n: nat): (w: nat)
    requires n <= |s.nodes|
  {
    if n == 0 then 0 else Total(s, i, r, n - 1) + if n - 1 == i then 0 else Weight(s.nodes[n - 1], r)
  }

  lemma {:induction false} TotalDrops(s: State, t: State, i: nat, r: nat, p: nat, n: nat)
    requires n <= |s.nodes| == |t.nodes| && p < |s.nodes| && p != i && Weight(t.nodes[p], r) < Weight(s.nodes[p], r)
    requires forall q :: 0 <= q < |s.nodes| && q != p ==> SameButHeard(s.nodes[q], t.nodes[q])
    ensures if p < n then Total(t, i, r, n) < Total(s, i, r, n) else Total(t, i, r, n) == Total(s, i, r, n)
  {
    if n > 0 { TotalDrops(s, t, i, r, p, n - 1); }
  }

  lemma {:induction false} NothingMissing(s: State, i: nat, r: nat, n: nat)
    requires n <= |s.nodes|
    ensures Total(s, i, r, n) == 0 <==> forall q :: 0 <= q < n && q != i ==> Present(s.nodes[q], r)
  {
    if n > 0 { NothingMissing(s, i, r, n - 1); }
  }

  /** One step of the schedule: whoever is outside calls; when nobody is, the lowest clock finishes its round. */
  lemma OneCloser(net: seq<nat>, s: State, i: nat, j: nat, r: nat) returns (t: State)
    requires PassingBy(net, s, i, j, r) && Total(s, i, r, |net|) > 0
    ensures Onward(net, s, t) && PassingBy(net, t, i, j, r) && Total(t, i, r, |net|) < Total(s, i, r, |net|)
  {
    hide Onward, Total;
    NothingMissing(s, i, r, |net|);
    var m := Missing(s, i, r);
    if m == {} {
      forall q | 0 <= q < |net| && q != i ensures Present(s.nodes[q], r) { assert q !in m; }
    }
    if p :| p in m && s.nodes[p].phase == Outside {
      t := Arrive(net, s, p);
      TotalDrops(s, t, i, r, p, |net|);
    } else {
      var p := Lowest(s, m);
      LowestCanFinish(net, s, i, j, r, p);
      t := TakenOut(net, s, i, j, r, p);
      TotalDrops(s, t, i, r, p, |net|);
    }
  }

  /** Every peer comes to the round. */
  lemma {:induction false} AllBroughtIn(net: seq<nat>, s: State, i: nat, j: nat, r: nat) returns (t: State)
    requires PassingBy(net, s, i, j, r)
    ensures Onward(net, s, t) && PassingBy(net, t, i, j, r)
    ensures forall q :: 0 <= q < |net| && q != i ==> Present(t.nodes[q], r)
    decreases Total(s, i, r, |net|)
  {
    hide Onward, Total;
    NothingMissing(s, i, r, |net|);
    if Total(s, i, r, |net|) == 0 {
      Stay(net, s);
      t := s;
    } else {
      var s1 := OneCloser(net, s, i, j, r);
      t := AllBroughtIn(net, s1, i, j, r);
      Onwards(net, s, s1, t);
    }
  }

  lemma LowestCanFinish(net: seq<nat>, s: State, i: nat, j: nat, r: nat, p: nat)
    requires PassingBy(net, s, i, j, r) && p in Missing(s, i, r)
    requires forall q :: q in Missing(s, i, r) ==> Responding(s.nodes[q]) && s.nodes[p].clock <= s.nodes[q].clock
    ensures forall q :: 0 <= q < |net| && q != p ==> Present(s.nodes[q], s.nodes[p].clock)
  {
    forall q | 0 <= q < |net| && q != p ensures Present(s.nodes[q], s.nodes[p].clock) {
      assert q in Missing(s, i, r) || q == i || Present(s.nodes[q], r);
    }
  }

  // ----- The theorem -----

  /** From inside the round to past it, the peer passed by. */
  lemma PassesBy(net: seq<nat>, s: State, i: nat, j: nat, r: nat) returns (t: State)
    requires PassingBy(net, s, i, j, r)
    ensures Onward(net, s, t) && |t.nodes| == |net| && t.nodes[i].left && t.nodes[i].clock == r && (i, j) !in t.sent
  {
    hide Onward;
    var s1 := AllBroughtIn(net, s, i, j, r);
    var s2 := DrainAll(net, s1, i);
    var s3 := HearAll(net, s2, i, 0, i, j);
    t := Leave(net, s3, i);
    Onwards(net, s, s1, s2);
    Onwards(net, s, s2, s3);
    Onwards(net, s, s3, t);
  }

  /** What the node can check, and what it is worth: `i` knows `j` at its next round. */
  predicate Early(s: State, i: nat, j: nat)
    requires i < |s.nodes|
  {
    j < |s.nodes[i].known| && s.nodes[i].known[j] > s.nodes[i].clock
  }

  /**
   The run can go on, reliably and with every bind succeeding, to where i's next call has returned and
   `j` has no way to its clock.
   */
  ghost predicate CanPassBy(net: seq<nat>, states: seq<State>, actions: seq<Action>, i: nat, j: nat)
    requires |states| == |actions| + 1 && i < |states[|actions|].nodes|
  {
    exists more: seq<State>, acts: seq<Action> :: PassedBy(net, states, actions, i, j, more, acts)
  }

  ghost predicate PassedBy(net: seq<nat>, states: seq<State>, actions: seq<Action>, i: nat, j: nat,
                           more: seq<State>, acts: seq<Action>)
    requires |states| == |actions| + 1 && i < |states[|actions|].nodes|
  {
    && |more| == |acts| > 0 && acts[0] == Enter(i) && ReliableRun(net, states + more, actions + acts)
    && (forall m :: 0 <= m < |acts| ==> !acts[m].BindFails?)
    && var t := more[|more| - 1];
       && |t.nodes| == |net| && i < |net| && j < |net|
       && t.nodes[i].left && t.nodes[i].clock == states[|actions|].nodes[i].clock + 1 && !Told(net, t, i, j)
  }

  /** The entry itself, with all polls under way finished. */
  lemma Enters(net: seq<nat>, s: State, i: nat, j: nat) returns (t: State)
    requires Distinct(net) && Reached(net, s) && |net| > 1 && i < |net| && j < |net| && i != j
    requires s.nodes[i].phase == Outside && Early(s, i, j) && s.nodes[j].clock > s.nodes[i].clock
    ensures Can(s, Enter(i)) && Onward(net, Do(net, s, Enter(i)), t)
    ensures PassingBy(net, t, i, j, s.nodes[i].clock + 1)
  {
    ReachedSound(net, s);
    hide ByReliableRun, Onward, Waiting, HeardCurrent, PollAlive, Distinct;
    ReachStep(net, s, Enter(i));
    var s1 := Do(net, s, Enter(i));
    assert s1.nodes[i].poll == None;
    t := FinishPolls(net, s1, 0);
    ReachedSound(net, t);
    FinishedIsCalm(net, t);
  }

  lemma EarlyCanPassBy(net: seq<nat>, states: seq<State>, actions: seq<Action>, i: nat, j: nat)
    requires Distinct(net) && ReliableRun(net, states, actions) && |net| > 1 && i < |net| && j < |net| && i != j
    requires i < |states[|actions|].nodes| && states[|actions|].nodes[i].phase == Outside
    requires Early(states[|actions|], i, j)
    ensures CanPassBy(net, states, actions, i, j)
  {
    hide Can, Do, Told, Reliable, Initial, PassingBy;
    var s := states[|actions|];
    var r := s.nodes[i].clock + 1;
    KnownIsBehind(net, states, actions, i, j);
    assert Stranded.Reachable(net, states, actions, s);
    var s1 := Enters(net, s, i, j);
    var t := PassesBy(net, s1, i, j, r);
    Onwards(net, Do(net, s, Enter(i)), s1, t);
    var path: seq<State>, steps: seq<Action> :| Path(net, Do(net, s, Enter(i)), t, path, steps);
    EntryIsReliable(i);
    ReliableExtends(net, states, actions, Enter(i));
    RunGoesOn(net, states + [Do(net, s, Enter(i))], actions + [Enter(i)], t, path, steps);
    var more, acts := path, [Enter(i)] + steps;
    assert states + [Do(net, s, Enter(i))] + path[1..] == states + more;
    assert actions + [Enter(i)] + steps == actions + acts;
    UntoldAfter(net, states + more, actions + acts, i, j);
    assert PassedBy(net, states, actions, i, j, more, acts);
  }

  lemma KnownIsBehind(net: seq<nat>, states: seq<State>, actions: seq<Action>, i: nat, j: nat)
    requires Distinct(net) && Run(net, states, actions) && i < |net| && j < |net|
    ensures |states[|actions|].nodes| == |net| && j < |states[|actions|].nodes[i].known|
    ensures states[|actions|].nodes[i].known[j] <= states[|actions|].nodes[j].clock
  {
    hide Can, Do, Initial;
    RunKeeps(net, states, actions, |actions|);
  }

  /**
   Peer by peer, the exact condition.  From any point of any reliable run, for any number of nodes: i's
   next call can return with peer `j` untold if and only if `i` already knows `j` at that round.  No
   bind has to fail for it, nor any reply be lost.
   */
  lemma UntoldIffEarly(net: seq<nat>, states: seq<State>, actions: seq<Action>, i: nat, j: nat)
    requires Distinct(net) && ReliableRun(net, states, actions) && |net| > 1 && i < |net| && j < |net| && i != j
    requires i < |states[|actions|].nodes| && states[|actions|].nodes[i].phase == Outside
    ensures Early(states[|actions|], i, j) <==> CanPassBy(net, states, actions, i, j)
  {
    hide PassedBy, Can, Do, Reliable, Initial;
    if Early(states[|actions|], i, j) {
      EarlyCanPassBy(net, states, actions, i, j);
    } else if CanPassBy(net, states, actions, i, j) {
      var more: seq<State>, acts: seq<Action> :| PassedBy(net, states, actions, i, j, more, acts);
      PassedWasEarly(net, states, actions, i, j, more, acts);
    }
  }

  lemma PassedWasEarly(net: seq<nat>, states: seq<State>, actions: seq<Action>, i: nat, j: nat,
                       more: seq<State>, acts: seq<Action>)
    requires Distinct(net) && ReliableRun(net, states, actions) && i != j
    requires i < |states[|actions|].nodes| && PassedBy(net, states, actions, i, j, more, acts)
    ensures Early(states[|actions|], i, j)
  {
    hide Can, Do, Told, Reliable, Initial;
    UntoldWasEarly(net, states, actions, i, j, more, acts);
  }
}
