/**
 One node of the barrier as its own code sees it (tests/common/mod.rs, `GlobalSynch`): the clock and
 the table of known clocks it updates in place, against whatever the responder heard and the polls
 brought back.  The last lemmas tie each update to an action of the barrier's state machine.
 */
module Synch {
  import opened Common
  import opened Barrier

  /** One pass of the loop: what the channel held, and what a poll of each peer would bring back. */
  datatype Lap = Lap(heard: seq<Seen>, replies: seq<Option<nat>>)

  datatype Outcome = NotServed | Crossed | TimedOut

  /** The peer a heard address stands for: the first that has it. */
  function Index(peers: seq<nat>, addr: nat, from: nat := 0): (p: Option<nat>)
    requires from <= |peers|
    ensures p.Some? ==> from <= p.value < |peers| && peers[p.value] == addr && addr !in peers[from..p.value]
    ensures p.None? ==> addr !in peers[from..]
    decreases |peers| - from
  {
    if from == |peers| then None
    else if peers[from] == addr then Some(from)
    else Index(peers, addr, from + 1)
  }

  function Note(peers: seq<nat>, known: seq<nat>, e: Seen): (r: seq<nat>)
    requires |known| == |peers|
    ensures |r| == |known|
  {
    var p := Index(peers, e.addr);
    if p.Some? then Raise(known, p.value, e.clock) else known
  }

  function Noted(peers: seq<nat>, known: seq<nat>, heard: seq<Seen>): (r: seq<nat>)
    requires |known| == |peers|
    ensures |r| == |known|
  {
    if heard == [] then known else Note(peers, Noted(peers, known, heard[..|heard| - 1]), heard[|heard| - 1])
  }

  /** One entry after its poll, which is made only if the peer is still behind, and can fail. */
  function Answered(known: nat, round: nat, reply: Option<nat>): (r: nat) {
    if known < round && reply.Some? then Max(known, reply.value) else known
  }

  function Reply(lap: Lap, i: nat): (r: Option<nat>) {
    if i < |lap.replies| then lap.replies[i] else None
  }

  function Polled(known: seq<nat>, round: nat, lap: Lap): (r: seq<nat>)
    ensures |r| == |known|
  {
    seq(|known|, i requires 0 <= i < |known| => Answered(known[i], round, Reply(lap, i)))
  }

  predicate All(known: seq<nat>, round: nat) { forall i :: 0 <= i < |known| ==> known[i] >= round }

  /** The table after the laps the call ran, and whether it got through. */
  function Laps(peers: seq<nat>, known: seq<nat>, round: nat, laps: seq<Lap>): (r: (seq<nat>, bool))
    requires |known| == |peers|
    ensures |r.0| == |known| && (r.1 ==> All(r.0, round))
    decreases |laps|
  {
    if laps == [] then (known, false)
    else
      var noted := Noted(peers, known, laps[0].heard);
      if All(noted, round) then (noted, true)
      else Laps(peers, Polled(noted, round, laps[0]), round, laps[1..])
  }

  class GlobalSynch {
    const peers: seq<nat>
    var clock: nat
    const known: array<nat>

    ghost predicate Valid()
      reads this
    {
      known.Length == |peers|
    }

    constructor (peers: seq<nat>)
      ensures Valid() && fresh(known) && this.peers == peers && clock == 0
      ensures forall i :: 0 <= i < known.Length ==> known[i] == 0
    {
      this.peers := peers;
      clock := 0;
      known := new nat[|peers|](i => 0);
    }

    /** Record the clocks the responder has heard. */
    method Drain(heard: seq<Seen>)
      requires Valid()
      modifies known
      ensures known[..] == Noted(peers, old(known[..]), heard)
    {
      for k := 0 to |heard|
        invariant known[..] == Noted(peers, old(known[..]), heard[..k])
      {
        assert heard[..k + 1][..k] == heard[..k];
        var p := Index(peers, heard[k].addr);
        if p.Some? {
          known[p.value] := Max(known[p.value], heard[k].clock);
        }
      }
      assert heard[..|heard|] == heard;
    }

    /** Poll every peer not heard from in this round. */
    method PollAll(lap: Lap) returns (all: bool)
      requires Valid()
      modifies known
      ensures all == All(old(known[..]), clock)
      ensures known[..] == Polled(old(known[..]), clock, lap)
      ensures forall i :: 0 <= i < known.Length && old(known[i]) >= clock ==> known[i] == old(known[i])
    {
      all := true;
      for i := 0 to known.Length
        invariant all == All(old(known[..i]), clock)
        invariant forall j :: 0 <= j < i ==> known[j] == Answered(old(known[j]), clock, Reply(lap, j))
        invariant forall j :: i <= j < known.Length ==> known[j] == old(known[j])
      {
        if known[i] < clock {
          all := false;
          assert old(known[..i + 1])[i] < clock;
          var reply := Reply(lap, i);
          if reply.Some? {
            known[i] := Max(known[i], reply.value);
          }
        }
      }
      assert old(known[..known.Length]) == old(known[..]);
    }

    /** Enter the next barrier. */
    method Synch(binds: bool, laps: seq<Lap>) returns (r: Outcome)
      requires Valid()
      modifies this, known
      ensures clock == old(clock) + 1
      ensures peers == [] ==> r == Crossed
      ensures peers != [] && !binds ==> r == NotServed && known[..] == old(known[..])
      ensures peers != [] && binds ==>
        (known[..], r == Crossed) == Laps(peers, old(known[..]), clock, laps) && r != NotServed
    {
      clock := clock + 1;
      if peers == [] {
        return Crossed;
      }
      if !binds {
        return NotServed;
      }
      for k := 0 to |laps|
        invariant clock == old(clock) + 1
        invariant Laps(peers, known[..], clock, laps[k..]) == Laps(peers, old(known[..]), clock, laps)
      {
        assert laps[k..][0] == laps[k] && laps[k..][1..] == laps[k + 1..];
        ghost var before := known[..];
        Drain(laps[k].heard);
        ghost var noted := known[..];
        var all := PollAll(laps[k]);
        if all {
          PollsNobody(noted, clock, laps[k]);
          return Crossed;
        }
      }
      return TimedOut;
    }
  }

  lemma PollsNobody(known: seq<nat>, round: nat, lap: Lap)
    requires All(known, round)
    ensures Polled(known, round, lap) == known
  {}

  // ----- What the table can hold when the call is over -----

  /** A clock that a lap brings for peer `i`: heard from its address, or read from its reply. */
  ghost predicate Evidence(peers: seq<nat>, laps: seq<Lap>, i: nat, clock: nat)
    requires i < |peers|
  {
    exists l :: 0 <= l < |laps| && (HeardIn(laps[l], peers[i], clock) || Reply(laps[l], i) == Some(clock))
  }

  ghost predicate HeardIn(lap: Lap, addr: nat, clock: nat) { Seen(addr, clock) in lap.heard }

  lemma {:induction false} NotedFromHeard(peers: seq<nat>, known: seq<nat>, heard: seq<Seen>, i: nat)
    requires |known| == |peers| && i < |peers|
    ensures var r := Noted(peers, known, heard);
      r[i] >= known[i] && (r[i] == known[i] || Seen(peers[i], r[i]) in heard)
    ensures Index(peers, peers[i]) == Some(i) ==>
      forall e :: e in heard && e.addr == peers[i] ==> Noted(peers, known, heard)[i] >= e.clock
  {
    if heard != [] {
      var n := |heard| - 1;
      NotedFromHeard(peers, known, heard[..n], i);
      assert heard == heard[..n] + [heard[n]];
    }
  }

  /**
   Entries only rise, and only to clocks that came from that very peer: over any laps, with heard
   clocks and replies in any order, lost or late.
   */
  lemma {:induction false} TableHoldsEvidence(peers: seq<nat>, known: seq<nat>, round: nat, laps: seq<Lap>, i: nat)
    requires |known| == |peers| && i < |peers|
    ensures var r := Laps(peers, known, round, laps).0[i];
      r >= known[i] && (r == known[i] || Evidence(peers, laps, i, r))
    decreases |laps|
  {
    if laps != [] {
      var noted := Noted(peers, known, laps[0].heard);
      NotedFromHeard(peers, known, laps[0].heard, i);
      assert HeardIn(laps[0], peers[i], noted[i]) ==> Evidence(peers, laps, i, noted[i]);
      if !All(noted, round) {
        var polled := Polled(noted, round, laps[0]);
        assert Reply(laps[0], i) == Some(polled[i]) ==> Evidence(peers, laps, i, polled[i]);
        TableHoldsEvidence(peers, polled, round, laps[1..], i);
        var r := Laps(peers, known, round, laps).0[i];
        if Evidence(peers, laps[1..], i, r) {
          var l :| 0 <= l < |laps[1..]| && (HeardIn(laps[1..][l], peers[i], r) || Reply(laps[1..][l], i) == Some(r));
          assert laps[1..][l] == laps[l + 1];
        }
      }
    }
  }

  /**
   The call gets through exactly when, at the start of some lap, everything known on entry and
   brought so far puts every peer at this round: it never waits longer, and never leaves sooner.
   */
  lemma {:induction false} CrossesIffAllHeard(peers: seq<nat>, known: seq<nat>, round: nat, laps: seq<Lap>)
    requires |known| == |peers|
    ensures Laps(peers, known, round, laps).1 <==>
      exists l :: 0 <= l < |laps| && All(Noted(peers, Laps(peers, known, round, laps[..l]).0, laps[l].heard), round)
    decreases |laps|
  {
    if laps == [] {
    } else {
      var noted := Noted(peers, known, laps[0].heard);
      assert laps[..0] == [];
      assert All(noted, round) <==> All(Noted(peers, Laps(peers, known, round, laps[..0]).0, laps[0].heard), round);
      if !All(noted, round) {
        var polled := Polled(noted, round, laps[0]);
        CrossesIffAllHeard(peers, polled, round, laps[1..]);
        forall l: nat | l < |laps| - 1
          ensures laps[1..][l] == laps[l + 1]
          ensures Laps(peers, polled, round, laps[1..][..l]).0 == Laps(peers, known, round, laps[..l + 1]).0
        {
          assert laps[..l + 1][0] == laps[0] && laps[..l + 1][1..] == laps[1..][..l];
        }
        var rest := laps[1..];
        if l :| 0 <= l < |rest| && All(Noted(peers, Laps(peers, polled, round, rest[..l]).0, rest[l].heard), round) {
          assert All(Noted(peers, Laps(peers, known, round, laps[..l + 1]).0, laps[l + 1].heard), round);
        }
        if l :| 0 < l < |laps| && All(Noted(peers, Laps(peers, known, round, laps[..l]).0, laps[l].heard), round) {
          assert All(Noted(peers, Laps(peers, polled, round, laps[1..][..l - 1]).0, laps[1..][l - 1].heard), round);
        }
      }
    }
  }

  // ----- The same updates in the state machine -----

  /** Everything but position `me`: a node's peers, in cluster order. */
  function Others<T>(xs: seq<T>, me: nat): (r: seq<T>)
    requires me < |xs|
    ensures |r| == |xs| - 1
    ensures forall i :: 0 <= i < |r| ==> r[i] == xs[if i < me then i else i + 1]
  {
    xs[..me] + xs[me + 1..]
  }

  lemma {:induction false} PositionIsIndex(net: seq<nat>, me: nat, addr: nat, from: nat)
    requires me < |net| && from <= |net|
    ensures Position(net, me, addr, from) ==
      match Index(Others(net, me), addr, if from <= me then from else from - 1)
      case None => None
      case Some(p) => Some(if p < me then p else p + 1)
    decreases |net| - from
  {
    if from < |net| { PositionIsIndex(net, me, addr, from + 1); }
  }

  lemma OthersRaise(known: seq<nat>, me: nat, p: nat, clock: nat)
    requires me < |known| && p < |known| - 1
    ensures Others(Raise(known, if p < me then p else p + 1, clock), me) == Raise(Others(known, me), p, clock)
  {}

  lemma DrainIsNote(net: seq<nat>, s: State, i: nat)
    requires |net| == |s.nodes| && Can(s, Barrier.Action.Drain(i)) && |s.nodes[i].known| == |net|
    ensures Others(LocalAct(net, s, Barrier.Action.Drain(i)).nodes[i].known, i) ==
      Note(Others(net, i), Others(s.nodes[i].known, i), s.nodes[i].seen[0])
  {
    var e := s.nodes[i].seen[0];
    PositionIsIndex(net, i, e.addr, 0);
    var p := Index(Others(net, i), e.addr);
    if p.Some? { OthersRaise(s.nodes[i].known, i, p.value, e.clock); }
  }

  /** A poll that comes back in time is the machine's connection to that peer, read. */
  lemma ReplyIsAnswer(net: seq<nat>, s: State, i: nat, j: nat)
    requires |net| == |s.nodes| && Can(s, ReadReply(i)) && |s.nodes[i].known| == |net|
    requires j < |net| - 1 && s.conns[s.nodes[i].poll.value].to != i
    requires Others(s.nodes[i].known, i)[j] < s.nodes[i].clock
    ensures var c := s.conns[s.nodes[i].poll.value];
      Others(WireAct(net, s, ReadReply(i)).nodes[i].known, i)[j] ==
      Answered(Others(s.nodes[i].known, i)[j], s.nodes[i].clock,
        if c.to == (if j < i then j else j + 1) then Some(c.round) else None)
  {}

  lemma BreakIsAll(s: State, i: nat)
    requires i < |s.nodes| && s.nodes[i].phase == Polling && s.nodes[i].poll == None && i < |s.nodes[i].known|
    ensures Can(s, Break(i)) <==> All(Others(s.nodes[i].known, i), s.nodes[i].clock)
  {
    if All(Others(s.nodes[i].known, i), s.nodes[i].clock) {
      forall j | 0 <= j < |s.nodes[i].known| && j != i ensures s.nodes[i].known[j] >= s.nodes[i].clock {
        assert Others(s.nodes[i].known, i)[if j < i then j else j - 1] == s.nodes[i].known[j];
      }
    }
  }
}
