/**
 Leaving the barrier (tests/common/mod.rs): whether a peer can still need to hear from a node that
 has left.  A run is reliable when every poll that was heard gets its reply read.
 */
module Departure {
  import opened Common
  import opened Barrier

  /** The poller still waits when its request is heard, and does not give up afterwards; replies get written. */
  ghost predicate Reliable(s: State, a: Action) {
    && (a.Hear? && a.k < |s.conns| && s.conns[a.k].from < |s.nodes| ==> s.nodes[s.conns[a.k].from].poll == Some(a.k))
    && (a.PollFails? && a.i < |s.nodes| && s.nodes[a.i].poll.Some? && s.nodes[a.i].poll.value < |s.conns| ==>
          s.conns[s.nodes[a.i].poll.value].stage == Sent)
    && !a.AnswerFails?
  }

  /** `j` knows i's current clock, or has it in its channel or in a reply that is on its way. */
  ghost predicate Told(net: seq<nat>, s: State, i: nat, j: nat)
    requires i < |net| == |s.nodes| && j < |net|
  {
    Knows(s, i, j) || InChannel(net, s, i, j) || OnItsWay(s, i, j)
  }

  predicate Knows(s: State, i: nat, j: nat)
    requires i < |s.nodes| && j < |s.nodes|
  {
    i < |s.nodes[j].known| && s.nodes[j].known[i] >= s.nodes[i].clock
  }

  ghost predicate InChannel(net: seq<nat>, s: State, i: nat, j: nat)
    requires i < |net| == |s.nodes| && j < |net|
  {
    s.nodes[j].phase == Polling && exists e :: e in s.nodes[j].seen && e.addr == net[i] && e.clock >= s.nodes[i].clock
  }

  ghost predicate OnItsWay(s: State, i: nat, j: nat)
    requires i < |s.nodes| && j < |s.nodes|
  {
    s.nodes[j].poll.Some? && s.nodes[j].poll.value < |s.conns| && Promised(s, i, s.conns[s.nodes[j].poll.value])
  }

  ghost predicate Promised(s: State, i: nat, c: Conn)
    requires i < |s.nodes|
  {
    c.to == i && c.round >= s.nodes[i].clock &&
    (c.stage == Replied || (c.stage == Heard && Responding(s.nodes[i]) && c.round == s.nodes[i].clock))
  }

  predicate InRound(n: Node) { Responding(n) || n.left }

  predicate InAnswer(c: Conn) { c.stage == Heard || c.stage == Replied }

  // ----- What exchanges leave behind, in every run -----

  ghost predicate PairsFit(net: seq<nat>, s: State) {
    s.met <= s.sent && forall q :: q in s.sent ==> q.0 < |net| && q.1 < |net| && q.0 != q.1
  }

  /** A clock heard in this round, and no lower than the hearer's, is an exchange of this round. */
  ghost predicate SeenMet(net: seq<nat>, s: State) {
    |s.nodes| == |net| &&
    (forall i :: 0 <= i < |net| && s.nodes[i].phase == Outside ==> s.nodes[i].seen == []) &&
    (forall i, e :: 0 <= i < |net| && e in s.nodes[i].seen ==> EntryMet(net, s, i, e))
  }

  ghost predicate EntryMet(net: seq<nat>, s: State, i: nat, e: Seen)
    requires i < |s.nodes|
  {
    forall p :: 0 <= p < |net| && p != i && net[p] == e.addr && e.clock >= s.nodes[i].clock ==> (i, p) in s.met
  }

  /** A poll that was heard by a peer with a clock no lower is one too. */
  ghost predicate PollsMet(s: State) {
    forall i :: 0 <= i < |s.nodes| && s.nodes[i].poll.Some? && s.nodes[i].poll.value < |s.conns| ==>
      PollMet(s, i, s.conns[s.nodes[i].poll.value])
  }

  ghost predicate PollMet(s: State, i: nat, c: Conn) {
    (c.stage == Heard || c.stage == Replied) && c.round >= c.clock ==> (i, c.to) in s.met
  }

  /** What a node knows beyond what it knew on entry it learned from exchanges of this round. */
  ghost predicate KnownMet(s: State) {
    forall i, j :: 0 <= i < |s.nodes| && 0 <= j < |s.nodes[i].known| && i != j && InRound(s.nodes[i]) ==>
      LearnedMet(s, i, j)
  }

  ghost predicate LearnedMet(s: State, i: nat, j: nat)
    requires i < |s.nodes| && j < |s.nodes[i].known|
  {
    s.nodes[i].known[j] >= s.nodes[i].clock ==> j in s.nodes[i].early || (i, j) in s.met
  }

  ghost predicate EarlyKnown(s: State) {
    forall i, j :: 0 <= i < |s.nodes| && InRound(s.nodes[i]) && j in s.nodes[i].early ==>
      j < |s.nodes[i].known| && s.nodes[i].known[j] >= s.nodes[i].clock
  }

  ghost predicate History(net: seq<nat>, s: State) {
    PairsFit(net, s) && SeenMet(net, s) && PollsMet(s) && KnownMet(s) && EarlyKnown(s)
  }

  lemma EntryPairs(net: seq<nat>, s: State, a: Action)
    requires PairsFit(net, s) && ClocksFit(net, s) && Can(s, a) && EntryAction(a)
    ensures PairsFit(net, EntryAct(net, s, a))
  {}

  lemma EntrySeenMet(net: seq<nat>, s: State, a: Action)
    requires Distinct(net) && SeenMet(net, s) && ClocksFit(net, s) && Can(s, a) && EntryAction(a)
    ensures SeenMet(net, EntryAct(net, s, a))
  {
    var t := EntryAct(net, s, a);
    forall i, e | 0 <= i < |net| && e in t.nodes[i].seen ensures EntryMet(net, t, i, e) {
      assert e in s.nodes[i].seen ==> EntryMet(net, s, i, e);
    }
  }

  lemma EntryPollsMet(net: seq<nat>, s: State, a: Action)
    requires PollsMet(s) && PollsFit(s) && ClocksFit(net, s) && Can(s, a) && EntryAction(a)
    ensures PollsMet(EntryAct(net, s, a))
  {
    var t := EntryAct(net, s, a);
    forall i | 0 <= i < |t.nodes| && t.nodes[i].poll.Some? && t.nodes[i].poll.value < |t.conns|
      ensures PollMet(t, i, t.conns[t.nodes[i].poll.value])
    {
      if s.nodes[i].poll.Some? { assert PollFits(s, i, s.nodes[i], s.nodes[i].poll.value); }
    }
  }

  lemma EntryKnownMet(net: seq<nat>, s: State, a: Action)
    requires Distinct(net) && KnownMet(s) && SeenMet(net, s) && PollsMet(s) && PollsFit(s) && ClocksFit(net, s)
    requires Can(s, a) && EntryAction(a)
    ensures KnownMet(EntryAct(net, s, a))
  {
    var t := EntryAct(net, s, a);
    forall i, j | 0 <= i < |t.nodes| && 0 <= j < |t.nodes[i].known| && i != j && InRound(t.nodes[i])
      ensures LearnedMet(t, i, j)
    {
      assert InRound(s.nodes[i]) ==> LearnedMet(s, i, j);
    }
  }

  lemma EntryEarlyKnown(net: seq<nat>, s: State, a: Action)
    requires EarlyKnown(s) && ClocksFit(net, s) && Can(s, a) && EntryAction(a)
    ensures EarlyKnown(EntryAct(net, s, a))
  {}

  lemma WirePairs(net: seq<nat>, s: State, a: Action)
    requires PairsFit(net, s) && ClocksFit(net, s) && Can(s, a) && WireAction(a)
    ensures PairsFit(net, WireAct(net, s, a))
  {}

  lemma WireSeenMet(net: seq<nat>, s: State, a: Action)
    requires Distinct(net) && SeenMet(net, s) && ClocksFit(net, s) && Can(s, a) && WireAction(a)
    ensures SeenMet(net, WireAct(net, s, a))
  {
    var t := WireAct(net, s, a);
    forall i, e | 0 <= i < |net| && e in t.nodes[i].seen ensures EntryMet(net, t, i, e) {
      assert e in s.nodes[i].seen ==> EntryMet(net, s, i, e);
    }
  }

  lemma WirePollsMet(net: seq<nat>, s: State, a: Action)
    requires PollsMet(s) && PollsFit(s) && ClocksFit(net, s) && Can(s, a) && WireAction(a)
    ensures PollsMet(WireAct(net, s, a))
  {
    var t := WireAct(net, s, a);
    forall i | 0 <= i < |t.nodes| && t.nodes[i].poll.Some? && t.nodes[i].poll.value < |t.conns|
      ensures PollMet(t, i, t.conns[t.nodes[i].poll.value])
    {
      if s.nodes[i].poll.Some? { assert PollFits(s, i, s.nodes[i], s.nodes[i].poll.value); }
    }
  }

  lemma WireKnownMet(net: seq<nat>, s: State, a: Action)
    requires Distinct(net) && KnownMet(s) && SeenMet(net, s) && PollsMet(s) && PollsFit(s) && ClocksFit(net, s)
    requires Can(s, a) && WireAction(a)
    ensures KnownMet(WireAct(net, s, a))
  {
    var t := WireAct(net, s, a);
    forall i, j | 0 <= i < |t.nodes| && 0 <= j < |t.nodes[i].known| && i != j && InRound(t.nodes[i])
      ensures LearnedMet(t, i, j)
    {
      assert InRound(s.nodes[i]) ==> LearnedMet(s, i, j);
    }
  }

  lemma WireEarlyKnown(net: seq<nat>, s: State, a: Action)
    requires EarlyKnown(s) && ClocksFit(net, s) && Can(s, a) && WireAction(a)
    ensures EarlyKnown(WireAct(net, s, a))
  {}

  lemma LocalPairs(net: seq<nat>, s: State, a: Action)
    requires PairsFit(net, s) && ClocksFit(net, s) && Can(s, a) && LocalAction(a)
    ensures PairsFit(net, LocalAct(net, s, a))
  {}

  lemma LocalSeenMet(net: seq<nat>, s: State, a: Action)
    requires Distinct(net) && SeenMet(net, s) && ClocksFit(net, s) && Can(s, a) && LocalAction(a)
    ensures SeenMet(net, LocalAct(net, s, a))
  {
    var t := LocalAct(net, s, a);
    forall i, e | 0 <= i < |net| && e in t.nodes[i].seen ensures EntryMet(net, t, i, e) {
      assert e in s.nodes[i].seen ==> EntryMet(net, s, i, e);
    }
  }

  lemma LocalPollsMet(net: seq<nat>, s: State, a: Action)
    requires PollsMet(s) && PollsFit(s) && ClocksFit(net, s) && Can(s, a) && LocalAction(a)
    ensures PollsMet(LocalAct(net, s, a))
  {
    var t := LocalAct(net, s, a);
    forall i | 0 <= i < |t.nodes| && t.nodes[i].poll.Some? && t.nodes[i].poll.value < |t.conns|
      ensures PollMet(t, i, t.conns[t.nodes[i].poll.value])
    {
      if s.nodes[i].poll.Some? { assert PollFits(s, i, s.nodes[i], s.nodes[i].poll.value); }
    }
  }

  lemma LocalKnownMet(net: seq<nat>, s: State, a: Action)
    requires Distinct(net) && KnownMet(s) && SeenMet(net, s) && PollsMet(s) && PollsFit(s) && ClocksFit(net, s)
    requires Can(s, a) && LocalAction(a)
    ensures KnownMet(LocalAct(net, s, a))
  {
    var t := LocalAct(net, s, a);
    forall i, j | 0 <= i < |t.nodes| && 0 <= j < |t.nodes[i].known| && i != j && InRound(t.nodes[i])
      ensures LearnedMet(t, i, j)
    {
      assert InRound(s.nodes[i]) ==> LearnedMet(s, i, j);
      if a.Drain? && i == a.i { assert EntryMet(net, s, i, s.nodes[i].seen[0]); }
    }
  }

  lemma LocalEarlyKnown(net: seq<nat>, s: State, a: Action)
    requires EarlyKnown(s) && ClocksFit(net, s) && Can(s, a) && LocalAction(a)
    ensures EarlyKnown(LocalAct(net, s, a))
  {}

  lemma HistoryStep(net: seq<nat>, s: State, a: Action)
    requires Distinct(net) && Inv(net, s) && History(net, s) && Can(s, a)
    ensures History(net, Do(net, s, a))
  {
    SameLength(net, s);
    hide Can, EntryAct, WireAct, LocalAct, ClocksFit, PollsFit, LeaversKnow, ClocksClose,
      PairsFit, SeenMet, PollsMet, KnownMet, EarlyKnown;
    if EntryAction(a) {
      EntryPairs(net, s, a); EntrySeenMet(net, s, a); EntryPollsMet(net, s, a); EntryKnownMet(net, s, a);
      EntryEarlyKnown(net, s, a);
    } else if WireAction(a) {
      WirePairs(net, s, a); WireSeenMet(net, s, a); WirePollsMet(net, s, a); WireKnownMet(net, s, a);
      WireEarlyKnown(net, s, a);
    } else {
      LocalPairs(net, s, a); LocalSeenMet(net, s, a); LocalPollsMet(net, s, a); LocalKnownMet(net, s, a);
      LocalEarlyKnown(net, s, a);
    }
  }

  // ----- Without an exchange in the round, nobody can know the round's clock: in every run -----

  /** Nothing anywhere carries i's current clock to `j`. */
  ghost predicate Untold(net: seq<nat>, s: State, i: nat, j: nat)
    requires i < |net| == |s.nodes| && j < |net|
  {
    && (i < |s.nodes[j].known| ==> s.nodes[j].known[i] < s.nodes[i].clock)
    && (forall e :: e in s.nodes[j].seen && e.addr == net[i] ==> e.clock < s.nodes[i].clock)
    && (forall k :: 0 <= k < |s.conns| && s.conns[k].from == j && s.conns[k].to == i && InAnswer(s.conns[k]) ==>
          s.conns[k].round < s.nodes[i].clock)
  }

  ghost predicate SilenceFits(net: seq<nat>, s: State) {
    |s.nodes| == |net| &&
    forall i, j :: 0 <= i < |net| && 0 <= j < |net| && i != j && s.nodes[i].clock > 0 && (i, j) !in s.sent ==>
      Untold(net, s, i, j)
  }

  lemma EntrySilence(net: seq<nat>, s: State, a: Action)
    requires Distinct(net) && SilenceFits(net, s) && ClocksFit(net, s) && PollsFit(s) && Can(s, a) && EntryAction(a)
    ensures SilenceFits(net, EntryAct(net, s, a))
  {
    var t := EntryAct(net, s, a);
    forall i, j | 0 <= i < |net| && 0 <= j < |net| && i != j && t.nodes[i].clock > 0 && (i, j) !in t.sent
      ensures Untold(net, t, i, j)
    {
      assert s.nodes[i].clock > 0 && (i, j) !in s.sent ==> Untold(net, s, i, j);
    }
  }

  lemma WireSilence(net: seq<nat>, s: State, a: Action)
    requires Distinct(net) && SilenceFits(net, s) && ClocksFit(net, s) && PollsFit(s) && Can(s, a) && WireAction(a)
    ensures SilenceFits(net, WireAct(net, s, a))
  {
    hide WireAct, Can, Untold, ClocksFit, PollsFit, Distinct;
    WireSame(net, s, a);
    var t := WireAct(net, s, a);
    forall i, j | 0 <= i < |net| && 0 <= j < |net| && i != j && t.nodes[i].clock > 0 && (i, j) !in t.sent
      ensures Untold(net, t, i, j)
    {
      SentGrows(net, s, a);
      if a.Hear? { HearUntold(net, s, a.k, i, j); }
      else if a.ReadReply? { ReadReplyUntold(net, s, a.i, i, j); }
      else { QuietUntold(net, s, a, i, j); }
    }
  }

  lemma SentGrows(net: seq<nat>, s: State, a: Action)
    requires |net| == |s.nodes| && Can(s, a) && WireAction(a)
    ensures s.sent <= WireAct(net, s, a).sent
  {}

  /** A poll heard by either end is an exchange of the two. */
  lemma HearUntold(net: seq<nat>, s: State, k: nat, i: nat, j: nat)
    requires Distinct(net) && ClocksFit(net, s) && Can(s, Hear(k)) && i < |net| && j < |net| && i != j
    requires Untold(net, s, i, j) && (i, j) !in WireAct(net, s, Hear(k)).sent
    ensures Untold(net, WireAct(net, s, Hear(k)), i, j)
  {
    assert ConnFits(net, s, s.conns[k]);
  }

  lemma ReadReplyUntold(net: seq<nat>, s: State, p: nat, i: nat, j: nat)
    requires ClocksFit(net, s) && PollsFit(s) && Can(s, ReadReply(p)) && i < |net| && j < |net| && i != j
    requires Untold(net, s, i, j)
    ensures Untold(net, WireAct(net, s, ReadReply(p)), i, j)
  {
    assert PollFits(s, p, s.nodes[p], s.nodes[p].poll.value);
  }

  lemma QuietUntold(net: seq<nat>, s: State, a: Action, i: nat, j: nat)
    requires ClocksFit(net, s) && Can(s, a) && (a.Connect? || a.Answer? || a.AnswerFails?)
    requires i < |net| && j < |net| && Untold(net, s, i, j)
    ensures Untold(net, WireAct(net, s, a), i, j)
  {}

  lemma LocalSilence(net: seq<nat>, s: State, a: Action)
    requires Distinct(net) && SilenceFits(net, s) && ClocksFit(net, s) && PollsFit(s) && Can(s, a) && LocalAction(a)
    ensures SilenceFits(net, LocalAct(net, s, a))
  {
    var t := LocalAct(net, s, a);
    forall i, j | 0 <= i < |net| && 0 <= j < |net| && i != j && t.nodes[i].clock > 0 && (i, j) !in t.sent
      ensures Untold(net, t, i, j)
    {
      assert s.nodes[i].clock > 0 && (i, j) !in s.sent ==> Untold(net, s, i, j);
    }
  }

  // ----- In a reliable run, an exchange at no lower a clock is never lost -----

  /** Every heard poll still has its poller waiting. */
  ghost predicate Waiting(s: State) {
    forall k :: 0 <= k < |s.conns| && (s.conns[k].stage == Heard || s.conns[k].stage == Replied) ==>
      s.conns[k].from < |s.nodes| && s.nodes[s.conns[k].from].poll == Some(k)
  }

  ghost predicate MetTold(net: seq<nat>, s: State) {
    |s.nodes| == |net| &&
    forall q :: q in s.met ==> q.0 < |net| && q.1 < |net| && q.0 != q.1 &&
                               s.nodes[q.1].clock >= s.nodes[q.0].clock && Told(net, s, q.0, q.1)
  }

  lemma EntryWaiting(net: seq<nat>, s: State, a: Action)
    requires Waiting(s) && PollsFit(s) && ClocksFit(net, s) && Can(s, a) && Reliable(s, a) && EntryAction(a)
    ensures Waiting(EntryAct(net, s, a))
  {}

  lemma EntryTold(net: seq<nat>, s: State, a: Action, i: nat, j: nat)
    requires Distinct(net) && Waiting(s) && PollsFit(s) && ClocksFit(net, s) && LeaversKnow(s)
    requires Can(s, a) && Reliable(s, a) && EntryAction(a)
    requires i < |net| && j < |net| && i != j && Told(net, s, i, j) && s.nodes[j].clock >= s.nodes[i].clock
    requires EntryAct(net, s, a).nodes[i].clock == s.nodes[i].clock
    ensures Told(net, EntryAct(net, s, a), i, j)
  {}

  lemma WireWaiting(net: seq<nat>, s: State, a: Action)
    requires Waiting(s) && PollsFit(s) && ClocksFit(net, s) && Can(s, a) && Reliable(s, a) && WireAction(a)
    ensures Waiting(WireAct(net, s, a))
  {}

  lemma WireKnows(net: seq<nat>, s: State, a: Action, i: nat, j: nat)
    requires |net| == |s.nodes| && Can(s, a) && WireAction(a) && i < |net| && j < |net|
    requires WireAct(net, s, a).nodes[i].clock == s.nodes[i].clock
    requires Knows(s, i, j)
    ensures Knows(WireAct(net, s, a), i, j)
  {}

  lemma WireInChannel(net: seq<nat>, s: State, a: Action, i: nat, j: nat)
    requires |net| == |s.nodes| && Can(s, a) && WireAction(a) && i < |net| && j < |net|
    requires WireAct(net, s, a).nodes[i].clock == s.nodes[i].clock
    requires InChannel(net, s, i, j)
    ensures InChannel(net, WireAct(net, s, a), i, j)
  {
    var e :| e in s.nodes[j].seen && e.addr == net[i] && e.clock >= s.nodes[i].clock;
    assert e in WireAct(net, s, a).nodes[j].seen;
  }

  lemma WireOnItsWay(net: seq<nat>, s: State, a: Action, i: nat, j: nat)
    requires |net| == |s.nodes| && ClocksFit(net, s) && PollsFit(s) && Can(s, a) && WireAction(a)
    requires i < |net| && j < |net|
    requires WireAct(net, s, a).nodes[i].clock == s.nodes[i].clock
    requires Reliable(s, a) && i != j && OnItsWay(s, i, j)
    ensures OnItsWay(WireAct(net, s, a), i, j) || Knows(WireAct(net, s, a), i, j)
  {
    assert PollFits(s, j, s.nodes[j], s.nodes[j].poll.value);
  }

  lemma WireTold(net: seq<nat>, s: State, a: Action, i: nat, j: nat)
    requires Distinct(net) && Waiting(s) && PollsFit(s) && ClocksFit(net, s) && LeaversKnow(s)
    requires Can(s, a) && Reliable(s, a) && WireAction(a)
    requires i < |net| && j < |net| && i != j && Told(net, s, i, j) && s.nodes[j].clock >= s.nodes[i].clock
    requires WireAct(net, s, a).nodes[i].clock == s.nodes[i].clock
    ensures Told(net, WireAct(net, s, a), i, j)
  {
    hide Knows, InChannel, OnItsWay, Waiting, PollsFit, LeaversKnow, WireAct, Can;
    if Knows(s, i, j) { WireKnows(net, s, a, i, j); }
    else if InChannel(net, s, i, j) { WireInChannel(net, s, a, i, j); }
    else { WireOnItsWay(net, s, a, i, j); }
  }

  lemma LocalWaiting(net: seq<nat>, s: State, a: Action)
    requires Waiting(s) && PollsFit(s) && ClocksFit(net, s) && Can(s, a) && Reliable(s, a) && LocalAction(a)
    ensures Waiting(LocalAct(net, s, a))
  {}

  lemma LocalKnows(net: seq<nat>, s: State, a: Action, i: nat, j: nat)
    requires |net| == |s.nodes| && Can(s, a) && LocalAction(a) && i < |net| && j < |net|
    requires LocalAct(net, s, a).nodes[i].clock == s.nodes[i].clock
    requires Knows(s, i, j)
    ensures Knows(LocalAct(net, s, a), i, j)
  {}

  lemma LocalInChannel(net: seq<nat>, s: State, a: Action, i: nat, j: nat)
    requires |net| == |s.nodes| && Distinct(net) && ClocksFit(net, s) && Can(s, a) && LocalAction(a)
    requires i < |net| && j < |net|
    requires LocalAct(net, s, a).nodes[i].clock == s.nodes[i].clock
    requires i != j && InChannel(net, s, i, j) && s.nodes[j].clock >= s.nodes[i].clock
    ensures InChannel(net, LocalAct(net, s, a), i, j) || Knows(LocalAct(net, s, a), i, j)
  {
    var e :| e in s.nodes[j].seen && e.addr == net[i] && e.clock >= s.nodes[i].clock;
    var t := LocalAct(net, s, a);
    if a.Drain? && a.i == j {
      if e != s.nodes[j].seen[0] { assert e in t.nodes[j].seen; }
    } else if t.nodes[j].phase == Polling {
      assert e in t.nodes[j].seen;
    }
  }

  lemma LocalOnItsWay(net: seq<nat>, s: State, a: Action, i: nat, j: nat)
    requires |net| == |s.nodes| && PollsFit(s) && Waiting(s) && Can(s, a) && LocalAction(a) && i < |net| && j < |net|
    requires LocalAct(net, s, a).nodes[i].clock == s.nodes[i].clock
    requires Reliable(s, a) && i != j && OnItsWay(s, i, j)
    ensures OnItsWay(LocalAct(net, s, a), i, j)
  {
    assert PollFits(s, j, s.nodes[j], s.nodes[j].poll.value);
  }

  lemma LocalTold(net: seq<nat>, s: State, a: Action, i: nat, j: nat)
    requires Distinct(net) && Waiting(s) && PollsFit(s) && ClocksFit(net, s) && LeaversKnow(s)
    requires Can(s, a) && Reliable(s, a) && LocalAction(a)
    requires i < |net| && j < |net| && i != j && Told(net, s, i, j) && s.nodes[j].clock >= s.nodes[i].clock
    requires LocalAct(net, s, a).nodes[i].clock == s.nodes[i].clock
    ensures Told(net, LocalAct(net, s, a), i, j)
  {
    hide Knows, InChannel, OnItsWay, Waiting, PollsFit, LeaversKnow, LocalAct, Can;
    if Knows(s, i, j) { LocalKnows(net, s, a, i, j); }
    else if InChannel(net, s, i, j) { LocalInChannel(net, s, a, i, j); }
    else { LocalOnItsWay(net, s, a, i, j); }
  }

  lemma EntryMetTold(net: seq<nat>, s: State, a: Action)
    requires Distinct(net) && MetTold(net, s) && Waiting(s) && PollsFit(s) && ClocksFit(net, s) && LeaversKnow(s)
    requires Can(s, a) && Reliable(s, a) && EntryAction(a)
    ensures MetTold(net, EntryAct(net, s, a))
  {
    hide Told, Waiting, PollsFit, LeaversKnow;
    var t := EntryAct(net, s, a);
    forall q | q in t.met
      ensures q.0 < |net| && q.1 < |net| && q.0 != q.1 && t.nodes[q.1].clock >= t.nodes[q.0].clock &&
        Told(net, t, q.0, q.1)
    {
      assert q in s.met;
      EntryTold(net, s, a, q.0, q.1);
    }
  }

  /** The two pairs that one heard poll can add. */
  lemma HearMeets(net: seq<nat>, s: State, k: nat)
    requires Distinct(net) && PollsFit(s) && ClocksFit(net, s) && LeaversKnow(s)
    requires Can(s, Hear(k)) && Reliable(s, Hear(k))
    ensures var c := s.conns[k]; var t := WireAct(net, s, Hear(k));
      && (s.nodes[c.to].clock <= c.clock ==> t.nodes[c.from].clock >= t.nodes[c.to].clock && Told(net, t, c.to, c.from))
      && (s.nodes[c.from].clock <= s.nodes[c.to].clock ==> Told(net, t, c.from, c.to))
  {
    var c := s.conns[k];
    var t := WireAct(net, s, Hear(k));
    assert PollFits(s, c.from, s.nodes[c.from], k);
    assert ConnFits(net, s, c);
    var e := Seen(net[c.from], c.clock);
    assert e in t.nodes[c.to].seen;
  }

  /** What a step of the wire adds to `met` are pairs of one heard poll. */
  lemma WireMeets(net: seq<nat>, s: State, a: Action, q: (nat, nat))
    requires |net| == |s.nodes| && Can(s, a) && WireAction(a) && q in WireAct(net, s, a).met && q !in s.met
    ensures a.Hear? && a.k < |s.conns| && s.conns[a.k].from < |net| && s.conns[a.k].to < |net|
    ensures var c := s.conns[a.k];
      (q == (c.to, c.from) && s.nodes[c.to].clock <= c.clock) ||
        (q == (c.from, c.to) && s.nodes[c.from].clock <= s.nodes[c.to].clock)
  {}

  lemma WireMetTold(net: seq<nat>, s: State, a: Action)
    requires Distinct(net) && MetTold(net, s) && Waiting(s) && PollsFit(s) && ClocksFit(net, s) && LeaversKnow(s)
    requires Can(s, a) && Reliable(s, a) && WireAction(a)
    ensures MetTold(net, WireAct(net, s, a))
  {
    hide Told, Waiting, PollsFit, LeaversKnow, WireAct, Can, Reliable, Distinct;
    WireSame(net, s, a);
    var t := WireAct(net, s, a);
    forall q | q in t.met
      ensures q.0 < |net| && q.1 < |net| && q.0 != q.1 && t.nodes[q.1].clock >= t.nodes[q.0].clock &&
        Told(net, t, q.0, q.1)
    {
      if q in s.met {
        WireTold(net, s, a, q.0, q.1);
      } else {
        WireMeets(net, s, a, q);
        HearMeets(net, s, a.k);
        assert ConnFits(net, s, s.conns[a.k]);
      }
    }
  }

  lemma LocalMetTold(net: seq<nat>, s: State, a: Action)
    requires Distinct(net) && MetTold(net, s) && Waiting(s) && PollsFit(s) && ClocksFit(net, s) && LeaversKnow(s)
    requires Can(s, a) && Reliable(s, a) && LocalAction(a)
    ensures MetTold(net, LocalAct(net, s, a))
  {
    hide Told, Waiting, PollsFit, LeaversKnow;
    var t := LocalAct(net, s, a);
    forall q | q in t.met
      ensures q.0 < |net| && q.1 < |net| && q.0 != q.1 && t.nodes[q.1].clock >= t.nodes[q.0].clock &&
        Told(net, t, q.0, q.1)
    {
      LocalTold(net, s, a, q.0, q.1);
    }
  }

  /** A peer known high enough on entry that is exchanged with anyway is exchanged with at no lower a clock. */
  ghost predicate EarlyMet(s: State) {
    forall q :: q in s.sent && q.0 < |s.nodes| && q.1 in s.nodes[q.0].early ==> q in s.met
  }

  lemma EntryEarlyMet(net: seq<nat>, s: State, a: Action)
    requires EarlyMet(s) && PairsFit(net, s) && |s.nodes| == |net| && Can(s, a) && EntryAction(a)
    ensures EarlyMet(EntryAct(net, s, a))
  {}

  lemma HearEarlyMet(net: seq<nat>, s: State, k: nat)
    requires EarlyMet(s) && EarlyKnown(s) && PollsFit(s) && ClocksFit(net, s) && Can(s, Hear(k)) && Reliable(s, Hear(k))
    ensures EarlyMet(WireAct(net, s, Hear(k)))
  {
    var c := s.conns[k];
    assert PollFits(s, c.from, s.nodes[c.from], k);
    assert c.from in s.nodes[c.to].early ==> s.nodes[c.to].known[c.from] >= s.nodes[c.to].clock;
    assert c.to in s.nodes[c.from].early ==> s.nodes[c.from].known[c.to] >= s.nodes[c.from].clock;
  }

  lemma WireEarlyMet(net: seq<nat>, s: State, a: Action)
    requires EarlyMet(s) && EarlyKnown(s) && PollsFit(s) && ClocksFit(net, s) && Can(s, a) && Reliable(s, a)
    requires WireAction(a)
    ensures EarlyMet(WireAct(net, s, a))
  {
    if a.Hear? {
      HearEarlyMet(net, s, a.k);
    } else {
      WireSame(net, s, a);
    }
  }

  lemma LocalEarlyMet(net: seq<nat>, s: State, a: Action)
    requires EarlyMet(s) && |s.nodes| == |net| && Can(s, a) && LocalAction(a)
    ensures EarlyMet(LocalAct(net, s, a))
  {}

  ghost predicate Courtesy(net: seq<nat>, s: State) {
    Waiting(s) && MetTold(net, s) && EarlyMet(s)
  }

  lemma CourtesyStep(net: seq<nat>, s: State, a: Action)
    requires Distinct(net) && Inv(net, s) && History(net, s) && Courtesy(net, s) && Can(s, a) && Reliable(s, a)
    ensures Courtesy(net, Do(net, s, a))
  {
    SameLength(net, s);
    hide Can, Reliable, EntryAct, WireAct, LocalAct, ClocksFit, PollsFit, LeaversKnow, ClocksClose,
      PairsFit, SeenMet, PollsMet, KnownMet, EarlyKnown, Waiting, MetTold, EarlyMet;
    if EntryAction(a) {
      EntryWaiting(net, s, a); EntryMetTold(net, s, a); EntryEarlyMet(net, s, a);
    } else if WireAction(a) {
      WireWaiting(net, s, a); WireMetTold(net, s, a); WireEarlyMet(net, s, a);
    } else {
      LocalWaiting(net, s, a); LocalMetTold(net, s, a); LocalEarlyMet(net, s, a);
    }
  }

  // ----- The first round -----

  /** Before its first call a node knows nothing, and in its first round nobody was known on entry. */
  ghost predicate FreshStart(s: State) {
    forall i :: 0 <= i < |s.nodes| ==> FreshNode(s.nodes[i])
  }

  predicate FreshNode(n: Node) {
    && (n.clock == 0 ==> n.phase == Outside && forall j :: 0 <= j < |n.known| ==> n.known[j] == 0)
    && (n.clock == 1 ==> n.early == {})
  }

  lemma EntryFresh(net: seq<nat>, s: State, a: Action)
    requires FreshStart(s) && |s.nodes| == |net| && Can(s, a) && EntryAction(a)
    ensures FreshStart(EntryAct(net, s, a))
  {
    var t := EntryAct(net, s, a);
    assert FreshNode(s.nodes[a.i]);
    forall i | 0 <= i < |t.nodes| ensures FreshNode(t.nodes[i]) { assert FreshNode(s.nodes[i]); }
  }

  lemma WireFresh(net: seq<nat>, s: State, a: Action)
    requires FreshStart(s) && PollsFit(s) && |s.nodes| == |net| && Can(s, a) && WireAction(a)
    ensures FreshStart(WireAct(net, s, a))
  {
    var t := WireAct(net, s, a);
    forall i | 0 <= i < |t.nodes| ensures FreshNode(t.nodes[i]) { assert FreshNode(s.nodes[i]); }
  }

  lemma LocalFresh(net: seq<nat>, s: State, a: Action)
    requires FreshStart(s) && |s.nodes| == |net| && Can(s, a) && LocalAction(a)
    ensures FreshStart(LocalAct(net, s, a))
  {
    var t := LocalAct(net, s, a);
    forall i | 0 <= i < |t.nodes| ensures FreshNode(t.nodes[i]) { assert FreshNode(s.nodes[i]); }
  }

  // ----- Runs -----

  ghost predicate Always(net: seq<nat>, s: State) {
    Inv(net, s) && History(net, s) && SilenceFits(net, s) && FreshStart(s)
  }

  lemma AlwaysStep(net: seq<nat>, s: State, a: Action)
    requires Distinct(net) && Always(net, s) && Can(s, a)
    ensures Always(net, Do(net, s, a))
  {
    SameLength(net, s);
    StepKeeps(net, s, a);
    HistoryStep(net, s, a);
    hide Can, EntryAct, WireAct, LocalAct, ClocksFit, PollsFit, LeaversKnow, ClocksClose, History, SilenceFits,
      FreshStart;
    if EntryAction(a) {
      EntrySilence(net, s, a); EntryFresh(net, s, a);
    } else if WireAction(a) {
      WireSilence(net, s, a); WireFresh(net, s, a);
    } else {
      LocalSilence(net, s, a); LocalFresh(net, s, a);
    }
  }

  lemma InitialAlways(net: seq<nat>)
    ensures Always(net, Initial(|net|)) && Courtesy(net, Initial(|net|))
  {
    InitialFits(net);
  }

  lemma {:induction false} RunAlways(net: seq<nat>, states: seq<State>, actions: seq<Action>, m: nat)
    requires Distinct(net) && Run(net, states, actions) && m < |states|
    ensures Always(net, states[m])
  {
    hide Always, Courtesy, Can, Do;
    if m == 0 {
      InitialAlways(net);
    } else {
      RunAlways(net, states, actions, m - 1);
      AlwaysStep(net, states[m - 1], actions[m - 1]);
    }
  }

  ghost predicate ReliableRun(net: seq<nat>, states: seq<State>, actions: seq<Action>) {
    Run(net, states, actions) && forall m :: 0 <= m < |actions| ==> Reliable(states[m], actions[m])
  }

  lemma {:induction false} RunCourtesy(net: seq<nat>, states: seq<State>, actions: seq<Action>, m: nat)
    requires Distinct(net) && ReliableRun(net, states, actions) && m < |states|
    ensures Courtesy(net, states[m])
  {
    hide Inv, History, SilenceFits, FreshStart, Courtesy, Can, Do, Reliable, Initial;
    if m == 0 {
      InitialAlways(net);
    } else {
      RunCourtesy(net, states, actions, m - 1);
      RunAlways(net, states, actions, m - 1);
      CourtesyStep(net, states[m - 1], actions[m - 1]);
    }
  }

  /**
   In any run at all, a peer that node i had no exchange with in its current round has no way to
   the round's clock: not in its table, not in its channel, not in an answer on the wire.
   */
  lemma SilentPeersAreUntold(net: seq<nat>, states: seq<State>, actions: seq<Action>, m: nat, i: nat, j: nat)
    requires Distinct(net) && Run(net, states, actions) && m < |states| && i < |net| && j < |net| && i != j
    ensures |states[m].nodes| == |net|
    ensures states[m].nodes[i].clock > 0 && (i, j) !in states[m].sent ==> !Told(net, states[m], i, j)
  {
    hide Can, Do, History, LeaversKnow, ClocksClose, FreshStart, Initial;
    var s := states[m];
    RunAlways(net, states, actions, m);
    if s.nodes[i].clock > 0 && (i, j) !in s.sent {
      assert Untold(net, s, i, j);
      assert s.nodes[j].poll.Some? ==> PollFits(s, j, s.nodes[j], s.nodes[j].poll.value);
    }
  }

  /**
   Departure.  In a reliable run, once node i has left a round, a peer has i's clock of that round,
   or is about to read it, exactly when the two had an exchange during the round; and only a peer
   whose clock was already known high enough on entry can have gone without one.
   */
  lemma LeaverHasTold(net: seq<nat>, states: seq<State>, actions: seq<Action>, m: nat, i: nat, j: nat)
    requires Distinct(net) && ReliableRun(net, states, actions) && m < |states| && i < |net| && j < |net| && i != j
    requires i < |states[m].nodes| && states[m].nodes[i].left && states[m].nodes[i].clock > 0
    ensures |states[m].nodes| == |net|
    ensures Told(net, states[m], i, j) <==> (i, j) in states[m].sent
    ensures j !in states[m].nodes[i].early ==> (i, j) in states[m].sent
  {
    hide Can, Do, Reliable, SilenceFits, ClocksClose, Told, Waiting, Initial;
    var s := states[m];
    RunAlways(net, states, actions, m);
    RunCourtesy(net, states, actions, m);
    SilentPeersAreUntold(net, states, actions, m, i, j);
    assert s.nodes[i].known[j] >= s.nodes[i].clock;
    assert LearnedMet(s, i, j);
  }

  /** After its first round a node has told every peer. */
  lemma FirstRoundTellsAll(net: seq<nat>, states: seq<State>, actions: seq<Action>, m: nat, i: nat, j: nat)
    requires Distinct(net) && ReliableRun(net, states, actions) && m < |states| && i < |net| && j < |net| && i != j
    requires i < |states[m].nodes| && states[m].nodes[i].left && states[m].nodes[i].clock == 1
    ensures |states[m].nodes| == |net| && Told(net, states[m], i, j)
  {
    hide Can, Do, Reliable, SilenceFits, ClocksClose, Told, Waiting, Initial, Inv, History;
    LeaverHasTold(net, states, actions, m, i, j);
    RunAlways(net, states, actions, m);
    assert FreshNode(states[m].nodes[i]);
  }
}
