/**
 Matching completions to one-sided calls (src/rdma/verbs.rs).  The device is an
 adversary: for every call it decides whether the post is taken, and before every poll
 which outstanding requests finish, in any order, with success or not, and whether
 the poll itself fails.  Running out of rounds is the deadline.
 */
module Completion {
  import opened Common

  datatype Wc = Wc(wrId: u64, success: bool)

  /** Requests posted and not finished, in post order; completions not polled yet; every completion so far. */
  datatype Device = Device(outstanding: seq<u64>, cq: seq<Wc>, log: seq<Wc>)

  /** The request at position `pick` of the outstanding ones finishes. */
  datatype Finish = Finish(pick: nat, success: bool)

  datatype Round = Round(finished: seq<Finish>, pollFails: bool)

  datatype Script = Script(postFails: bool, rounds: seq<Round>)

  datatype Request = Request(len: nat, registered: nat, sameDomain: bool) {
    predicate Acceptable() { 0 < len <= registered && sameDomain }
  }

  datatype Outcome = Success | Failed | TimedOut | PollFailed | PostFailed | Refused

  datatype Conn = Conn(nextWrId: u64, dev: Device)

  const FRESH: Conn := Conn(0, Device([], [], []))

  function FinishOne(d: Device, f: Finish): (r: Device) {
    if f.pick < |d.outstanding| then
      var wc := Wc(d.outstanding[f.pick], f.success);
      Device(d.outstanding[..f.pick] + d.outstanding[f.pick + 1..], d.cq + [wc], d.log + [wc])
    else d
  }

  function FinishAll(d: Device, fs: seq<Finish>): (r: Device)
    decreases |fs|
  {
    if fs == [] then d else FinishAll(FinishOne(d, fs[0]), fs[1..])
  }

  /** Polling until `id`'s completion, an error, or the deadline; other completions are skipped. */
  function PollUntil(d: Device, id: u64, rounds: seq<Round>): (r: (Device, Outcome))
    decreases |rounds|
  {
    if rounds == [] then (d, TimedOut)
    else
      var d1 := FinishAll(d, rounds[0].finished);
      if rounds[0].pollFails then (d1, PollFailed)
      else if d1.cq == [] then PollUntil(d1, id, rounds[1..])
      else
        var d2 := d1.(cq := d1.cq[1..]);
        if d1.cq[0].wrId == id then (d2, if d1.cq[0].success then Success else Failed)
        else PollUntil(d2, id, rounds[1..])
  }

  /** One call; the work-request counter is a 64-bit word. */
  function OneCall(c: Conn, q: Request, s: Script): (r: (Conn, Outcome)) {
    if !q.Acceptable() then (c, Refused)
    else
      var next: u64 := (c.nextWrId + 1) % U64_LIMIT;
      if s.postFails then (Conn(next, c.dev), PostFailed)
      else
        var posted := c.dev.(outstanding := c.dev.outstanding + [c.nextWrId]);
        var (d, outcome) := PollUntil(posted, c.nextWrId, s.rounds);
        (Conn(next, d), outcome)
  }

  /** The connection as the program holds it. */
  class Connection {
    var nextWrId: u64
    var dev: Device

    constructor ()
      ensures Conn(nextWrId, dev) == FRESH
    {
      nextWrId, dev := 0, Device([], [], []);
    }

    /** `one_sided`. */
    method OneSided(q: Request, s: Script) returns (outcome: Outcome)
      modifies this
      ensures (Conn(nextWrId, dev), outcome) == OneCall(Conn(old(nextWrId), old(dev)), q, s)
      ensures outcome == Refused <==> q.len == 0 || q.len > q.registered || !q.sameDomain
      ensures outcome == PostFailed <==> outcome != Refused && s.postFails
      ensures outcome == Refused || outcome == PostFailed ==> dev == old(dev)
      ensures nextWrId == if outcome == Refused then old(nextWrId) else (old(nextWrId) + 1) % U64_LIMIT
    {
      PollOutcomes(dev.(outstanding := dev.outstanding + [nextWrId]), nextWrId, s.rounds);
      if q.len == 0 || q.len > q.registered || !q.sameDomain { return Refused; }
      var wrId := nextWrId;
      nextWrId := (nextWrId + 1) % U64_LIMIT;
      if s.postFails { return PostFailed; }
      dev := dev.(outstanding := dev.outstanding + [wrId]);
      ghost var goal := PollUntil(dev, wrId, s.rounds);
      var i := 0;
      while i < |s.rounds|
        invariant 0 <= i <= |s.rounds|
        invariant nextWrId == (wrId + 1) % U64_LIMIT
        invariant goal == PollUntil(dev, wrId, s.rounds[i..])
      {
        dev := FinishAll(dev, s.rounds[i].finished);
        if s.rounds[i].pollFails { return PollFailed; }
        if dev.cq != [] {
          var wc := dev.cq[0];
          dev := dev.(cq := dev.cq[1..]);
          if wc.wrId == wrId {
            return if wc.success then Success else Failed;
          }
        }
        i := i + 1;
      }
      outcome := TimedOut;
    }
  }

  // ----- How a call ends -----

  /** After `rounds`, each with its finishes and one poll, whatever the polls find. */
  function Polls(d: Device, rounds: seq<Round>): (r: Device)
    decreases |rounds|
  {
    if rounds == [] then d else Polls(Popped(FinishAll(d, rounds[0].finished)), rounds[1..])
  }

  function Popped(d: Device): (r: Device) { if d.cq == [] then d else d.(cq := d.cq[1..]) }

  /** What the poll of round `i` finds in the queue. */
  function AtPoll(d: Device, rounds: seq<Round>, i: nat): (r: Device)
    requires i < |rounds|
  {
    FinishAll(Polls(d, rounds[..i]), rounds[i].finished)
  }

  /** The poll of round `i` works and takes the completion `wc`. */
  ghost predicate Takes(d: Device, rounds: seq<Round>, i: nat, wc: Wc)
    requires i < |rounds|
  {
    !rounds[i].pollFails && AtPoll(d, rounds, i).cq != [] && AtPoll(d, rounds, i).cq[0] == wc
  }

  /** Every poll before round `i` works, and finds nothing or somebody else's completion. */
  ghost predicate NothingBefore(d: Device, id: u64, rounds: seq<Round>, i: nat)
    requires i <= |rounds|
  {
    forall j :: 0 <= j < i ==>
      !rounds[j].pollFails && !Takes(d, rounds, j, Wc(id, true)) && !Takes(d, rounds, j, Wc(id, false))
  }

  /** The round that decides, if there is one. */
  ghost predicate Decides(d: Device, id: u64, rounds: seq<Round>, i: nat, outcome: Outcome)
    requires i < |rounds|
  {
    NothingBefore(d, id, rounds, i) &&
    match outcome
    case PollFailed => rounds[i].pollFails
    case Success => Takes(d, rounds, i, Wc(id, true))
    case Failed => Takes(d, rounds, i, Wc(id, false))
    case _ => false
  }

  ghost predicate Decided(d: Device, id: u64, rounds: seq<Round>, outcome: Outcome) {
    exists i :: 0 <= i < |rounds| && Decides(d, id, rounds, i, outcome)
  }

  lemma PollOutcomes(d: Device, id: u64, rounds: seq<Round>)
    ensures PollUntil(d, id, rounds).1 in {Success, Failed, TimedOut, PollFailed}
    decreases |rounds|
  {}

  lemma AtLater(d: Device, rounds: seq<Round>, i: nat)
    requires 0 < i < |rounds|
    ensures AtPoll(d, rounds, i) == AtPoll(Popped(FinishAll(d, rounds[0].finished)), rounds[1..], i - 1)
  {
    assert rounds[..i][1..] == rounds[1..][..i - 1];
  }

  lemma NothingLater(d: Device, id: u64, rounds: seq<Round>, i: nat)
    requires 0 < i <= |rounds|
    ensures NothingBefore(d, id, rounds, i) <==>
      NothingBefore(d, id, rounds, 1) &&
      NothingBefore(Popped(FinishAll(d, rounds[0].finished)), id, rounds[1..], i - 1)
  {
    hide AtPoll;
    var d1, later := Popped(FinishAll(d, rounds[0].finished)), rounds[1..];
    forall j | 0 < j < i ensures AtPoll(d, rounds, j) == AtPoll(d1, later, j - 1) { AtLater(d, rounds, j); }
    if NothingBefore(d, id, rounds, i) {
      forall j | 0 <= j < i - 1
        ensures !later[j].pollFails && !Takes(d1, later, j, Wc(id, true)) && !Takes(d1, later, j, Wc(id, false))
      {
        assert !rounds[j + 1].pollFails;
        assert AtPoll(d, rounds, j + 1) == AtPoll(d1, later, j);
        assert !Takes(d, rounds, j + 1, Wc(id, true)) && !Takes(d, rounds, j + 1, Wc(id, false));
      }
    }
  }

  /** The rounds decide: at the first round that fails or takes the call's own completion, else never. */
  lemma {:induction false} PollEnds(d: Device, id: u64, rounds: seq<Round>)
    ensures var (e, outcome) := PollUntil(d, id, rounds);
      if outcome == TimedOut then NothingBefore(d, id, rounds, |rounds|) && e == Polls(d, rounds)
      else Decided(d, id, rounds, outcome)
    decreases |rounds|
  {
    if rounds != [] {
      var d1 := FinishAll(d, rounds[0].finished);
      var d2, later := Popped(d1), rounds[1..];
      assert AtPoll(d, rounds, 0) == d1 by { assert rounds[..0] == []; }
      hide AtPoll, FinishAll;
      var outcome := PollUntil(d, id, rounds).1;
      if rounds[0].pollFails || (d1.cq != [] && d1.cq[0].wrId == id) {
        assert Decides(d, id, rounds, 0, outcome);
      } else {
        PollEnds(d2, id, later);
        assert NothingBefore(d, id, rounds, 1);
        if outcome == TimedOut {
          NothingLater(d, id, rounds, |rounds|);
        } else {
          var i :| 0 <= i < |later| && Decides(d2, id, later, i, outcome);
          NothingLater(d, id, rounds, i + 1);
          AtLater(d, rounds, i + 1);
          assert Decides(d, id, rounds, i + 1, outcome);
        }
      }
    }
  }

  /** At most one round decides, and in one way. */
  lemma OneDecides(d: Device, id: u64, rounds: seq<Round>, i: nat, a: Outcome, j: nat, b: Outcome)
    requires i < |rounds| && j < |rounds|
    requires Decides(d, id, rounds, i, a) && Decides(d, id, rounds, j, b)
    ensures i == j && a == b
  {
    hide AtPoll;
  }

  /** A posted call times out iff no poll fails or takes its completion; any other end is the deciding round's. */
  lemma EndsIff(c: Conn, q: Request, s: Script)
    requires q.Acceptable() && !s.postFails
    ensures var posted := c.dev.(outstanding := c.dev.outstanding + [c.nextWrId]);
      var (e, outcome) := OneCall(c, q, s);
      && (outcome == TimedOut <==> NothingBefore(posted, c.nextWrId, s.rounds, |s.rounds|))
      && (outcome == TimedOut ==> e.dev == Polls(posted, s.rounds))
      && (outcome == Success <==> Decided(posted, c.nextWrId, s.rounds, Success))
      && (outcome == Failed <==> Decided(posted, c.nextWrId, s.rounds, Failed))
      && (outcome == PollFailed <==> Decided(posted, c.nextWrId, s.rounds, PollFailed))
  {
    hide AtPoll, PollUntil;
    var posted := c.dev.(outstanding := c.dev.outstanding + [c.nextWrId]);
    var outcome := OneCall(c, q, s).1;
    PollEnds(posted, c.nextWrId, s.rounds);
    PollOutcomes(posted, c.nextWrId, s.rounds);
    forall end: Outcome, i | 0 <= i < |s.rounds| && Decides(posted, c.nextWrId, s.rounds, i, end)
      ensures outcome == end
    {
      if outcome != TimedOut {
        var j :| 0 <= j < |s.rounds| && Decides(posted, c.nextWrId, s.rounds, j, outcome);
        OneDecides(posted, c.nextWrId, s.rounds, i, end, j, outcome);
      }
    }
  }

  /** On an idle device, after any number of empty polls, the completion comes: the call ends as it says. */
  lemma {:induction false} WaitsForItsCompletion(c: Conn, q: Request, empty: nat, success: bool, rest: seq<Round>)
    requires q.Acceptable() && c.dev.outstanding == [] && c.dev.cq == []
    ensures
      var rounds := seq(empty, _ => Round([], false)) + [Round([Finish(0, success)], false)] + rest;
      OneCall(c, q, Script(false, rounds)) ==
      (Conn((c.nextWrId + 1) % U64_LIMIT, Device([], [], c.dev.log + [Wc(c.nextWrId, success)])),
       if success then Success else Failed)
  {
    assert [] + [c.nextWrId] == [c.nextWrId];
    WaitsOnePoll(Device([c.nextWrId], [], c.dev.log), empty, success, rest);
  }

  lemma {:induction false} WaitsOnePoll(d: Device, empty: nat, success: bool, rest: seq<Round>)
    requires |d.outstanding| == 1 && d.cq == []
    ensures
      var rounds := seq(empty, _ => Round([], false)) + [Round([Finish(0, success)], false)] + rest;
      PollUntil(d, d.outstanding[0], rounds) ==
      (Device([], [], d.log + [Wc(d.outstanding[0], success)]), if success then Success else Failed)
  {
    var finish := Round([Finish(0, success)], false);
    var rounds := seq(empty, _ => Round([], false)) + [finish] + rest;
    if empty == 0 {
      assert rounds[0] == finish && finish.finished[1..] == [];
      var wc := Wc(d.outstanding[0], success);
      assert FinishOne(d, Finish(0, success)) == Device([], [wc], d.log + [wc]);
      assert FinishAll(d, finish.finished) == Device([], [wc], d.log + [wc]);
      assert [wc][1..] == [];
    } else {
      assert rounds[0] == Round([], false);
      assert rounds[1..] == seq(empty - 1, _ => Round([], false)) + [finish] + rest;
      WaitsOnePoll(d, empty - 1, success, rest);
    }
  }

  // ----- What every run keeps -----

  ghost predicate NoRepeats(s: seq<u64>) { forall i, j :: 0 <= i < j < |s| ==> s[i] != s[j] }

  function Ids(s: seq<Wc>): (r: seq<u64>) { seq(|s|, i requires 0 <= i < |s| => s[i].wrId) }

  /** Every id was handed out by one post, and is outstanding or completed, once. */
  ghost predicate Inv(d: Device, limit: nat) {
    && NoRepeats(Ids(d.log) + d.outstanding)
    && (forall id :: id in Ids(d.log) + d.outstanding ==> id < limit)
    && (forall wc :: wc in d.cq ==> wc in d.log)
  }

  lemma MoveOver(a: seq<u64>, b: seq<u64>, k: nat)
    requires k < |b| && NoRepeats(a + b)
    ensures var c := (a + [b[k]]) + (b[..k] + b[k + 1..]); NoRepeats(c) && forall x :: x in c ==> x in a + b
  {
    var s, c, n := a + b, (a + [b[k]]) + (b[..k] + b[k + 1..]), |a|;
    forall i | 0 <= i < |c|
      ensures c[i] == s[if i < n then i else if i == n then n + k else if i <= n + k then i - 1 else i]
    {}
  }

  lemma FinishOneKeeps(d: Device, f: Finish, limit: nat)
    requires Inv(d, limit)
    ensures Inv(FinishOne(d, f), limit)
  {
    if f.pick < |d.outstanding| {
      MoveOver(Ids(d.log), d.outstanding, f.pick);
      hide NoRepeats;
      assert Ids(FinishOne(d, f).log) == Ids(d.log) + [d.outstanding[f.pick]];
    }
  }

  lemma {:induction false} FinishAllKeeps(d: Device, fs: seq<Finish>, limit: nat)
    requires Inv(d, limit)
    ensures Inv(FinishAll(d, fs), limit)
    decreases |fs|
  {
    hide Inv;
    if fs != [] {
      FinishOneKeeps(d, fs[0], limit);
      FinishAllKeeps(FinishOne(d, fs[0]), fs[1..], limit);
    }
  }

  lemma {:induction false} PollKeeps(d: Device, id: u64, rounds: seq<Round>, limit: nat)
    requires Inv(d, limit)
    ensures var (e, outcome) := PollUntil(d, id, rounds);
      Inv(e, limit) && (outcome == Success ==> Wc(id, true) in e.log) && (outcome == Failed ==> Wc(id, false) in e.log)
    decreases |rounds|
  {
    hide Ids;
    if rounds != [] {
      FinishAllKeeps(d, rounds[0].finished, limit);
      var d1 := FinishAll(d, rounds[0].finished);
      if !rounds[0].pollFails {
        if d1.cq == [] {
          PollKeeps(d1, id, rounds[1..], limit);
        } else {
          assert d1.cq[0] in d1.log;
          var d2 := d1.(cq := d1.cq[1..]);
          assert Inv(d2, limit);
          if d1.cq[0].wrId != id { PollKeeps(d2, id, rounds[1..], limit); }
        }
      }
    }
  }

  lemma PostKeeps(d: Device, next: u64)
    requires Inv(d, next)
    ensures Inv(d, next + 1) && Inv(d.(outstanding := d.outstanding + [next]), next + 1)
  {
    var s := Ids(d.log) + d.outstanding;
    assert Ids(d.log) + (d.outstanding + [next]) == s + [next];
    assert forall i :: 0 <= i < |s| ==> s[i] in s;
  }

  /** One call from a state that has handed out the ids below `nextWrId`. */
  lemma CallKeeps(c: Conn, q: Request, s: Script)
    requires Inv(c.dev, c.nextWrId) && c.nextWrId + 1 < U64_LIMIT
    ensures var (e, outcome) := OneCall(c, q, s);
      && e.nextWrId == c.nextWrId + (if q.Acceptable() then 1 else 0)
      && Inv(e.dev, e.nextWrId)
      && (outcome == Success ==> Wc(c.nextWrId, true) in e.dev.log && Wc(c.nextWrId, false) !in e.dev.log)
      && (outcome == Failed ==> Wc(c.nextWrId, false) in e.dev.log && Wc(c.nextWrId, true) !in e.dev.log)
  {
    if q.Acceptable() {
      hide Inv;
      PostKeeps(c.dev, c.nextWrId);
      if !s.postFails {
        var posted := c.dev.(outstanding := c.dev.outstanding + [c.nextWrId]);
        PollKeeps(posted, c.nextWrId, s.rounds, c.nextWrId + 1);
        var (d, outcome) := PollUntil(posted, c.nextWrId, s.rounds);
        if outcome == Success || outcome == Failed { OneCompletion(d, c.nextWrId + 1, c.nextWrId); }
      }
    }
  }

  /** A request completes once: with success excludes with failure. */
  lemma OneCompletion(d: Device, limit: nat, id: u64)
    requires Inv(d, limit)
    ensures Wc(id, true) !in d.log || Wc(id, false) !in d.log
  {
    var s := Ids(d.log) + d.outstanding;
    forall i, j | 0 <= i < |d.log| && 0 <= j < |d.log| ensures d.log[i] != Wc(id, true) || d.log[j] != Wc(id, false) {
      assert s[i] == d.log[i].wrId && s[j] == d.log[j].wrId;
    }
  }

  // ----- Runs -----

  /** The connection after the first `n` calls of a run. */
  function AfterCalls(calls: seq<(Request, Script)>, n: nat): (r: Conn)
    requires n <= |calls|
  {
    if n == 0 then FRESH else OneCall(AfterCalls(calls, n - 1), calls[n - 1].0, calls[n - 1].1).0
  }

  lemma {:induction false} RunKeeps(calls: seq<(Request, Script)>, n: nat)
    requires n <= |calls| < U64_LIMIT
    ensures AfterCalls(calls, n).nextWrId <= n
    ensures Inv(AfterCalls(calls, n).dev, AfterCalls(calls, n).nextWrId)
  {
    if n > 0 {
      RunKeeps(calls, n - 1);
      CallKeeps(AfterCalls(calls, n - 1), calls[n - 1].0, calls[n - 1].1);
    }
  }

  /** Ids grow by one with every call that gets past its checks. */
  lemma {:induction false} IdsGrow(calls: seq<(Request, Script)>, m: nat, n: nat)
    requires m < n <= |calls| < U64_LIMIT
    ensures AfterCalls(calls, m).nextWrId + (if calls[m].0.Acceptable() then 1 else 0) <= AfterCalls(calls, n).nextWrId
  {
    RunKeeps(calls, n - 1);
    CallKeeps(AfterCalls(calls, n - 1), calls[n - 1].0, calls[n - 1].1);
    if m < n - 1 { IdsGrow(calls, m, n - 1); }
  }

  /** No two requests posted in one run, below 2^64 calls, share an id. */
  lemma WrIdsNeverRepeat(calls: seq<(Request, Script)>, m: nat, n: nat)
    requires m < n < |calls| < U64_LIMIT && calls[m].0.Acceptable()
    ensures AfterCalls(calls, m).nextWrId != AfterCalls(calls, n).nextWrId
  {
    IdsGrow(calls, m, n);
  }

  /**
   In every run a call returns Ok, or the failure of its transfer, only if its own request completed so:
   stale completions of timed-out or failed calls are never taken for it.
   */
  lemma OkOnlyForOwnCompletion(calls: seq<(Request, Script)>, n: nat)
    requires n < |calls| < U64_LIMIT
    requires OneCall(AfterCalls(calls, n), calls[n].0, calls[n].1).1 in {Success, Failed}
    ensures var id := AfterCalls(calls, n).nextWrId; var log := AfterCalls(calls, n + 1).dev.log;
      var success := OneCall(AfterCalls(calls, n), calls[n].0, calls[n].1).1 == Success;
      && Wc(id, success) in log && Wc(id, !success) !in log
      && forall wc :: wc in AfterCalls(calls, n).dev.log ==> wc.wrId != id
  {
    RunKeeps(calls, n);
    var c := AfterCalls(calls, n);
    CallKeeps(c, calls[n].0, calls[n].1);
    forall wc | wc in c.dev.log ensures wc.wrId != c.nextWrId {
      var i :| 0 <= i < |c.dev.log| && c.dev.log[i] == wc;
      var s := Ids(c.dev.log) + c.dev.outstanding;
      assert s[i] == wc.wrId && s[i] in s;
    }
  }

  // ----- A completion that comes in time is reported -----

  lemma {:induction false} FinishesKeepFront(d: Device, fs: seq<Finish>)
    requires NoRepeats(Pipeline(d))
    ensures var e := FinishAll(d, fs);
      && NoRepeats(Pipeline(e)) && (forall id :: id in Pipeline(e) ==> id in Pipeline(d))
      && |d.cq| <= |e.cq| && e.cq[..|d.cq|] == d.cq
    decreases |fs|
  {
    if fs != [] {
      var f, d1 := fs[0], FinishOne(d, fs[0]);
      if f.pick < |d.outstanding| {
        MoveOver(Ids(d.cq), d.outstanding, f.pick);
        assert Ids(d1.cq) == Ids(d.cq) + [d.outstanding[f.pick]];
      }
      assert d1.cq[..|d.cq|] == d.cq;
      hide Pipeline, NoRepeats, FinishOne;
      FinishesKeepFront(d1, fs[1..]);
      assert FinishAll(d1, fs[1..]).cq[..|d1.cq|][..|d.cq|] == d.cq;
    }
  }

  lemma PopDistinct(d: Device)
    requires NoRepeats(Pipeline(d))
    ensures NoRepeats(Pipeline(Popped(d))) && forall id :: id in Pipeline(Popped(d)) ==> id in Pipeline(d)
    ensures d.cq != [] ==> d.cq[0].wrId !in Pipeline(Popped(d))
  {
    if d.cq != [] { PopFirst(d); }
  }

  /** What has left the pipeline does not come back. */
  lemma {:induction false} GoneStays(d: Device, id: u64, rounds: seq<Round>)
    requires NoRepeats(Pipeline(d)) && id !in Pipeline(d)
    ensures NoRepeats(Pipeline(Polls(d, rounds))) && id !in Pipeline(Polls(d, rounds))
    decreases |rounds|
  {
    if rounds != [] {
      hide Pipeline, NoRepeats;
      FinishesKeepFront(d, rounds[0].finished);
      PopDistinct(FinishAll(d, rounds[0].finished));
      GoneStays(Popped(FinishAll(d, rounds[0].finished)), id, rounds[1..]);
    }
  }

  lemma {:induction false} InTime(d: Device, id: u64, rounds: seq<Round>, i: nat, k: nat)
    requires NoRepeats(Pipeline(d)) && i + k < |rounds|
    requires forall j :: 0 <= j < |rounds| ==> !rounds[j].pollFails
    requires k < |AtPoll(d, rounds, i).cq| && AtPoll(d, rounds, i).cq[k].wrId == id
    ensures PollUntil(d, id, rounds).1 == if AtPoll(d, rounds, i).cq[k].success then Success else Failed
    decreases |rounds|
  {
    var wc := AtPoll(d, rounds, i).cq[k];
    var d1 := FinishAll(d, rounds[0].finished);
    var d2, later := Popped(d1), rounds[1..];
    FinishesKeepFront(d, rounds[0].finished);
    PopDistinct(d1);
    assert i == 0 ==> AtPoll(d, rounds, i) == d1 by { assert rounds[..0] == []; }
    if i > 0 { AtLater(d, rounds, i); }
    hide Pipeline, NoRepeats, FinishAll, AtPoll;
    if i == 0 {
      if k > 0 {
        InPipeline(d2, k - 1);
        assert later[..0] == [] && Polls(d2, []) == d2;
        FinishesKeepFront(d2, later[0].finished);
        AtFirst(d2, later);
        assert FinishAll(d2, later[0].finished).cq[..|d2.cq|][k - 1] == wc;
        InTime(d2, id, later, 0, k - 1);
      }
    } else {
      if d1.cq != [] && d1.cq[0].wrId == id {
        GoneStays(d2, id, later[..i - 1]);
        StaysGone(d2, id, later, i - 1, k);
      }
      InTime(d2, id, later, i - 1, k);
    }
  }

  lemma AtFirst(d: Device, rounds: seq<Round>)
    requires rounds != []
    ensures AtPoll(d, rounds, 0) == FinishAll(d, rounds[0].finished)
  {
    assert rounds[..0] == [];
  }

  lemma InPipeline(d: Device, k: nat)
    requires k < |d.cq|
    ensures d.cq[k].wrId in Pipeline(d)
  {
    assert Pipeline(d)[k] == d.cq[k].wrId;
  }

  lemma StaysGone(d: Device, id: u64, rounds: seq<Round>, i: nat, k: nat)
    requires i < |rounds| && NoRepeats(Pipeline(Polls(d, rounds[..i]))) && id !in Pipeline(Polls(d, rounds[..i]))
    ensures k < |AtPoll(d, rounds, i).cq| ==> AtPoll(d, rounds, i).cq[k].wrId != id
  {
    hide Pipeline, NoRepeats, FinishAll;
    FinishesKeepFront(Polls(d, rounds[..i]), rounds[i].finished);
    if k < |AtPoll(d, rounds, i).cq| { InPipeline(AtPoll(d, rounds, i), k); }
  }

  lemma {:induction false} PollDistinct(d: Device, id: u64, rounds: seq<Round>)
    requires NoRepeats(Pipeline(d))
    ensures NoRepeats(Pipeline(PollUntil(d, id, rounds).0))
    decreases |rounds|
  {
    if rounds != [] {
      hide Pipeline, NoRepeats, FinishAll;
      var d1 := FinishAll(d, rounds[0].finished);
      FinishesKeepFront(d, rounds[0].finished);
      PopDistinct(d1);
      PollDistinct(Popped(d1), id, rounds[1..]);
    }
  }

  lemma PostDistinct(c: Conn)
    requires Inv(c.dev, c.nextWrId) && NoRepeats(Pipeline(c.dev))
    ensures NoRepeats(Pipeline(c.dev.(outstanding := c.dev.outstanding + [c.nextWrId])))
  {
    var p := Pipeline(c.dev);
    assert Pipeline(c.dev.(outstanding := c.dev.outstanding + [c.nextWrId])) == p + [c.nextWrId];
    var all := Ids(c.dev.log) + c.dev.outstanding;
    forall i | 0 <= i < |p| ensures p[i] != c.nextWrId {
      if i < |c.dev.cq| {
        assert c.dev.cq[i] in c.dev.log;
        var j :| 0 <= j < |c.dev.log| && c.dev.log[j] == c.dev.cq[i];
        assert all[j] == c.dev.log[j].wrId == p[i];
      } else {
        assert all[|c.dev.log| + (i - |c.dev.cq|)] == p[i];
      }
      assert p[i] in all;
    }
  }

  lemma {:induction false} RunDistinct(calls: seq<(Request, Script)>, n: nat)
    requires n <= |calls| < U64_LIMIT
    ensures NoRepeats(Pipeline(AfterCalls(calls, n).dev))
  {
    if n > 0 {
      hide Inv, Pipeline, NoRepeats, PollUntil;
      RunDistinct(calls, n - 1);
      RunKeeps(calls, n - 1);
      var c, s := AfterCalls(calls, n - 1), calls[n - 1].1;
      PostDistinct(c);
      PollDistinct(c.dev.(outstanding := c.dev.outstanding + [c.nextWrId]), c.nextWrId, s.rounds);
    } else {
      assert Pipeline(FRESH.dev) == [];
    }
  }

  /**
   In every run, if no poll of a posted call fails and its completion is in the queue at some poll, with
   no more others ahead of it than rounds left, the call ends exactly as the completion says.
   */
  lemma CompletionInTimeIsReported(calls: seq<(Request, Script)>, n: nat, i: nat, k: nat)
    requires n < |calls| < U64_LIMIT && calls[n].0.Acceptable() && !calls[n].1.postFails
    requires i + k < |calls[n].1.rounds|
    requires forall j :: 0 <= j < |calls[n].1.rounds| ==> !calls[n].1.rounds[j].pollFails
    requires var c := AfterCalls(calls, n);
      var at := AtPoll(c.dev.(outstanding := c.dev.outstanding + [c.nextWrId]), calls[n].1.rounds, i);
      k < |at.cq| && at.cq[k].wrId == c.nextWrId
    ensures var c := AfterCalls(calls, n);
      var at := AtPoll(c.dev.(outstanding := c.dev.outstanding + [c.nextWrId]), calls[n].1.rounds, i);
      OneCall(c, calls[n].0, calls[n].1).1 == if at.cq[k].success then Success else Failed
  {
    hide Inv, Pipeline, NoRepeats, AtPoll, AfterCalls, PollUntil;
    var c := AfterCalls(calls, n);
    RunKeeps(calls, n);
    RunDistinct(calls, n);
    PostDistinct(c);
    InTime(c.dev.(outstanding := c.dev.outstanding + [c.nextWrId]), c.nextWrId, calls[n].1.rounds, i, k);
  }

  // ----- A device that completes in post order -----

  ghost predicate Ordered(s: seq<Round>) {
    forall i, j :: 0 <= i < |s| && 0 <= j < |s[i].finished| ==> s[i].finished[j].pick == 0
  }

  /** What is still to be polled or finished, oldest first. */
  function Pipeline(d: Device): (r: seq<u64>) { Ids(d.cq) + d.outstanding }

  ghost predicate Increasing(s: seq<u64>) { forall i, j :: 0 <= i < j < |s| ==> s[i] < s[j] }

  lemma OrderedFinishOne(d: Device, success: bool)
    ensures Pipeline(FinishOne(d, Finish(0, success))) == Pipeline(d)
  {
    if d.outstanding != [] {
      assert Ids(FinishOne(d, Finish(0, success)).cq) == Ids(d.cq) + [d.outstanding[0]];
    }
  }

  lemma {:induction false} OrderedFinish(d: Device, fs: seq<Finish>)
    requires forall j :: 0 <= j < |fs| ==> fs[j].pick == 0
    ensures Pipeline(FinishAll(d, fs)) == Pipeline(d)
    decreases |fs|
  {
    hide Pipeline, FinishOne;
    if fs != [] {
      OrderedFinishOne(d, fs[0].success);
      OrderedFinish(FinishOne(d, fs[0]), fs[1..]);
    }
  }

  lemma PopFirst(d: Device)
    requires d.cq != []
    ensures Pipeline(d) != [] && Pipeline(d)[0] == d.cq[0].wrId
    ensures Pipeline(d.(cq := d.cq[1..])) == Pipeline(d)[1..]
  {
    assert Ids(d.cq)[1..] == Ids(d.cq[1..]);
  }

  lemma {:induction false} OrderedPoll(d: Device, id: u64, rounds: seq<Round>)
    requires Ordered(rounds) && Increasing(Pipeline(d))
    requires Pipeline(d) != [] && Pipeline(d)[|Pipeline(d)| - 1] == id
    ensures var (e, outcome) := PollUntil(d, id, rounds);
      && Increasing(Pipeline(e)) && (forall i :: 0 <= i < |Pipeline(e)| ==> Pipeline(e)[i] <= id)
      && (outcome == Success || outcome == Failed ==> Pipeline(e) == [])
    decreases |rounds|
  {
    if rounds != [] {
      OrderedFinish(d, rounds[0].finished);
      var d1 := FinishAll(d, rounds[0].finished);
      hide Pipeline;
      assert Ordered(rounds[1..]);
      if !rounds[0].pollFails {
        if d1.cq == [] {
          OrderedPoll(d1, id, rounds[1..]);
        } else {
          PopFirst(d1);
          if d1.cq[0].wrId != id { OrderedPoll(d1.(cq := d1.cq[1..]), id, rounds[1..]); }
        }
      }
    }
  }

  /** Everything in the pipeline was posted, in post order. */
  ghost predicate InOrder(c: Conn) {
    Increasing(Pipeline(c.dev)) && forall i :: 0 <= i < |Pipeline(c.dev)| ==> Pipeline(c.dev)[i] < c.nextWrId
  }

  lemma {:induction false} OrderedRun(calls: seq<(Request, Script)>, n: nat)
    requires n <= |calls| < U64_LIMIT
    requires forall i :: 0 <= i < |calls| ==> Ordered(calls[i].1.rounds)
    ensures InOrder(AfterCalls(calls, n))
  {
    if n > 0 {
      OrderedRun(calls, n - 1);
      RunKeeps(calls, n - 1);
      OrderedCall(AfterCalls(calls, n - 1), calls[n - 1].0, calls[n - 1].1);
    }
  }

  lemma OrderedCall(c: Conn, q: Request, s: Script)
    requires InOrder(c) && Ordered(s.rounds) && c.nextWrId + 1 < U64_LIMIT
    ensures var (e, outcome) := OneCall(c, q, s);
      InOrder(e) && (outcome == Success || outcome == Failed ==> e.dev.cq == [] && e.dev.outstanding == [])
  {
    if q.Acceptable() && !s.postFails {
      var posted := c.dev.(outstanding := c.dev.outstanding + [c.nextWrId]);
      assert Pipeline(posted) == Pipeline(c.dev) + [c.nextWrId];
      OrderedPoll(posted, c.nextWrId, s.rounds);
      var d := PollUntil(posted, c.nextWrId, s.rounds).0;
      assert Pipeline(d) == [] ==> |Ids(d.cq)| == 0;
    }
  }

  /** With in-order completion, a call that saw its own completion leaves nothing stale behind. */
  lemma InOrderLeavesNothingStale(calls: seq<(Request, Script)>, n: nat)
    requires n < |calls| < U64_LIMIT
    requires forall i :: 0 <= i < |calls| ==> Ordered(calls[i].1.rounds)
    requires OneCall(AfterCalls(calls, n), calls[n].0, calls[n].1).1 in {Success, Failed}
    ensures AfterCalls(calls, n + 1).dev.cq == [] && AfterCalls(calls, n + 1).dev.outstanding == []
  {
    OrderedRun(calls, n);
    RunKeeps(calls, n);
    OrderedCall(AfterCalls(calls, n), calls[n].0, calls[n].1);
  }

  /** Out of order it may: the second call matches first, the timed-out one's completion stays. */
  lemma OutOfOrderLeavesStale()
    ensures exists calls: seq<(Request, Script)> ::
        |calls| == 2 && calls[0].1.rounds != [] && OneCall(AfterCalls(calls, 1), calls[1].0, calls[1].1).1 == Success &&
        AfterCalls(calls, 2).dev.cq == [Wc(0, true)]
  {
    var q := Request(1, 1, true);
    var swapped := Round([Finish(1, true), Finish(0, true)], false);
    var empty := Round([], false);
    var calls := [(q, Script(false, [empty])), (q, Script(false, [swapped]))];
    var first := AfterCalls(calls, 1);
    assert AfterCalls(calls, 0) == FRESH && [] + [0] == [0 as u64];
    assert PollUntil(Device([0], [], []), 0, [empty][1..]) == (Device([0], [], []), TimedOut);
    assert first == Conn(1, Device([0], [], []));
    var posted := Device([0, 1], [], []);
    var d1 := FinishOne(posted, Finish(1, true));
    assert d1 == Device([0], [Wc(1, true)], [Wc(1, true)]);
    var d2 := FinishOne(d1, Finish(0, true));
    assert d2.cq == [Wc(1, true), Wc(0, true)];
    assert FinishAll(posted, swapped.finished) == d2 by {
      assert swapped.finished[1..] == [Finish(0, true)];
      assert swapped.finished[1..][1..] == [];
    }
    assert first.dev.outstanding + [first.nextWrId] == [0, 1];
    assert OneCall(first, q, calls[1].1) == (Conn(2, d2.(cq := [Wc(0, true)])), Success);
    assert AfterCalls(calls, 2) == Conn(2, d2.(cq := [Wc(0, true)]));
  }
}
