/**
 When "repeated requests return the same tuple" (src/providers.rs) holds: exactly once no call for the
 pair is still between its miss and its answer.  Any call that is can still replace the entry.
 */
module Settling {
  import opened Common
  import opened Registry
  import opened Interleaving
  import opened ProviderRuns

  /** What any threads can do from `s` on. */
  ghost predicate Path(s: State, states: seq<State>, actions: seq<Action>) {
    && |states| == |actions| + 1 && states[0] == s
    && forall i :: 0 <= i < |actions| ==> Can(states[i], actions[i]) && states[i + 1] == Do(states[i], actions[i])
  }

  /** The entry of `p` is still there and registered, and is what every request for it was answered with. */
  ghost predicate Unshaken(s: State, t: State, p: Pair)
    requires p in s.tabs.tuples
  {
    var m := s.tabs.tuples[p];
    && p in t.tabs.tuples && t.tabs.tuples[p] == m && m in t.tabs.mrs
    && s.replies <= t.replies
    && forall k :: |s.replies| <= k < |t.replies| && t.replies[k].pair == p ==> t.replies[k].mr == m
  }

  /** Whatever happens from `s` on, up to the drop. */
  ghost predicate StaysSettled(s: State, p: Pair)
    requires p in s.tabs.tuples
  {
    forall states: seq<State>, actions: seq<Action> ::
      Path(s, states, actions) && Live(states[|actions|]) ==> Unshaken(s, states[|actions|], p)
  }

  lemma {:induction false} SettledPath(s: State, states: seq<State>, actions: seq<Action>, p: Pair, i: nat)
    requires Interleaving.Inv(s) && p in s.tabs.tuples && NoneAsking(s, p)
    requires Path(s, states, actions) && i < |states| && Live(states[i])
    ensures Interleaving.Inv(states[i]) && NoneAsking(states[i], p) && Unshaken(s, states[i], p)
  {
    hide Interleaving.Inv, Can, Do, NoneAsking;
    TableIsLive(s);
    if i > 0 {
      StepTables(states[i - 1], actions[i - 1]);
      SettledPath(s, states, actions, p, i - 1);
      StepKeeps(states[i - 1], actions[i - 1]);
      SettledStep(states[i - 1], actions[i - 1], p);
      TableIsLive(states[i]);
    }
  }

  // ----- A pending call, run to its end -----

  /** The pair names a joined group and a region with bytes to register. */
  predicate Askable(t: Tables, p: Pair) {
    p.1 in t.groups && p.0 in t.catalog && t.catalog[p.0].size > 0
  }

  /** The next step of a call, with the device willing. */
  lemma NextKeeps(s: State, y: nat, rkey: u32)
    requires Interleaving.Inv(s) && y in s.pcs && s.pcs[y].Asking()
    ensures var a := NextStep(y, s.pcs[y], Some(rkey));
      Can(s, a) && Interleaving.Inv(Do(s, a)) && Do(s, a).phase == s.phase &&
      forall x :: x in s.pcs && x != y ==> x in Do(s, a).pcs && Do(s, a).pcs[x] == s.pcs[x]
  {
    var a := NextStep(y, s.pcs[y], Some(rkey));
    assert Can(s, a);
    hide Interleaving.Inv, Can, Do;
    StepKeeps(s, a);
    CallFrame(s, a);
  }

  lemma {:induction false} FinishIsPath(s: State, y: nat, rkey: u32) returns (states: seq<State>, actions: seq<Action>)
    requires Interleaving.Inv(s) && y in s.pcs && s.pcs[y].Asking()
    ensures Path(s, states, actions) && states[|actions|] == Finish(s, y, Some(rkey))
    decreases StepsLeft(s.pcs[y])
  {
    hide Interleaving.Inv, Can, Do, Path;
    var a := NextStep(y, s.pcs[y], Some(rkey));
    NextKeeps(s, y, rkey);
    OneStepLess(s, y, Some(rkey));
    var t := Do(s, a);
    if t.pcs[y] == Idle {
      PathOf(s, a);
      states, actions := [s, t], [a];
    } else {
      var rest, more := FinishIsPath(t, y, rkey);
      PathFirst(s, a, rest, more);
      states, actions := [s] + rest, [a] + more;
    }
  }

  lemma PathOf(s: State, a: Action)
    requires Can(s, a)
    ensures Path(s, [s, Do(s, a)], [a])
  {
    hide Can, Do;
  }

  lemma PathFirst(s: State, a: Action, rest: seq<State>, more: seq<Action>)
    requires Can(s, a) && Path(Do(s, a), rest, more)
    ensures Path(s, [s] + rest, [a] + more) && ([s] + rest)[|[a] + more|] == rest[|more|]
  {
    hide Can, Do;
  }

  lemma {:induction false} FinishKeeps(s: State, y: nat, rkey: u32)
    requires Interleaving.Inv(s) && y in s.pcs && s.pcs[y].Asking()
    ensures var t := Finish(s, y, Some(rkey));
      Interleaving.Inv(t) && t.phase == s.phase && forall x :: x in s.pcs && x != y ==>
        x in t.pcs && t.pcs[x] == s.pcs[x]
    decreases StepsLeft(s.pcs[y])
  {
    NextKeeps(s, y, rkey);
    OneStepLess(s, y, Some(rkey));
    hide Interleaving.Inv, Can, Do;
    var t := Do(s, NextStep(y, s.pcs[y], Some(rkey)));
    if t.pcs[y] != Idle { FinishKeeps(t, y, rkey); }
  }

  /** The tables a granted call leaves: registration `m`, made by the call, in the pair's entry. */
  predicate Answered(s: State, t: State, p: Pair, m: nat) {
    && p in t.tabs.tuples && t.tabs.tuples[p] == m
    && t.replies == s.replies + [Reply(p, m)]
    && (p in s.tabs.tuples ==> m != s.tabs.tuples[p] && s.tabs.tuples[p] !in t.tabs.mrs)
    && t.tabs.catalog == s.tabs.catalog && t.tabs.groups == s.tabs.groups
  }

  lemma InsertedAnswers(s: State, t: State, u: Tables, p: Pair, m: nat)
    requires t.tabs == Inserted(u, p, m) && t.replies == s.replies + [Reply(p, m)]
    requires u.tuples == s.tabs.tuples && u.catalog == s.tabs.catalog && u.groups == s.tabs.groups
    requires p in s.tabs.tuples ==> m != s.tabs.tuples[p]
    ensures Answered(s, t, p, m)
  {}

  /** The registration a call holds, or would get, is not the table's. */
  lemma CallsOwnMr(s: State, y: nat)
    requires Interleaving.Inv(s) && y in s.pcs && s.pcs[y].Asking()
    ensures var p := s.pcs[y].pair;
      && (s.pcs[y].HaveMr? ==> p in s.tabs.tuples ==> s.tabs.tuples[p] != s.pcs[y].mr)
      && (p in s.tabs.tuples ==> s.tabs.tuples[p] < s.tabs.nextMr)
      && (s.pcs[y].HaveAddr? ==> p.0 in s.tabs.catalog && s.pcs[y].size == s.tabs.catalog[p.0].size)
  {
    AboutThread(s, y);
  }

  /** A pending call, run to its end with the device willing, answers with a registration of its own. */
  lemma FinishAnswers(s: State, y: nat, rkey: u32) returns (m: nat)
    requires Interleaving.Inv(s) && y in s.pcs && s.pcs[y].Asking() && Askable(s.tabs, s.pcs[y].pair)
    ensures Answered(s, Finish(s, y, Some(rkey)), s.pcs[y].pair, m)
  {
    var p, luck := s.pcs[y].pair, Some(rkey);
    var t := Finish(s, y, luck);
    CallsOwnMr(s, y);
    hide Interleaving.Inv, RendezvousAct, ThreadAct, AppAct, Inserted, Answered;
    if s.pcs[y].HaveMr? {
      FinishFromMr(s, y, luck);
      m := s.pcs[y].mr;
      InsertedAnswers(s, t, s.tabs, p, m);
    } else if s.pcs[y].HaveAddr? {
      FinishFromAddr(s, y, luck);
      var pc := s.pcs[y];
      m := s.tabs.nextMr;
      InsertedAnswers(s, t, Registered(s.tabs, p.0, pc.pd, pc.addr, pc.size, rkey), p, m);
    } else {
      m := s.tabs.nextMr;
      var info := s.tabs.catalog[p.0];
      var from := if s.pcs[y].HavePd? then s else Do(s, GetPd(y));
      FinishFromPd(from, y, luck);
      InsertedAnswers(s, t, Registered(s.tabs, p.0, from.pcs[y].pd, info.remoteAddr, info.size, rkey), p, m);
    }
  }

  lemma EntryIsAskable(s: State, p: Pair)
    requires Interleaving.Inv(s) && p in s.tabs.tuples
    ensures Askable(s.tabs, p)
  {}

  /**
   Whatever the call has reached, if it missed the pair and is not finished, it can go on to replace
   the pair's entry and deregister it.
   */
  lemma PendingCallReplaces(s: State, y: nat, p: Pair, rkey: u32)
    requires Interleaving.Inv(s) && y in s.pcs && s.pcs[y].Asking() && s.pcs[y].pair == p && p in s.tabs.tuples
    ensures var t := Finish(s, y, Some(rkey));
      p in t.tabs.tuples && t.tabs.tuples[p] != s.tabs.tuples[p] && s.tabs.tuples[p] !in t.tabs.mrs
  {
    EntryIsAskable(s, p);
    var m := FinishAnswers(s, y, rkey);
  }

  /**
   The exact condition.  In any reachable state before the drop, with the pair in the table: whatever
   the threads and the device do from there on, every request for it is answered with the entry it has
   now, which stays registered, if and only if no call for it is between its miss and its answer.
   */
  lemma SettledIffNoneAsking(run: seq<State>, past: seq<Action>, i: nat, p: Pair)
    requires Run(run, past) && i < |run| && Live(run[i]) && p in run[i].tabs.tuples
    ensures NoneAsking(run[i], p) <==> StaysSettled(run[i], p)
  {
    var s := run[i];
    hide Interleaving.Inv, Can, Do;
    RunKeeps(run, past, i);
    if NoneAsking(s, p) {
      forall states: seq<State>, actions: seq<Action> | Path(s, states, actions) && Live(states[|actions|])
        ensures Unshaken(s, states[|actions|], p)
      {
        SettledPath(s, states, actions, p, |actions|);
      }
    } else {
      var y :| y in s.pcs && s.pcs[y].Asking() && s.pcs[y].pair == p;
      var states, actions := FinishIsPath(s, y, 0);
      FinishKeeps(s, y, 0);
      PendingCallReplaces(s, y, p, 0);
      assert !Unshaken(s, states[|actions|], p);
    }
  }

  /**
   Overlapping requests: of two calls that both missed the pair, wherever they have got to and whether
   or not it is in the table by now, the one that finishes second deregisters what the first one has
   already returned.
   */
  lemma OverlapDeregisters(s: State, x: nat, y: nat, p: Pair, first: u32, second: u32) returns (m: nat, n: nat)
    requires Interleaving.Inv(s) && x != y && x in s.pcs && y in s.pcs && Askable(s.tabs, p)
    requires s.pcs[x].Asking() && s.pcs[y].Asking() && s.pcs[x].pair == s.pcs[y].pair == p
    ensures var t := Finish(s, x, Some(first)); y in t.pcs && t.pcs[y].Asking()
    ensures var u := Finish(Finish(s, x, Some(first)), y, Some(second));
      && u.phase == s.phase && u.replies == s.replies + [Reply(p, m), Reply(p, n)] && m != n
      && p in u.tabs.tuples && u.tabs.tuples[p] == n && m !in u.tabs.mrs
  {
    hide Interleaving.Inv;
    m := FinishAnswers(s, x, first);
    FinishKeeps(s, x, first);
    var t := Finish(s, x, Some(first));
    n := FinishAnswers(t, y, second);
    FinishKeeps(t, y, second);
  }
}
