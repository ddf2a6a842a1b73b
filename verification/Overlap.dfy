/**
 A run that shows the limit of "repeated requests return the same tuple" (src/providers.rs):
 two overlapping first requests are both answered, and the first answer is deregistered.
 */
module Overlap {
  import opened Common
  import opened Registry
  import opened Interleaving
  import opened ProviderRuns
  import opened Settling

  ghost predicate Reached(s: State) {
    exists states: seq<State>, actions: seq<Action> :: Run(states, actions) && states[|actions|] == s
  }

  lemma ReachStart()
    ensures Reached(INITIAL)
  {
    assert Run([INITIAL], []);
  }

  lemma ReachStep(s: State, a: Action)
    requires Reached(s) && Can(s, a)
    ensures Reached(Do(s, a))
  {
    hide Can, Do;
    var states: seq<State>, actions: seq<Action> :| Run(states, actions) && states[|actions|] == s;
    var more := states + [Do(s, a)];
    assert Run(more, actions + [a]);
    assert more[|actions + [a]|] == Do(s, a);
  }

  ghost predicate Ready(s: State, p: Pair) {
    && Reached(s) && s.phase == Running && At(s, APP, Idle) && At(s, SERVICE, Idle)
    && p.0 in s.tabs.catalog && s.tabs.catalog[p.0].size > 0 && s.tabs.tuples == map[]
  }

  lemma Opened(info: RegionInfo) returns (s: State)
    requires info.size > 0
    ensures Ready(s, (0, 7))
  {
    hide CallAct, RendezvousAct, Reached;
    ReachStart();
    ReachStep(INITIAL, Register(info));
    var s1 := Do(INITIAL, Register(info));
    ReachStep(s1, Serve);
    s := Do(s1, Serve);
  }

  lemma Grouped(s: State, p: Pair) returns (t: State)
    requires Ready(s, p)
    ensures Ready(t, p) && p.1 in t.tabs.groups
  {
    hide CallAct, ThreadAct, AppAct, Reached;
    ReachStep(s, ReadGroup(p.1));
    var s1 := Do(s, ReadGroup(p.1));
    ReachStep(s1, Accept(0));
    var s2 := Do(s1, Accept(0));
    ReachStep(s2, JoinGroup);
    t := Do(s2, JoinGroup);
  }

  /** A thread gets as far as holding a registration, the table not touched yet. */
  lemma Registers(s: State, th: nat, p: Pair) returns (t: State)
    requires Reached(s) && s.phase == Running && At(s, th, Idle)
    requires p !in s.tabs.tuples && p.1 in s.tabs.groups && p.0 in s.tabs.catalog && s.tabs.catalog[p.0].size > 0
    ensures Reached(t) && t.phase == Running && t.tabs == s.tabs.(mrs := t.tabs.mrs, nextMr := t.tabs.nextMr)
    ensures th in t.pcs && t.pcs == s.pcs[th := t.pcs[th]] && t.pcs[th].HaveMr? && t.pcs[th].pair == p
  {
    hide RendezvousAct, ThreadAct, AppAct, Reached;
    var info := s.tabs.catalog[p.0];
    var s1 := Do(s, Lookup(th, p));
    assert s1 == s.(pcs := s.pcs[th := Missed(p, s.clock)], clock := s.clock + 1);
    var s2 := Do(s1, GetPd(th));
    assert s2.pcs == s.pcs[th := HavePd(p, s.clock, s.tabs.groups[p.1].pd)];
    var s3 := Do(s2, GetAddr(th));
    assert s3.pcs == s.pcs[th := HaveAddr(p, s.clock, s.tabs.groups[p.1].pd, info.remoteAddr, info.size)];
    ReachStep(s, Lookup(th, p));
    ReachStep(s1, GetPd(th));
    ReachStep(s2, GetAddr(th));
    ReachStep(s3, Registration(th, Some(1)));
    t := Do(s3, Registration(th, Some(1)));
  }

  /** Two overlapping first requests: a reachable state in which an answered tuple is registered no more. */
  lemma AnsweredThenDeregistered(info: RegionInfo)
    requires info.size > 0
    ensures exists s: State :: Reached(s) && Live(s) && |s.replies| >= 2 && s.replies[|s.replies| - 2].mr !in s.tabs.mrs
  {
    var p: Pair := (0, 7);
    var s0 := Opened(info);
    var s1 := Grouped(s0, p);
    hide Reached, Do, Can;
    var s2 := Registers(s1, APP, p);
    var s3 := Registers(s2, SERVICE, p);
    var t := Answers(s3, p);
    assert |t.replies| >= 2;
  }

  lemma Answers(s: State, p: Pair) returns (t: State)
    requires Reached(s) && s.phase == Running && Askable(s.tabs, p) && APP in s.pcs && SERVICE in s.pcs
    requires s.pcs[APP].Asking() && s.pcs[SERVICE].Asking() && s.pcs[APP].pair == s.pcs[SERVICE].pair == p
    ensures Reached(t) && Live(t) && |t.replies| >= 2 && t.replies[|t.replies| - 2].mr !in t.tabs.mrs
  {
    ReachedKeeps(s);
    var m, n := OverlapDeregisters(s, APP, SERVICE, p, 1, 1);
    FinishReached(s, APP, 1);
    ReachedKeeps(Finish(s, APP, Some(1)));
    FinishReached(Finish(s, APP, Some(1)), SERVICE, 1);
    t := Finish(Finish(s, APP, Some(1)), SERVICE, Some(1));
    assert t.replies[|t.replies| - 2] == Reply(p, m);
  }

  lemma {:induction false} FinishReached(s: State, y: nat, rkey: u32)
    requires Reached(s) && y in s.pcs && s.pcs[y].Asking()
    ensures Reached(Finish(s, y, Some(rkey)))
    decreases StepsLeft(s.pcs[y])
  {
    ReachedKeeps(s);
    NextKeeps(s, y, rkey);
    OneStepLess(s, y, Some(rkey));
    hide Reached, Can, Do, Interleaving.Inv;
    var a := NextStep(y, s.pcs[y], Some(rkey));
    ReachStep(s, a);
    if Do(s, a).pcs[y] != Idle { FinishReached(Do(s, a), y, rkey); }
  }

  lemma ReachedKeeps(s: State)
    requires Reached(s)
    ensures Interleaving.Inv(s)
  {
    var states: seq<State>, actions: seq<Action> :| Run(states, actions) && states[|actions|] == s;
    RunKeeps(states, actions, |actions|);
  }
}
