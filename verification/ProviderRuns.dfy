/**
 What holds over every run of the provider's threads: the tuple table, the groups and
 their domains, and the order in which registrations, domains and buffers go away.
 */
module ProviderRuns {
  import opened Common
  import opened Registry
  import opened Interleaving

  /** Any interleaving: the states passed through and the step taken from each. */
  ghost predicate Run(states: seq<State>, actions: seq<Action>) {
    && |states| == |actions| + 1 && states[0] == INITIAL
    && forall i :: 0 <= i < |actions| ==> Can(states[i], actions[i]) && states[i + 1] == Do(states[i], actions[i])
  }

  lemma {:induction false} RunKeeps(states: seq<State>, actions: seq<Action>, i: nat)
    requires Run(states, actions) && i < |states|
    ensures Interleaving.Inv(states[i]) && states[i].clock == i
  {
    hide Interleaving.Inv, Can;
    if i == 0 {
      StartFits();
    } else {
      RunKeeps(states, actions, i - 1);
      StepKeeps(states[i - 1], actions[i - 1]);
    }
  }

  // ----- One step -----

  /** The frame of whatever step `a` is. */
  lemma Frame(s: State, a: Action)
    requires Can(s, a)
    ensures CallAction(a) || RendezvousAction(a) || ThreadAction(a) || AppAction(a)
    ensures Live(Do(s, a)) ==> Live(s)
    ensures !CallAction(a) ==> Do(s, a).replies == s.replies && Do(s, a).firstAt == s.firstAt
    ensures !CallAction(a) && Live(Do(s, a)) ==>
      Do(s, a).tabs.tuples == s.tabs.tuples && Do(s, a).tabs.mrs == s.tabs.mrs
    ensures !CallAction(a) ==> forall x :: x in Do(s, a).pcs && Do(s, a).pcs[x].Asking() ==>
      x in s.pcs && s.pcs[x] == Do(s, a).pcs[x]
    ensures Live(Do(s, a)) ==> forall g :: g in s.tabs.groups ==>
      g in Do(s, a).tabs.groups && Do(s, a).tabs.groups[g].pd == s.tabs.groups[g].pd
  {
    hide Can, Do;
    if CallAction(a) { CallFrame(s, a); }
    else if RendezvousAction(a) { RendezvousFrame(s, a); }
    else if ThreadAction(a) { ThreadFrame(s, a); }
    else { AppFrame(s, a); }
  }

  lemma CallTables(s: State, a: Action)
    requires Can(s, a) && CallAction(a)
    ensures var t := CallAct(s, a);
      && (forall p :: p in s.tabs.tuples ==> p in t.tabs.tuples)
      && (forall p :: p in s.tabs.tuples && t.tabs.tuples[p] != s.tabs.tuples[p] ==> a.Insert? && s.pcs[a.th].pair == p)
  {}

  lemma StepTables(s: State, a: Action)
    requires Can(s, a) && Live(Do(s, a))
    ensures Live(s)
    ensures forall p :: p in s.tabs.tuples ==> p in Do(s, a).tabs.tuples
    ensures forall p :: p in s.tabs.tuples && Do(s, a).tabs.tuples[p] != s.tabs.tuples[p] ==>
      CallAction(a) && a.Insert? && a.th in s.pcs && s.pcs[a.th].HaveMr? && s.pcs[a.th].pair == p
  {
    hide Do, CallAct;
    Frame(s, a);
    if CallAction(a) { CallFrame(s, a); CallTables(s, a); }
  }

  // ----- The tuple table -----

  /** Before the drop no (region, group) key disappears. */
  lemma {:induction false} KeysStay(states: seq<State>, actions: seq<Action>, i: nat, j: nat)
    requires Run(states, actions) && i <= j < |states| && Live(states[j])
    ensures Live(states[i]) && forall p :: p in states[i].tabs.tuples ==> p in states[j].tabs.tuples
  {
    hide Can, Do;
    if i < j {
      StepTables(states[j - 1], actions[j - 1]);
      KeysStay(states, actions, i, j - 1);
    }
  }

  /** `since` is the step at which the thread looked its pair up, and missed. */
  lemma {:induction false} SinceIsTheLookup(states: seq<State>, actions: seq<Action>, i: nat, th: nat)
    requires Run(states, actions) && i < |states| && th in states[i].pcs && states[i].pcs[th].Asking()
    ensures var pc := states[i].pcs[th];
      pc.since < i && actions[pc.since] == Lookup(th, pc.pair) && pc.pair !in states[pc.since].tabs.tuples
  {
    hide Interleaving.Inv, Can, Do;
    assert i > 0;
    var k := i - 1;
    RunKeeps(states, actions, k);
    AskingCameFrom(states[k], actions[k], th);
    if actions[k] != Lookup(th, states[i].pcs[th].pair) { SinceIsTheLookup(states, actions, k, th); }
  }

  lemma CallAsking(s: State, a: Action)
    requires Can(s, a) && CallAction(a) && CallAct(s, a).pcs[a.th].Asking()
    ensures var pc := CallAct(s, a).pcs[a.th];
      (a == Lookup(a.th, pc.pair) && pc.since == s.clock && pc.pair !in s.tabs.tuples) ||
      (!a.Lookup? && a.th in s.pcs && s.pcs[a.th].Asking() && s.pcs[a.th].pair == pc.pair &&
        s.pcs[a.th].since == pc.since)
  {}

  lemma AskingCameFrom(s: State, a: Action, th: nat)
    requires Can(s, a) && th in Do(s, a).pcs && Do(s, a).pcs[th].Asking()
    ensures var pc := Do(s, a).pcs[th];
      (a == Lookup(th, pc.pair) && pc.since == s.clock && pc.pair !in s.tabs.tuples) ||
      (a != Lookup(th, pc.pair) && th in s.pcs && s.pcs[th].Asking() && s.pcs[th].pair == pc.pair &&
        s.pcs[th].since == pc.since)
  {
    hide Do, CallAct, Can;
    Frame(s, a);
    if CallAction(a) {
      CallFrame(s, a);
      if th == a.th { CallAsking(s, a); }
    }
  }

  /** `firstAt` is the step that put the pair in the table for the first time. */
  lemma {:induction false} FirstAtIsTheFirst(states: seq<State>, actions: seq<Action>, i: nat, p: Pair)
    requires Run(states, actions) && i < |states| && p in states[i].firstAt
    ensures var f := states[i].firstAt[p];
      f < i && p in states[f + 1].tabs.tuples && forall k :: 0 <= k <= f ==> p !in states[k].tabs.tuples
  {
    hide Interleaving.Inv, Can, Do;
    assert i > 0;
    var k := i - 1;
    RunKeeps(states, actions, k);
    FirstAtStep(states[k], actions[k], p);
    if p in states[k].firstAt {
      FirstAtIsTheFirst(states, actions, k, p);
    } else {
      forall h | 0 <= h <= k ensures p !in states[h].tabs.tuples {
        RunKeeps(states, actions, h);
        if p in states[h].tabs.tuples { FirstKnown(states[h], p); FirstAtStays(states, actions, h, k, p); }
      }
    }
  }

  lemma CallFirstAt(s: State, a: Action, p: Pair)
    requires Can(s, a) && CallAction(a)
    ensures p in s.firstAt ==> p in CallAct(s, a).firstAt && CallAct(s, a).firstAt[p] == s.firstAt[p]
    ensures p in CallAct(s, a).firstAt && p !in s.firstAt ==>
      CallAct(s, a).firstAt[p] == s.clock && p in CallAct(s, a).tabs.tuples
  {}

  lemma FirstAtStep(s: State, a: Action, p: Pair)
    requires Can(s, a)
    ensures p in s.firstAt ==> p in Do(s, a).firstAt && Do(s, a).firstAt[p] == s.firstAt[p]
    ensures p in Do(s, a).firstAt && p !in s.firstAt ==> Do(s, a).firstAt[p] == s.clock && p in Do(s, a).tabs.tuples
  {
    hide Do, CallAct, Can;
    Frame(s, a);
    if CallAction(a) { CallFrame(s, a); CallFirstAt(s, a, p); }
  }

  lemma {:induction false} FirstAtStays(states: seq<State>, actions: seq<Action>, i: nat, j: nat, p: Pair)
    requires Run(states, actions) && i <= j < |states| && p in states[i].firstAt
    ensures p in states[j].firstAt
  {
    hide Can, Do;
    if i < j {
      FirstAtStays(states, actions, i, j - 1, p);
      FirstAtStep(states[j - 1], actions[j - 1], p);
    }
  }

  lemma FirstKnown(s: State, p: Pair)
    requires Interleaving.Inv(s) && p in s.tabs.tuples
    ensures p in s.firstAt
  {}

  /** At step `i` a call replaced the entry of `p`; it had looked `p` up at `k`, before the first insertion at `f`. */
  ghost predicate EarlyMiss(states: seq<State>, actions: seq<Action>, i: nat, p: Pair, k: nat, f: nat)
    requires |states| == |actions| + 1 && i < |actions|
  {
    && k < f < i && actions[i].Insert? && actions[k] == Lookup(actions[i].th, p)
    && p in states[f + 1].tabs.tuples && forall h :: 0 <= h <= f ==> p !in states[h].tabs.tuples
  }

  /** An entry is replaced only by a call whose lookup came before that pair's first insertion. */
  lemma ReplacedOnlyByAnEarlyMiss(states: seq<State>, actions: seq<Action>, i: nat, p: Pair)
    requires Run(states, actions) && i < |actions| && Live(states[i + 1])
    requires p in states[i].tabs.tuples && p in states[i + 1].tabs.tuples
    requires states[i + 1].tabs.tuples[p] != states[i].tabs.tuples[p]
    ensures exists k: nat, f: nat :: EarlyMiss(states, actions, i, p, k, f)
  {
    hide Interleaving.Inv, Do, Can;
    RunKeeps(states, actions, i);
    StepTables(states[i], actions[i]);
    var th := actions[i].th;
    SinceIsTheLookup(states, actions, i, th);
    AboutThread(states[i], th);
    FirstKnown(states[i], p);
    FirstAtIsTheFirst(states, actions, i, p);
    assert EarlyMiss(states, actions, i, p, states[i].pcs[th].since, states[i].firstAt[p]);
  }

  /** No call for the pair is between its miss and its answer. */
  ghost predicate NoneAsking(s: State, p: Pair) {
    forall th :: th in s.pcs && s.pcs[th].Asking() ==> s.pcs[th].pair != p
  }

  lemma CallReplies(s: State, a: Action, p: Pair)
    requires Can(s, a) && CallAction(a) && p in s.tabs.tuples
    requires s.pcs[a.th].Asking() ==> s.pcs[a.th].pair != p
    ensures var t := CallAct(s, a);
      && s.replies <= t.replies
      && forall k :: |s.replies| <= k < |t.replies| && t.replies[k].pair == p ==> t.replies[k].mr == s.tabs.tuples[p]
  {}

  lemma CallSettled(s: State, a: Action, p: Pair)
    requires Can(s, a) && CallAction(a) && p in s.tabs.tuples && NoneAsking(s, p)
    ensures var t := CallAct(s, a);
      && p in t.tabs.tuples && t.tabs.tuples[p] == s.tabs.tuples[p] && NoneAsking(t, p)
      && s.replies <= t.replies
      && forall k :: |s.replies| <= k < |t.replies| && t.replies[k].pair == p ==> t.replies[k].mr == s.tabs.tuples[p]
  {
    hide CallAct, Can;
    CallActFrame(s, a);
    CallTables(s, a);
    CallThread(s, a);
    CallReplies(s, a, p);
    if CallAct(s, a).pcs[a.th].Asking() { CallAsking(s, a); }
  }

  lemma CallThread(s: State, a: Action)
    requires Can(s, a) && CallAction(a)
    ensures a.th in s.pcs && (a.Insert? ==> s.pcs[a.th].Asking())
  {}

  lemma SettledStep(s: State, a: Action, p: Pair)
    requires Can(s, a) && Live(Do(s, a)) && p in s.tabs.tuples && NoneAsking(s, p)
    ensures var t := Do(s, a);
      && p in t.tabs.tuples && t.tabs.tuples[p] == s.tabs.tuples[p] && NoneAsking(t, p)
      && s.replies <= t.replies
      && forall k :: |s.replies| <= k < |t.replies| && t.replies[k].pair == p ==> t.replies[k].mr == s.tabs.tuples[p]
  {
    hide Do, CallAct, Can;
    Frame(s, a);
    if CallAction(a) { CallFrame(s, a); CallSettled(s, a, p); }
  }

  /**
   Once the calls that missed a pair have finished, every request for it, from any thread and until
   the drop, returns one and the same tuple, which stays registered.
   */
  lemma {:induction false} SettledTuple(states: seq<State>, actions: seq<Action>, i: nat, j: nat, p: Pair)
    requires Run(states, actions) && i <= j < |states| && Live(states[j])
    requires p in states[i].tabs.tuples && NoneAsking(states[i], p)
    ensures var m := states[i].tabs.tuples[p];
      && p in states[j].tabs.tuples && states[j].tabs.tuples[p] == m && NoneAsking(states[j], p)
      && m in states[j].tabs.mrs
      && states[i].replies <= states[j].replies
      && forall k :: |states[i].replies| <= k < |states[j].replies| && states[j].replies[k].pair == p ==>
           states[j].replies[k].mr == m
  {
    hide Interleaving.Inv, Can, Do, NoneAsking;
    RunKeeps(states, actions, j);
    TableIsLive(states[j]);
    if i < j {
      StepTables(states[j - 1], actions[j - 1]);
      SettledTuple(states, actions, i, j - 1, p);
      SettledStep(states[j - 1], actions[j - 1], p);
    }
  }

  lemma TableIsLive(s: State)
    requires Interleaving.Inv(s)
    ensures forall p :: p in s.tabs.tuples ==> s.tabs.tuples[p] in s.tabs.mrs
  {}

  // ----- Which returned tuples are registered -----

  ghost predicate RepliesFit(s: State) {
    && (forall k :: 0 <= k < |s.replies| ==> s.replies[k].mr < s.tabs.nextMr)
    && (Live(s) ==> forall k :: 0 <= k < |s.replies| ==>
          s.replies[k].pair in s.tabs.tuples &&
          (s.replies[k].mr in s.tabs.mrs ==> s.tabs.tuples[s.replies[k].pair] == s.replies[k].mr))
  }

  lemma CallRepliesFit(s: State, a: Action)
    requires RepliesFit(s) && Registry.Inv(s.tabs) && Live(s) && Can(s, a) && CallAction(a)
    requires PcFits(s, a.th, s.pcs[a.th])
    ensures RepliesFit(CallAct(s, a))
  {
    if a.Insert? {
      InsertRepliesFit(s, a.th);
    } else if a.Registration? {
      RegistrationRepliesFit(s, a.th, a.luck);
    } else {
      LookupRepliesFit(s, a);
    }
    hide CallAct, RepliesFit, Registry.Inv, PcFits;
  }

  lemma InsertRepliesFit(s: State, th: nat)
    requires RepliesFit(s) && Registry.Inv(s.tabs) && Live(s) && Can(s, Insert(th)) && PcFits(s, th, s.pcs[th])
    ensures RepliesFit(CallAct(s, Insert(th)))
  {}

  lemma RegistrationRepliesFit(s: State, th: nat, luck: Luck)
    requires RepliesFit(s) && Registry.Inv(s.tabs) && Live(s) && Can(s, Registration(th, luck))
    ensures RepliesFit(CallAct(s, Registration(th, luck)))
  {}

  lemma LookupRepliesFit(s: State, a: Action)
    requires RepliesFit(s) && Registry.Inv(s.tabs) && Live(s) && Can(s, a) && (a.Lookup? || a.GetPd? || a.GetAddr?)
    ensures RepliesFit(CallAct(s, a))
  {}

  lemma RepliesStep(s: State, a: Action)
    requires Interleaving.Inv(s) && RepliesFit(s) && Can(s, a)
    ensures RepliesFit(Do(s, a))
  {
    hide Interleaving.Inv, Do, CallAct, Can, RepliesFit, Registry.Inv, PcFits;
    Frame(s, a);
    if CallAction(a) {
      CallThread(s, a);
      CallFrame(s, a);
      AboutThread(s, a.th);
      CallsAreLive(s, a);
      TablesFit(s);
      CallRepliesFit(s, a);
      SameReplies(CallAct(s, a), Do(s, a));
    } else {
      HandlesGrow(s, a);
      SameReplies(s, Do(s, a));
    }
  }

  lemma SameReplies(s: State, t: State)
    requires RepliesFit(s) && t.replies == s.replies && t.tabs.nextMr == s.tabs.nextMr && (Live(t) ==> Live(s))
    requires Live(t) ==> t.tabs.tuples == s.tabs.tuples && t.tabs.mrs == s.tabs.mrs
    ensures RepliesFit(t)
  {}

  lemma TablesFit(s: State)
    requires Interleaving.Inv(s)
    ensures Registry.Inv(s.tabs)
  {}

  /** After the threads are joined nothing asks for tuples any more. */
  lemma CallsAreLive(s: State, a: Action)
    requires Interleaving.Inv(s) && Can(s, a) && CallAction(a)
    ensures Live(s)
  {
    if !Live(s) { OnlyApp(s); }
  }

  lemma HandlesGrow(s: State, a: Action)
    requires Can(s, a) && !CallAction(a)
    ensures Do(s, a).tabs.nextMr == s.tabs.nextMr
  {
    hide Do;
    if RendezvousAction(a) { RendezvousFrame(s, a); }
    else if ThreadAction(a) { ThreadFrame(s, a); }
    else { AppFrame(s, a); }
  }

  lemma {:induction false} RunReplies(states: seq<State>, actions: seq<Action>, i: nat)
    requires Run(states, actions) && i < |states|
    ensures RepliesFit(states[i])
  {
    hide Interleaving.Inv, Can, Do, RepliesFit;
    if i == 0 {
      StartReplies();
    } else {
      RunKeeps(states, actions, i - 1);
      RunReplies(states, actions, i - 1);
      RepliesStep(states[i - 1], actions[i - 1]);
    }
  }

  lemma StartReplies()
    ensures RepliesFit(INITIAL)
  {}

  /** A tuple once returned is still registered exactly while the table still holds that very registration. */
  lemma ReturnedTupleLiveIff(states: seq<State>, actions: seq<Action>, i: nat, k: nat)
    requires Run(states, actions) && i < |states| && Live(states[i]) && k < |states[i].replies|
    ensures var r := states[i].replies[k];
      r.pair in states[i].tabs.tuples && (r.mr in states[i].tabs.mrs <==> states[i].tabs.tuples[r.pair] == r.mr)
  {
    hide Interleaving.Inv, Can, Do;
    RunKeeps(states, actions, i);
    RunReplies(states, actions, i);
    TableIsLive(states[i]);
  }

  // ----- Groups -----

  /** A group's protection domain never changes before the drop. */
  lemma {:induction false} DomainNeverChanges(states: seq<State>, actions: seq<Action>, i: nat, j: nat, g: u32)
    requires Run(states, actions) && i <= j < |states| && Live(states[j]) && g in states[i].tabs.groups
    ensures g in states[j].tabs.groups && states[j].tabs.groups[g].pd == states[i].tabs.groups[g].pd
  {
    hide Can, Do;
    if i < j {
      Frame(states[j - 1], actions[j - 1]);
      DomainNeverChanges(states, actions, i, j - 1, g);
    }
  }

  predicate Fits(mr: Mr, group: GroupEntry, info: RegionInfo) {
    mr.pd == group.pd && mr.addr == info.remoteAddr && mr.size == info.size
  }

  /**
   In every reachable state each connection of a group lives in the group's domain, and each table
   entry is a live registration in that domain of exactly the catalog's address and size.
   */
  lemma GroupsAndEntriesAgree(states: seq<State>, actions: seq<Action>, i: nat)
    requires Run(states, actions) && i < |states|
    ensures var t := states[i].tabs;
      && (forall g, c :: g in t.groups && c in t.groups[g].connections ==> c.pd == t.groups[g].pd)
      && (forall g, h :: g in t.groups && h in t.groups && g != h ==> t.groups[g].pd != t.groups[h].pd)
      && (forall p :: p in t.tuples ==> p.0 in t.catalog && p.1 in t.groups && t.tuples[p] in t.mrs)
      && (forall p :: p in t.tuples ==> Fits(t.mrs[t.tuples[p]], t.groups[p.1], t.catalog[p.0]))
  {
    hide Can, Do;
    RunKeeps(states, actions, i);
    EntriesAgree(states[i]);
  }

  /**
   In every reachable state before the drop a registration is reached through a connection exactly if
   both are of the same group: no key works through another group's connections.
   */
  lemma KeyWorksIffOwnGroup(states: seq<State>, actions: seq<Action>, i: nat, p: Pair, h: u32, c: RdmaConnection)
    requires Run(states, actions) && i < |states|
    requires p in states[i].tabs.tuples && h in states[i].tabs.groups && c in states[i].tabs.groups[h].connections
    ensures var t := states[i].tabs;
      t.tuples[p] in t.mrs && (c.pd == t.mrs[t.tuples[p]].pd <==> h == p.1)
  {
    hide Interleaving.Inv, Run;
    GroupsAndEntriesAgree(states, actions, i);
  }

  lemma EntriesAgree(s: State)
    requires Interleaving.Inv(s)
    ensures var t := s.tabs;
      && (forall g, c :: g in t.groups && c in t.groups[g].connections ==> c.pd == t.groups[g].pd)
      && (forall g, h :: g in t.groups && h in t.groups && g != h ==> t.groups[g].pd != t.groups[h].pd)
      && (forall p :: p in t.tuples ==> p.0 in t.catalog && p.1 in t.groups && t.tuples[p] in t.mrs)
      && (forall p :: p in t.tuples ==> Fits(t.mrs[t.tuples[p]], t.groups[p.1], t.catalog[p.0]))
  {}

  // ----- Calls that end without a tuple -----

  /** The refusal is the one the tables, or the device, give this step cause for. */
  predicate DueTo(s: State, a: Action, r: Refusal) {
    && CallAction(a) && a.th in s.pcs && s.pcs[a.th].Asking() && s.pcs[a.th].pair == r.pair
    && match r
       case NoSuch(p) => p.1 !in s.tabs.groups || p.0 !in s.tabs.catalog
       case NotRegistered(p) =>
         p.1 in s.tabs.groups && p.0 in s.tabs.catalog && a.Registration? &&
         (s.tabs.catalog[p.0].size == 0 || a.luck.None?)
  }

  /** A call in progress that ends here is answered with a tuple, or refused for cause, and not both. */
  predicate EndsRight(s: State, t: State, a: Action, th: nat)
    requires th in s.pcs && s.pcs[th].Asking()
  {
    var p := s.pcs[th].pair;
    var n, k := |s.replies|, |s.refusals|;
    if |t.replies| > n then
      t.replies[..n] == s.replies && |t.replies| == n + 1 && t.replies[n].pair == p && t.refusals == s.refusals
    else
      t.replies == s.replies && |t.refusals| == k + 1 && t.refusals[..k] == s.refusals &&
      t.refusals[k].pair == p && DueTo(s, a, t.refusals[k])
  }

  lemma CallEndsRight(s: State, a: Action)
    requires Can(s, a) && CallAction(a) && !a.Lookup? && PcFits(s, a.th, s.pcs[a.th])
    ensures s.pcs[a.th].Asking()
    ensures var t := CallAct(s, a);
      && a.th in t.pcs
      && (t.pcs[a.th] == Idle ==> EndsRight(s, t, a, a.th))
      && (t.pcs[a.th] != Idle ==> t.replies == s.replies && t.refusals == s.refusals)
  {
  }

  /**
   In every run, each call that missed its pair ends with a tuple, or with the refusal there is cause
   for: an unknown region or group is told apart from a region the device would not register.
   */
  lemma EveryCallEndsRight(states: seq<State>, actions: seq<Action>, i: nat, th: nat)
    requires Run(states, actions) && i < |actions|
    requires th in states[i].pcs && states[i].pcs[th].Asking()
    ensures th in states[i + 1].pcs
    ensures states[i + 1].pcs[th] == Idle ==> EndsRight(states[i], states[i + 1], actions[i], th)
  {
    hide Interleaving.Inv, Can, Do, CallAct, EndsRight;
    var s, a := states[i], actions[i];
    RunKeeps(states, actions, i);
    AskingStays(s, a, th);
    if CallAction(a) && a.th == th {
      AboutThread(s, th);
      CallFrame(s, a);
      NotALookup(s, a);
      CallEndsRight(s, a);
      SameEnd(s, CallAct(s, a), Do(s, a), a, th);
    }
  }

  lemma NotALookup(s: State, a: Action)
    requires Can(s, a) && CallAction(a) && a.th in s.pcs && s.pcs[a.th].Asking()
    ensures !a.Lookup?
  {}

  lemma SameEnd(s: State, t: State, u: State, a: Action, th: nat)
    requires th in s.pcs && s.pcs[th].Asking() && u == t.(clock := u.clock)
    ensures EndsRight(s, t, a, th) ==> EndsRight(s, u, a, th)
  {}

  /** Nobody but a thread itself ends its call. */
  lemma AskingStays(s: State, a: Action, th: nat)
    requires Interleaving.Inv(s) && Can(s, a) && th in s.pcs && s.pcs[th].Asking()
    ensures th in Do(s, a).pcs && (!(CallAction(a) && a.th == th) ==> Do(s, a).pcs[th] == s.pcs[th])
  {
    hide Interleaving.Inv, CallAct;
    if CallAction(a) { CallFrame(s, a); }
    else if RendezvousAction(a) { RendezvousFrame(s, a); }
    else if AppAction(a) { AppFrame(s, a); }
  }

  // ----- A call that nothing interrupts -----

  /** The next step of a thread inside `tuple_of`. */
  function NextStep(th: nat, pc: Pc, luck: Luck): (r: Action)
    requires pc.Asking()
  {
    if pc.Missed? then GetPd(th) else if pc.HavePd? then GetAddr(th)
    else if pc.HaveAddr? then Registration(th, luck) else Insert(th)
  }

  function StepsLeft(pc: Pc): (r: nat) {
    if pc.Missed? then 4 else if pc.HavePd? then 3 else if pc.HaveAddr? then 2 else if pc.HaveMr? then 1 else 0
  }

  lemma OneStepLess(s: State, th: nat, luck: Luck)
    requires th in s.pcs && s.pcs[th].Asking()
    ensures var t := Do(s, NextStep(th, s.pcs[th], luck));
      th in t.pcs && StepsLeft(t.pcs[th]) < StepsLeft(s.pcs[th]) && (t.pcs[th].Asking() || t.pcs[th] == Idle)
  {
    hide RendezvousAct, ThreadAct, AppAct;
  }

  /** A thread runs its call to the end, with nothing in between. */
  ghost function Finish(s: State, th: nat, luck: Luck): (r: State)
    requires th in s.pcs && s.pcs[th].Asking()
    decreases StepsLeft(s.pcs[th])
  {
    OneStepLess(s, th, luck);
    var t := Do(s, NextStep(th, s.pcs[th], luck));
    if t.pcs[th] == Idle then t else Finish(t, th, luck)
  }

  lemma FinishFromMr(s: State, th: nat, luck: Luck)
    requires th in s.pcs && s.pcs[th].HaveMr?
    ensures var t, pc := Finish(s, th, luck), s.pcs[th];
      t.tabs == Inserted(s.tabs, pc.pair, pc.mr) && t.replies == s.replies + [Reply(pc.pair, pc.mr)] &&
      t.refusals == s.refusals
  {
    hide RendezvousAct, ThreadAct, AppAct;
  }

  lemma FinishFromAddr(s: State, th: nat, luck: Luck)
    requires th in s.pcs && s.pcs[th].HaveAddr?
    ensures var t, pc := Finish(s, th, luck), s.pcs[th];
      if Registrable(pc.size, luck) then
        var granted := Registered(s.tabs, pc.pair.0, pc.pd, pc.addr, pc.size, luck.value);
        t.tabs == Inserted(granted, pc.pair, s.tabs.nextMr) &&
        t.replies == s.replies + [Reply(pc.pair, s.tabs.nextMr)] && t.refusals == s.refusals
      else
        t.tabs == s.tabs && t.replies == s.replies && t.refusals == s.refusals + [NotRegistered(pc.pair)]
  {
    hide RendezvousAct, ThreadAct, AppAct, Inserted, Registered;
    var t := Do(s, Registration(th, luck));
    if t.pcs[th] != Idle { FinishFromMr(t, th, luck); }
  }

  lemma FinishFromPd(s: State, th: nat, luck: Luck)
    requires th in s.pcs && s.pcs[th].HavePd?
    ensures var t, pc := Finish(s, th, luck), s.pcs[th];
      if pc.pair.0 in s.tabs.catalog && Registrable(s.tabs.catalog[pc.pair.0].size, luck) then
        var info := s.tabs.catalog[pc.pair.0];
        var granted := Registered(s.tabs, pc.pair.0, pc.pd, info.remoteAddr, info.size, luck.value);
        t.tabs == Inserted(granted, pc.pair, s.tabs.nextMr) &&
        t.replies == s.replies + [Reply(pc.pair, s.tabs.nextMr)] && t.refusals == s.refusals
      else
        t.tabs == s.tabs && t.replies == s.replies &&
        t.refusals == s.refusals +
          [if pc.pair.0 in s.tabs.catalog then NotRegistered(pc.pair) else NoSuch(pc.pair)]
  {
    hide RendezvousAct, ThreadAct, AppAct, Inserted, Registered, Registrable;
    var t := Do(s, GetAddr(th));
    if t.pcs[th] != Idle { FinishFromAddr(t, th, luck); }
  }

  /** Uninterrupted, the steps after a miss are the sequential `tuple_of`, and answer what it answers. */
  lemma SoloIsSequential(s: State, th: nat, luck: Luck)
    requires th in s.pcs && s.pcs[th].Missed? && s.pcs[th].pair !in s.tabs.tuples
    ensures var (tabs, answer) := AskTuple(s.tabs, s.pcs[th].pair, luck);
      && Finish(s, th, luck).tabs == tabs
      && Finish(s, th, luck).replies == s.replies + (if answer.Hit? then [Reply(s.pcs[th].pair, answer.mr)] else [])
      && Finish(s, th, luck).refusals == s.refusals +
           (match answer
            case Hit(_) => []
            case Unknown => [NoSuch(s.pcs[th].pair)]
            case RegistrationFailed => [NotRegistered(s.pcs[th].pair)])
  {
    hide RendezvousAct, ThreadAct, AppAct, Inserted, Registered, Registrable;
    var t := Do(s, GetPd(th));
    if t.pcs[th] != Idle { FinishFromPd(t, th, luck); }
  }
}
