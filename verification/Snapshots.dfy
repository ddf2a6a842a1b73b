/**
 A snapshot taken while other threads register, join and ask (src/providers.rs,
 `catalog_and_tuples`): what a reader then looks up, and for how long it stays good.
 */
module Snapshots {
  import opened Common
  import opened Codec
  import opened Caching = Cache
  import opened Registry
  import opened Interleaving
  import opened Lifetime
  import opened ProviderRuns
  import EndToEnd

  // ----- What a settled pair keeps, whatever the threads do -----

  lemma CallKeepsMrs(s: State, a: Action, m: nat)
    requires Can(s, a) && CallAction(a) && m in s.tabs.mrs && m < s.tabs.nextMr && m in CallAct(s, a).tabs.mrs
    ensures CallAct(s, a).tabs.mrs[m] == s.tabs.mrs[m]
  {}

  lemma AppKeepsCatalog(s: State, a: Action, id: u32)
    requires Interleaving.Inv(s) && Can(s, a) && AppAction(a) && id in s.tabs.catalog
    ensures id in AppAct(s, a).tabs.catalog && AppAct(s, a).tabs.catalog[id] == s.tabs.catalog[id]
  {}

  /** A catalogued region keeps its description. */
  lemma StepKeepsCatalog(s: State, a: Action, id: u32)
    requires Interleaving.Inv(s) && Can(s, a) && id in s.tabs.catalog
    ensures id in Do(s, a).tabs.catalog && Do(s, a).tabs.catalog[id] == s.tabs.catalog[id]
  {
    hide Interleaving.Inv, Can, CallAct, RendezvousAct, ThreadAct, AppAct;
    if CallAction(a) { CallFrame(s, a); }
    else if RendezvousAction(a) { RendezvousFrame(s, a); }
    else if ThreadAction(a) { ThreadFrame(s, a); }
    else { AppKeepsCatalog(s, a, id); }
  }

  /** A registration that stays is not changed. */
  lemma StepKeepsMr(s: State, a: Action, m: nat)
    requires Interleaving.Inv(s) && Can(s, a) && Live(Do(s, a)) && m in s.tabs.mrs && m in Do(s, a).tabs.mrs
    ensures Do(s, a).tabs.mrs[m] == s.tabs.mrs[m]
  {
    HandlesBelow(s, m);
    hide Interleaving.Inv, Can, CallAct, RendezvousAct, ThreadAct, AppAct;
    if CallAction(a) {
      CallKeepsMrs(s, a, m);
    } else {
      Frame(s, a);
    }
  }

  lemma HandlesBelow(s: State, m: nat)
    requires Interleaving.Inv(s) && m in s.tabs.mrs
    ensures m < s.tabs.nextMr
  {}

  /** A settled entry, its registration and its region's description are the same in every later live state. */
  lemma {:induction false} EntryStays(states: seq<State>, actions: seq<Action>, j: nat, l: nat, p: Pair)
    requires Run(states, actions) && j <= l < |states| && Live(states[l])
    requires p in states[j].tabs.tuples && NoneAsking(states[j], p)
    ensures var m := states[j].tabs.tuples[p];
      && p in states[l].tabs.tuples && states[l].tabs.tuples[p] == m
      && m in states[j].tabs.mrs && m in states[l].tabs.mrs && states[l].tabs.mrs[m] == states[j].tabs.mrs[m]
    ensures p.0 in states[j].tabs.catalog && p.0 in states[l].tabs.catalog
    ensures states[l].tabs.catalog[p.0] == states[j].tabs.catalog[p.0]
  {
    hide Interleaving.Inv, Can, Do, NoneAsking;
    RunKeeps(states, actions, j);
    EntriesAgree(states[j]);
    SettledTuple(states, actions, j, l, p);
    if j < l {
      StepTables(states[l - 1], actions[l - 1]);
      EntryStays(states, actions, j, l - 1, p);
      RunKeeps(states, actions, l - 1);
      StepKeepsMr(states[l - 1], actions[l - 1], states[j].tabs.tuples[p]);
      StepKeepsCatalog(states[l - 1], actions[l - 1], p.0);
    }
  }

  // ----- The snapshot -----

  /** The tuple of an answer whose registration is live, with no other call for the pair still pending. */
  ghost predicate SettledAnswer(s: State, g: u32, tuple: TupleDesc) {
    exists k :: 0 <= k < |s.replies| && IsAnswer(s, s.replies[k], g, tuple)
  }

  ghost predicate IsAnswer(s: State, r: Reply, g: u32, tuple: TupleDesc) {
    && r.pair == (tuple.regionId, g) && NoneAsking(s, r.pair) && r.mr in s.tabs.mrs
    && tuple == TupleDesc(tuple.regionId, s.tabs.mrs[r.mr].addr, s.tabs.mrs[r.mr].size, s.tabs.mrs[r.mr].rkey)
  }

  /** A settled pair's answers are settled answers, in every later live state. */
  lemma LaterAnswersSettled(states: seq<State>, actions: seq<Action>, i: nat, j: nat, g: u32, id: u32, k: nat)
    requires Run(states, actions) && i <= j < |states| && Live(states[j])
    requires (id, g) in states[i].tabs.tuples && NoneAsking(states[i], (id, g))
    requires |states[i].replies| <= k < |states[j].replies| && states[j].replies[k].pair == (id, g)
    ensures var s, m := states[j], states[j].replies[k].mr;
      && m in s.tabs.mrs
      && SettledAnswer(s, g, TupleDesc(id, s.tabs.mrs[m].addr, s.tabs.mrs[m].size, s.tabs.mrs[m].rkey))
  {
    hide Interleaving.Inv, Can, Do, NoneAsking;
    SettledTuple(states, actions, i, j, (id, g));
    var s := states[j];
    var mr := s.tabs.mrs[s.replies[k].mr];
    assert IsAnswer(s, s.replies[k], g, TupleDesc(id, mr.addr, mr.size, mr.rkey));
  }

  /** A settled answer is the table's tuple, then and later. */
  lemma AnswerStays(states: seq<State>, actions: seq<Action>, j: nat, l: nat, g: u32, tuple: TupleDesc)
    requires Run(states, actions) && j <= l < |states| && Live(states[l])
    requires SettledAnswer(states[j], g, tuple)
    ensures Registry.Inv(states[l].tabs) && EndToEnd.TupleOfEntry(states[l].tabs, tuple.regionId, g) == Some(tuple)
    ensures var id := tuple.regionId;
      id in states[j].tabs.catalog && id in states[l].tabs.catalog &&
      states[l].tabs.catalog[id] == states[j].tabs.catalog[id]
  {
    hide Interleaving.Inv, Can, Do, NoneAsking;
    var k :| 0 <= k < |states[j].replies| && IsAnswer(states[j], states[j].replies[k], g, tuple);
    KeysStay(states, actions, j, l);
    ReturnedTupleLiveIff(states, actions, j, k);
    EntryStays(states, actions, j, l, (tuple.regionId, g));
    RunKeeps(states, actions, l);
    TablesFit(states[l]);
  }

  /**
   The interleaved snapshot.  The catalog is read at step `i`; other threads may do anything while the
   tuples are asked for, and afterwards.  If at step `j` each tuple served is of a live registration
   that no pending call can replace, then in every state from there to the drop the reader that
   ingests the snapshot holds, for exactly the regions served, what the provider's table then has: the
   address, size and layout of the catalog and the key of a live registration.
   */
  lemma SnapshotStaysGood(states: seq<State>, actions: seq<Action>, i: nat, j: nat, l: nat, g: u32,
                          order: seq<u32>, ts: seq<TupleDesc>, h: seq<Call>, name: Utf8, id: u32)
    requires Run(states, actions) && i <= j <= l < |states| && Live(states[l])
    requires Enumerates(order, states[i].tabs.catalog)
    requires forall n :: 0 <= n < |ts| ==> ts[n].regionId in order && SettledAnswer(states[j], g, ts[n])
    ensures Registry.Inv(states[l].tabs)
    ensures
      var catalog := states[i].tabs.catalog;
      var c := After(EndToEnd.Ingesting(h, g, (Metadata(Advertised(order, catalog)), Tuples(g, ts))));
      Caching.Lookup(c, (name, id), g) ==
        if id in catalog && catalog[id].name == name && TupleFor(ts, id).Some? then EndToEnd.Held(states[l].tabs, id, g)
        else None
    ensures TupleFor(ts, id).Some? ==> EndToEnd.Held(states[l].tabs, id, g).Some?
  {
    hide Interleaving.Inv, Can, Do, NoneAsking, SettledAnswer, Caching.Lookup, After, Ingested, Keys, DescFor,
      MakeEntry, TupleFor,
      EndToEnd.Held, EndToEnd.TupleOfEntry, EndToEnd.Ingesting;
    RunKeeps(states, actions, l);
    TablesFit(states[l]);
    var u, catalog := states[l].tabs, states[i].tabs.catalog;
    var rs := Advertised(order, catalog);
    EndToEnd.AfterIngesting(h, g, Metadata(rs), Tuples(g, ts));
    LookupIngested(After(h), g, rs, ts, (name, id), g);
    EndToEnd.CatalogKeys(states[i].tabs, order, rs, name, id);
    if TupleFor(ts, id).Some? {
      var tuple := TupleFor(ts, id).value;
      AnswerStays(states, actions, j, l, g, tuple);
      RunKeeps(states, actions, i);
      CatalogStays(states, actions, i, l, id);
      EndToEnd.HeldMeansTuple(u, id, g);
    }
  }

  lemma {:induction false} CatalogStays(states: seq<State>, actions: seq<Action>, i: nat, l: nat, id: u32)
    requires Run(states, actions) && i <= l < |states| && id in states[i].tabs.catalog
    ensures id in states[l].tabs.catalog && states[l].tabs.catalog[id] == states[i].tabs.catalog[id]
  {
    hide Interleaving.Inv, Can, Do;
    if i < l {
      CatalogStays(states, actions, i, l - 1, id);
      RunKeeps(states, actions, l - 1);
      StepKeepsCatalog(states[l - 1], actions[l - 1], id);
    }
  }

  // ----- What one thread's loop over the catalog collects -----

  /** The pair a step of thread `th` looks up. */
  function AskedIn(a: Action, th: nat): (r: seq<Pair>) {
    if a.Lookup? && a.th == th then [a.pair] else []
  }

  /** The answer a step of thread `th` gives its caller. */
  function AnswerIn(s: State, t: State, a: Action, th: nat): (r: seq<Reply>) {
    if CallAction(a) && a.th == th && |t.replies| > |s.replies| then [t.replies[|t.replies| - 1]] else []
  }

  function AskedOf(actions: seq<Action>, th: nat, i: nat, j: nat): (r: seq<Pair>)
    requires i <= j <= |actions|
  {
    if i == j then [] else AskedOf(actions, th, i, j - 1) + AskedIn(actions[j - 1], th)
  }

  ghost function AnswersOf(states: seq<State>, actions: seq<Action>, th: nat, i: nat, j: nat): (r: seq<Reply>)
    requires i <= j < |states| == |actions| + 1
  {
    if i == j then []
    else AnswersOf(states, actions, th, i, j - 1) + AnswerIn(states[j - 1], states[j], actions[j - 1], th)
  }

  /**
   `catalog_and_tuples` on thread `th`, from the moment it has read the catalog to the moment it has
   asked for its last tuple: it asks for the ids in their order, and is between calls at both ends.
   */
  ghost predicate Collects(states: seq<State>, actions: seq<Action>, th: nat, g: u32, order: seq<u32>, i: nat, j: nat) {
    && i <= j < |states| == |actions| + 1 && At(states[i], th, Idle) && At(states[j], th, Idle)
    && Enumerates(order, states[i].tabs.catalog)
    && AskedOf(actions, th, i, j) == seq(|order|, n requires 0 <= n < |order| => (order[n], g))
  }

  /** The tuple list of a snapshot: one for each answer, with what was registered. */
  ghost predicate ListsAnswers(ts: seq<TupleDesc>, answers: seq<Reply>, s: State) {
    |ts| == |answers| && forall n :: 0 <= n < |ts| ==> answers[n].mr in s.regs && ts[n] == AnswerTuple(s, answers[n])
  }

  function AnswerTuple(s: State, r: Reply): (t: TupleDesc)
    requires r.mr in s.regs
  {
    TupleDesc(r.pair.0, s.regs[r.mr].addr, s.regs[r.mr].size, s.regs[r.mr].rkey)
  }

  lemma CallGrows(s: State, a: Action)
    requires Can(s, a) && CallAction(a)
    ensures var t := CallAct(s, a); s.replies <= t.replies && |t.replies| <= |s.replies| + 1
  {}

  lemma RepliesGrow(s: State, a: Action)
    requires Can(s, a)
    ensures s.replies <= Do(s, a).replies
  {
    hide Can, Do, CallAct;
    Frame(s, a);
    if CallAction(a) { CallFrame(s, a); CallGrows(s, a); }
  }

  /** Every answer a thread got is among the replies. */
  lemma {:induction false} AnswersAreReplies(states: seq<State>, actions: seq<Action>, th: nat, i: nat, j: nat)
    requires Run(states, actions) && i <= j < |states|
    ensures states[i].replies <= states[j].replies
    ensures forall r :: r in AnswersOf(states, actions, th, i, j) ==> r in states[j].replies[|states[i].replies|..]
  {
    hide Can, Do;
    if i < j {
      AnswersAreReplies(states, actions, th, i, j - 1);
      RepliesGrow(states[j - 1], actions[j - 1]);
    }
  }

  /** One step keeps what was asked and answered together. */
  lemma CallAnswers(s: State, a: Action)
    requires Can(s, a) && CallAction(a) && (!a.Lookup? ==> s.pcs[a.th].Asking())
    ensures var t := CallAct(s, a);
      && a.th in t.pcs
      && (a.Lookup? ==>
            (t.pcs[a.th].Asking() ==> t.pcs[a.th].pair == a.pair) &&
            (|t.replies| > |s.replies| ==> t.replies[|t.replies| - 1].pair == a.pair))
      && (!a.Lookup? ==>
            (t.pcs[a.th].Asking() ==> t.pcs[a.th].pair == s.pcs[a.th].pair) &&
            (|t.replies| > |s.replies| ==> t.replies[|t.replies| - 1].pair == s.pcs[a.th].pair))
      && (a.Lookup? && a.pair in s.tabs.tuples ==> |t.replies| > |s.replies|)
  {}

  lemma CallerIsAsking(s: State, a: Action)
    requires Can(s, a) && CallAction(a) && !a.Lookup?
    ensures a.th in s.pcs && s.pcs[a.th].Asking()
  {}

  lemma AnswersStep(s: State, a: Action, th: nat, asked: seq<Pair>)
    requires Can(s, a) && (th in s.pcs && s.pcs[th].Asking() ==> s.pcs[th].pair in asked)
    ensures var t, more := Do(s, a), asked + AskedIn(a, th);
      && (th in t.pcs && t.pcs[th].Asking() ==> t.pcs[th].pair in more)
      && (forall r :: r in AnswerIn(s, t, a, th) ==> r.pair in more)
  {
    hide Can, Do, CallAct;
    Frame(s, a);
    if CallAction(a) {
      CallFrame(s, a);
      if !a.Lookup? { CallerIsAsking(s, a); }
      CallAnswers(s, a);
    }
  }

  /** A thread that was between calls is answered only what it has asked since. */
  lemma {:induction false} AnswersWereAsked(states: seq<State>, actions: seq<Action>, th: nat, i: nat, j: nat)
    requires Run(states, actions) && i <= j < |states| && At(states[i], th, Idle)
    ensures var asked := AskedOf(actions, th, i, j);
      && (th in states[j].pcs && states[j].pcs[th].Asking() ==> states[j].pcs[th].pair in asked)
      && (forall r :: r in AnswersOf(states, actions, th, i, j) ==> r.pair in asked)
  {
    hide Can, Do;
    if i < j {
      AnswersWereAsked(states, actions, th, i, j - 1);
      AnswersStep(states[j - 1], actions[j - 1], th, AskedOf(actions, th, i, j - 1));
    }
  }

  /** Asking for a pair that is in the table is answered at once. */
  lemma {:induction false} KnownIsAnswered(states: seq<State>, actions: seq<Action>, th: nat, i: nat, j: nat, p: Pair)
    requires Run(states, actions) && i <= j < |states| && Live(states[j])
    requires p in states[i].tabs.tuples && p in AskedOf(actions, th, i, j)
    ensures exists r :: r in AnswersOf(states, actions, th, i, j) && r.pair == p
  {
    hide Can, Do;
    StepTables(states[j - 1], actions[j - 1]);
    KeysStay(states, actions, i, j - 1);
    if p in AskedOf(actions, th, i, j - 1) {
      KnownIsAnswered(states, actions, th, i, j - 1, p);
      var r :| r in AnswersOf(states, actions, th, i, j - 1) && r.pair == p;
      assert r in AnswersOf(states, actions, th, i, j);
    } else {
      var s, t, a := states[j - 1], states[j], actions[j - 1];
      assert a == Interleaving.Action.Lookup(th, p);
      LookupAnswers(s, th, p);
      assert t.replies[|t.replies| - 1] in AnswersOf(states, actions, th, i, j);
    }
  }

  lemma LookupAnswers(s: State, th: nat, p: Pair)
    requires Can(s, Interleaving.Action.Lookup(th, p)) && p in s.tabs.tuples
    ensures var t := Do(s, Interleaving.Action.Lookup(th, p));
      |t.replies| > |s.replies| && t.replies[|t.replies| - 1].pair == p
  {
    var a := Interleaving.Action.Lookup(th, p);
    CallFrame(s, a);
    CallAnswers(s, a);
  }

  lemma AnswerIsSettled(states: seq<State>, actions: seq<Action>, j: nat, g: u32, r: Reply)
    requires Run(states, actions) && j < |states| && r in states[j].replies && r.pair.1 == g
    requires NoneAsking(states[j], r.pair) && r.mr in states[j].tabs.mrs && r.mr in states[j].regs
    ensures SettledAnswer(states[j], g, AnswerTuple(states[j], r))
  {
    hide Can, Do, NoneAsking;
    RunLife(states, actions, j);
    var s := states[j];
    assert s.regs[r.mr] == s.tabs.mrs[r.mr];
    var k :| 0 <= k < |s.replies| && s.replies[k] == r;
    assert IsAnswer(s, s.replies[k], g, AnswerTuple(s, r));
  }

  /** What the thread collected is of the catalog and the group, and settled if its answers are. */
  lemma CollectedAreSettled(states: seq<State>, actions: seq<Action>, th: nat, g: u32, order: seq<u32>, i: nat, j: nat,
                            ts: seq<TupleDesc>)
    requires Run(states, actions) && Collects(states, actions, th, g, order, i, j)
    requires ListsAnswers(ts, AnswersOf(states, actions, th, i, j), states[j])
    requires forall r :: r in AnswersOf(states, actions, th, i, j) ==>
      NoneAsking(states[j], r.pair) && r.mr in states[j].tabs.mrs
    ensures var answers := AnswersOf(states, actions, th, i, j);
      forall n :: 0 <= n < |ts| ==>
        ts[n].regionId in order && answers[n].pair == (ts[n].regionId, g) && SettledAnswer(states[j], g, ts[n])
  {
    hide Interleaving.Inv, Can, Do, NoneAsking, SettledAnswer, Run, AnswersOf;
    var answers := AnswersOf(states, actions, th, i, j);
    AnswersAreReplies(states, actions, th, i, j);
    AnswersWereAsked(states, actions, th, i, j);
    forall n | 0 <= n < |ts|
      ensures ts[n].regionId in order && answers[n].pair == (ts[n].regionId, g) && SettledAnswer(states[j], g, ts[n])
    {
      assert answers[n] in answers && answers[n].pair in AskedOf(actions, th, i, j);
      AnswerIsSettled(states, actions, j, g, answers[n]);
    }
  }

  lemma ServedIsAnswered(ts: seq<TupleDesc>, answers: seq<Reply>, g: u32, id: u32)
    requires |ts| == |answers| && forall n :: 0 <= n < |ts| ==> answers[n].pair == (ts[n].regionId, g)
    ensures TupleFor(ts, id).Some? <==> exists r :: r in answers && r.pair == (id, g)
  {
    hide TupleFor;
    LastTuple(ts, id);
    if n :| 0 <= n < |ts| && ts[n].regionId == id {
      assert answers[n] in answers;
    }
  }

  lemma {:induction false} LastTuple(ts: seq<TupleDesc>, id: u32)
    ensures TupleFor(ts, id).Some? <==> exists n :: 0 <= n < |ts| && ts[n].regionId == id
  {
    if ts != [] { LastTuple(ts[..|ts| - 1], id); }
  }

  /**
   The snapshot a thread collects while others do anything: if, when it is done, what it was answered
   is registered and nobody is still asking for those pairs, then from there to the drop the reader
   that ingests it holds exactly the provider's entries for the regions the thread was answered for.
   */
  lemma CollectedStaysGood(states: seq<State>, actions: seq<Action>, th: nat, g: u32, order: seq<u32>, i: nat, j: nat,
                           l: nat, ts: seq<TupleDesc>, h: seq<Call>, name: Utf8, id: u32)
    requires Run(states, actions) && j <= l < |states| && Live(states[l])
    requires Collects(states, actions, th, g, order, i, j)
    requires ListsAnswers(ts, AnswersOf(states, actions, th, i, j), states[j])
    requires forall r :: r in AnswersOf(states, actions, th, i, j) ==>
      NoneAsking(states[j], r.pair) && r.mr in states[j].tabs.mrs
    ensures Registry.Inv(states[l].tabs)
    ensures
      var catalog, answers := states[i].tabs.catalog, AnswersOf(states, actions, th, i, j);
      var c := After(EndToEnd.Ingesting(h, g, (Metadata(Advertised(order, catalog)), Tuples(g, ts))));
      Caching.Lookup(c, (name, id), g) ==
        if id in catalog && catalog[id].name == name && (exists r :: r in answers && r.pair == (id, g))
        then EndToEnd.Held(states[l].tabs, id, g)
        else None
    ensures (exists r :: r in AnswersOf(states, actions, th, i, j) && r.pair == (id, g)) ==>
      EndToEnd.Held(states[l].tabs, id, g).Some?
  {
    hide Interleaving.Inv, Can, Do, NoneAsking, SettledAnswer, Caching.Lookup, After, TupleFor, Run, EndToEnd.Held,
      EndToEnd.Ingesting, AnswersOf, AnswerTuple;
    var answers := AnswersOf(states, actions, th, i, j);
    CollectedAreSettled(states, actions, th, g, order, i, j, ts);
    SnapshotStaysGood(states, actions, i, j, l, g, order, ts, h, name, id);
    ServedIsAnswered(ts, answers, g, id);
  }

  /**
   Once a group's pairs are settled, every snapshot any thread collects for it serves every region of
   the catalog, and stays good to the drop.
   */
  lemma SettledGroupStaysGood(states: seq<State>, actions: seq<Action>, th: nat, g: u32, order: seq<u32>,
                              i: nat, j: nat, l: nat, ts: seq<TupleDesc>, h: seq<Call>, name: Utf8, id: u32)
    requires Run(states, actions) && j <= l < |states| && Live(states[l])
    requires Collects(states, actions, th, g, order, i, j)
    requires ListsAnswers(ts, AnswersOf(states, actions, th, i, j), states[j])
    requires forall x :: x in order ==> (x, g) in states[i].tabs.tuples && NoneAsking(states[i], (x, g))
    ensures Registry.Inv(states[l].tabs)
    ensures
      var catalog := states[i].tabs.catalog;
      var c := After(EndToEnd.Ingesting(h, g, (Metadata(Advertised(order, catalog)), Tuples(g, ts))));
      Caching.Lookup(c, (name, id), g) ==
        if id in catalog && catalog[id].name == name then EndToEnd.Held(states[l].tabs, id, g) else None
    ensures id in states[i].tabs.catalog ==> EndToEnd.Held(states[l].tabs, id, g).Some?
  {
    hide Interleaving.Inv, Can, Do, NoneAsking, Caching.Lookup, After, Run, EndToEnd.Held, EndToEnd.Ingesting,
      AnswersOf;
    var answers := AnswersOf(states, actions, th, i, j);
    AnswersAreReplies(states, actions, th, i, j);
    AnswersWereAsked(states, actions, th, i, j);
    KeysStay(states, actions, j, l);
    forall r | r in answers ensures NoneAsking(states[j], r.pair) && r.mr in states[j].tabs.mrs {
      assert r.pair in AskedOf(actions, th, i, j);
      SettledTuple(states, actions, i, j, r.pair);
    }
    CollectedStaysGood(states, actions, th, g, order, i, j, l, ts, h, name, id);
    if id in states[i].tabs.catalog {
      var n :| 0 <= n < |order| && order[n] == id;
      assert AskedOf(actions, th, i, j)[n] == (id, g);
      KnownIsAnswered(states, actions, th, i, j, (id, g));
    }
  }
}
