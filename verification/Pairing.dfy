/**
 The rendezvous and the provider's tables put together (src/providers.rs, src/rdma/verbs.rs): the
 connection in a reader's slot is one its own group accepted, in the domain of the group's
 registrations, and in no other group.
 */
module Pairing {
  import opened Common
  import opened Registry
  import opened Interleaving
  import opened ProviderRuns
  import EndToEnd
  import Rendezvous

  /** The groups joined in the first `n` steps of the provider's threads, each with the connection that joined. */
  ghost function JoinsOf(states: seq<State>, actions: seq<Action>, n: nat): (r: seq<(u32, nat)>)
    requires n <= |actions| < |states|
  {
    if n == 0 then [] else JoinsOf(states, actions, n - 1) + JoinIn(states[n - 1], actions[n - 1])
  }

  ghost function JoinIn(s: State, a: Action): (r: seq<(u32, nat)>) {
    if a.JoinGroup? && SERVICE in s.pcs && s.pcs[SERVICE].Accepted? then
      [(s.pcs[SERVICE].g, s.pcs[SERVICE].connection.id)]
    else []
  }

  /** What completed handshakes join: the group that was asked for, with the connection that was accepted. */
  function Completions(s: Rendezvous.State): (r: seq<(u32, nat)>)
    requires forall i :: 0 <= i < |s.completed| ==> s.completed[i].k < |s.attempts|
    ensures |r| == |s.completed|
  {
    seq(|s.completed|, i requires 0 <= i < |s.completed| => (s.attempts[s.completed[i].k].group, s.completed[i].of))
  }

  ghost predicate Holds(t: Tables, g: u32, id: nat) {
    g in t.groups && exists c :: c in t.groups[g].connections && c.id == id
  }

  // ----- A group's connections are those that joined it -----

  lemma JoinHolds(s: State, g: u32, id: nat)
    requires Can(s, JoinGroup)
    ensures Holds(RendezvousAct(s, JoinGroup).tabs, g, id) <==>
      Holds(s.tabs, g, id) || (g, id) == (s.pcs[SERVICE].g, s.pcs[SERVICE].connection.id)
  {
    var t, pc := RendezvousAct(s, JoinGroup).tabs, s.pcs[SERVICE];
    if Holds(s.tabs, g, id) {
      var c :| c in s.tabs.groups[g].connections && c.id == id;
      assert c in t.groups[g].connections;
    }
    assert pc.connection in t.groups[pc.g].connections;
  }

  lemma RendezvousGroups(s: State, a: Action)
    requires Can(s, a) && RendezvousAction(a) && !a.JoinGroup?
    ensures RendezvousAct(s, a).tabs == s.tabs
  {}

  lemma StepHolds(s: State, a: Action, g: u32, id: nat)
    requires Can(s, a) && Live(Do(s, a))
    ensures Live(s)
    ensures Holds(Do(s, a).tabs, g, id) <==> Holds(s.tabs, g, id) || (g, id) in JoinIn(s, a)
  {
    hide CallAct, RendezvousAct, ThreadAct, AppAct, Can;
    Frame(s, a);
    if CallAction(a) { CallFrame(s, a); }
    else if a.JoinGroup? { ServiceAccepted(s); JoinHolds(s, g, id); }
    else if RendezvousAction(a) { RendezvousGroups(s, a); }
    else if ThreadAction(a) { ThreadFrame(s, a); }
    else { AppFrame(s, a); }
  }

  lemma ServiceAccepted(s: State)
    requires Can(s, JoinGroup)
    ensures SERVICE in s.pcs && s.pcs[SERVICE].Accepted?
  {}

  /** Before the drop a group holds exactly the connections that joined it. */
  lemma {:induction false} GroupsHoldJoins(states: seq<State>, actions: seq<Action>, n: nat, g: u32, id: nat)
    requires Run(states, actions) && n < |states| && Live(states[n])
    ensures Holds(states[n].tabs, g, id) <==> (g, id) in JoinsOf(states, actions, n)
  {
    hide Can, Do, Holds;
    if n == 0 {
      NobodyHolds(g, id);
    } else {
      StepHolds(states[n - 1], actions[n - 1], g, id);
      GroupsHoldJoins(states, actions, n - 1, g, id);
    }
  }

  lemma NobodyHolds(g: u32, id: nat)
    ensures !Holds(INITIAL.tabs, g, id)
  {}

  // ----- The two machines side by side -----

  lemma CompletedInRange(states: seq<Rendezvous.State>, actions: seq<Rendezvous.Action>, m: nat)
    requires Rendezvous.OrderlyRun(states, actions) && m < |states|
    ensures forall i :: 0 <= i < |states[m].completed| ==>
      states[m].completed[i].k < |states[m].attempts| && states[m].completed[i].of == states[m].completed[i].k
  {
    Rendezvous.RunKeeps(states, actions, m);
  }

  /** In an orderly run reader `k` is among the completions with its own group and no other. */
  lemma OwnGroupOnly(states: seq<Rendezvous.State>, actions: seq<Rendezvous.Action>, m: nat)
    requires Rendezvous.OrderlyRun(states, actions) && m < |states|
    ensures forall i :: 0 <= i < |states[m].completed| ==> states[m].completed[i].k < |states[m].attempts|
    ensures forall i :: 0 <= i < |states[m].completed| ==>
      var join := Completions(states[m])[i];
      join.1 == states[m].completed[i].of < |states[m].attempts| && join.0 == states[m].attempts[join.1].group
  {
    CompletedInRange(states, actions, m);
  }

  /**
   Any orderly run of the rendezvous beside any run of the provider's threads, the groups having been
   joined by completed handshakes, in their order.  Once reader k's handshake has joined, the connection
   in its slot has its other end in the group the reader asked for and in no other, and in the domain
   of exactly that group's registrations.
   */
  lemma ReadersConnectionEndsInItsGroup(
      met: seq<Rendezvous.State>, meetings: seq<Rendezvous.Action>, m: nat,
      states: seq<State>, actions: seq<Action>, n: nat, i: nat)
    requires Rendezvous.OrderlyRun(met, meetings) && m < |met|
    requires Run(states, actions) && n < |states| && Live(states[n])
    requires forall x :: 0 <= x < |met[m].completed| ==> met[m].completed[x].k < |met[m].attempts|
    requires JoinsOf(states, actions, n) <= Completions(met[m]) && i < |JoinsOf(states, actions, n)|
    ensures var k := met[m].completed[i].of;
      && k < |met[m].attempts|
      && (exists c :: EndToEnd.Ends(states[n].tabs, met[m].attempts[k].group, Some(k), c))
      && (forall h: u32, c: RdmaConnection :: EndToEnd.Ends(states[n].tabs, h, Some(k), c) ==>
            h == met[m].attempts[k].group && ReachesOwnGroup(states[n].tabs, h, c))
  {
    hide Interleaving.Inv, Interleaving.Can, Interleaving.Do, Rendezvous.OrderlyRun, Completions, JoinsOf;
    var t, joins := states[n].tabs, JoinsOf(states, actions, n);
    OwnGroupOnly(met, meetings, m);
    var (g, k) := joins[i];
    assert (g, k) in joins;
    GroupsHoldJoins(states, actions, n, g, k);
    var own :| own in t.groups[g].connections && own.id == k;
    assert EndToEnd.Ends(t, g, Some(k), own);
    forall h: u32, c: RdmaConnection | EndToEnd.Ends(t, h, Some(k), c)
      ensures h == g && ReachesOwnGroup(t, h, c)
    {
      GroupsHoldJoins(states, actions, n, h, k);
      var x :| 0 <= x < |joins| && joins[x] == (h, k);
      forall p | p in t.tuples ensures t.tuples[p] in t.mrs && (c.pd == t.mrs[t.tuples[p]].pd <==> p.1 == h) {
        KeyWorksIffOwnGroup(states, actions, n, p, h, c);
      }
    }
  }

  /** The keys that work through connection `c` are those of group `h`. */
  ghost predicate ReachesOwnGroup(t: Tables, h: u32, c: RdmaConnection) {
    forall p :: p in t.tuples ==> t.tuples[p] in t.mrs && (c.pd == t.mrs[t.tuples[p]].pd <==> p.1 == h)
  }
}
