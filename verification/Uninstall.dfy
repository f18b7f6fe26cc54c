/** Preparing for uninstallation: deleting all policies while template-sync cleans up behind them. */
module Uninstall {
  import opened Text
  import opened TemplateObjects
  import opened TemplateSync

  /** A policy on the managed cluster. */
  datatype Item = Item(policy: Policy, finalizers: seq<string>, deleting: bool)

  /** The policies left, and the objects of their templates. */
  datatype State = State(items: map<string, Item>, cluster: Cluster)

  /** A template-sync reconcile of one policy, and how its calls turn out. */
  datatype Visit = Visit(name: string, outer: Outer)

  datatype Listing = ListOk | ListTimeout | ListError

  /** One turn of the loop of deletePolicies, and what the controllers do until the next. */
  datatype Round = Round(contextOpen: bool, listing: Listing, deleteOk: bool, visits: seq<Visit>)

  datatype Outcome = Running | Finished | ContextCanceled | CouldNotList

  function IdleCalls(n: nat): (r: seq<Calls>)
    ensures |r| == n
  {
    seq(n, _ => Calls(GetOk, WriteOk, WriteOk, true, true, true, true, true, true, true, None))
  }

  /** DeleteCollection: policies without finalizers go at once, the others are marked. */
  function MarkAll(items: map<string, Item>): map<string, Item> {
    map name | name in items && items[name].finalizers != [] :: items[name].(deleting := true)
  }

  /** Template-sync in uninstallation mode; the API server drops a deleted policy with its last finalizer. */
  function VisitOne(env: Env, s: State, v: Visit): State {
    if v.name !in s.items then s
    else
      var item := s.items[v.name];
      var o := v.outer.(deleting := item.deleting, uninstalling := true);
      var calls := IdleCalls(|item.policy.templates|);
      var after := Reconciled(env, item.policy, calls, o, Store(s.cluster, item.finalizers, {}, None));
      if item.deleting && after.finalizers == [] then State(s.items - {v.name}, after.cluster)
      else State(s.items[v.name := item.(finalizers := after.finalizers)], after.cluster)
  }

  function VisitAll(env: Env, s: State, visits: seq<Visit>): State {
    if visits == [] then s else VisitOne(env, VisitAll(env, s, visits[..|visits| - 1]), visits[|visits| - 1])
  }

  datatype Progress = Progress(outcome: Outcome, state: State)

  function TurnOnce(env: Env, s: State, r: Round): Progress {
    if !r.contextOpen then Progress(ContextCanceled, s)
    else if r.listing == ListTimeout then Progress(Running, s)
    else if r.listing == ListError then Progress(CouldNotList, s)
    else if s.items == map[] then Progress(Finished, s)
    else Progress(Running, VisitAll(env, if r.deleteOk then s.(items := MarkAll(s.items)) else s, r.visits))
  }

  function Turns(env: Env, s: State, rounds: seq<Round>): Progress {
    if rounds == [] then Progress(Running, s)
    else
      var p := Turns(env, s, rounds[..|rounds| - 1]);
      if p.outcome != Running then p else TurnOnce(env, p.state, rounds[|rounds| - 1])
  }

  /** The cluster as the uninstaller and the controllers change it. */
  class Cleaner {
    const env: Env
    var state: State

    constructor (env: Env, state: State)
      ensures this.env == env && this.state == state
    {
      this.env, this.state := env, state;
    }

    method DeletePolicies(rounds: seq<Round>) returns (outcome: Outcome)
      modifies this
      ensures Progress(outcome, state) == Turns(env, old(state), rounds)
    {
      hide VisitAll;
      outcome := Running;
      for i := 0 to |rounds|
        invariant outcome == Running && Progress(Running, state) == Turns(env, old(state), rounds[..i])
      {
        assert rounds[..i + 1][..i] == rounds[..i];
        var r := rounds[i];
        if !r.contextOpen {
          outcome := ContextCanceled;
        } else if r.listing == ListTimeout {
          continue;
        } else if r.listing == ListError {
          outcome := CouldNotList;
        } else if state.items == map[] {
          outcome := Finished;
        } else {
          if r.deleteOk {
            state := state.(items := MarkAll(state.items));
          }
          state := VisitAll(env, state, r.visits);
        }
        if outcome != Running {
          TurnsStop(env, old(state), rounds, i + 1, |rounds|);
          assert rounds[..|rounds|] == rounds;
          return;
        }
      }
      assert rounds[..|rounds|] == rounds;
    }
  }

  lemma {:induction false} TurnsStop(env: Env, s: State, rounds: seq<Round>, i: nat, n: nat)
    requires i <= n <= |rounds| && Turns(env, s, rounds[..i]).outcome != Running
    ensures Turns(env, s, rounds[..n]) == Turns(env, s, rounds[..i])
    decreases n
  {
    hide TurnOnce;
    if i < n {
      TurnsStop(env, s, rounds, i, n - 1);
      assert rounds[..n][..n - 1] == rounds[..n - 1];
    }
  }

  // ---------------------------------------------------------------- when a deleted policy can go

  /** The templates of the policy let template-sync give up the finalizer. */
  ghost predicate CanBeCleaned(env: Env, pol: Policy, undeletable: set<Key>) {
    || pol.templates == []
    || (&& DupNameFrom(pol.templates, 0, {}) == ""
        && forall i :: 0 <= i < |pol.templates| ==> !CleanupFails(env, true, undeletable, pol.templates[i].definition))
  }

  ghost predicate OnlyOurs(finalizers: seq<string>) {
    forall i :: 0 <= i < |finalizers| ==> finalizers[i] == FINALIZER
  }

  lemma {:induction false} NothingElseLeft(finalizers: seq<string>)
    requires OnlyOurs(finalizers)
    ensures WithoutFinalizer(finalizers, FINALIZER) == []
  {
    if finalizers != [] { NothingElseLeft(finalizers[1..]); }
  }

  /**
   * A policy marked for deletion, with no finalizer but ours, loses it exactly when it has no templates or its
   * templates have no repeated name and every cluster-scoped one can be deleted. Repeated names, or a nameless
   * cluster-scoped template, hold up the deletion for good.
   */
  lemma DeletedPolicyGoesIff(env: Env, pol: Policy, o: Outer, store: Store)
    requires store.finalizers != [] && OnlyOurs(store.finalizers) && o.deleting && o.uninstalling && o.updateOk
    ensures
      Reconciled(env, pol, IdleCalls(|pol.templates|), o, store).finalizers == [] <==>
      CanBeCleaned(env, pol, o.undeletable)
  {
    hide CleanupFails, FinalizerCleaned, PassTo, DupNameFrom, WithoutFinalizer;
    NothingElseLeft(store.finalizers);
    assert FINALIZER in store.finalizers by { assert store.finalizers[0] == FINALIZER; }
  }

  /** In uninstallation mode a reconcile never adds a finalizer. */
  lemma FinalizersOnlyGo(env: Env, pol: Policy, o: Outer, store: Store)
    requires OnlyOurs(store.finalizers) && o.uninstalling
    ensures
      var after := Reconciled(env, pol, IdleCalls(|pol.templates|), o, store).finalizers;
      OnlyOurs(after) && (after == store.finalizers || after == [])
  {
    hide CleanupFails, FinalizerCleaned, PassTo, DupNameFrom, WithoutFinalizer;
    NothingElseLeft(store.finalizers);
  }

  // ---------------------------------------------------------------- the loop ends

  ghost predicate AllOurs(items: map<string, Item>) {
    forall name :: name in items ==> OnlyOurs(items[name].finalizers)
  }

  /** Every policy is marked for deletion and still has a finalizer to lose. */
  ghost predicate AllMarked(items: map<string, Item>) {
    forall name :: name in items ==> items[name].deleting && items[name].finalizers != []
  }

  /** Later policies are earlier ones, with the same templates. */
  ghost predicate Shrinks(a: map<string, Item>, b: map<string, Item>) {
    forall name :: name in b ==>
      name in a && b[name].policy == a[name].policy && (a[name].deleting ==> b[name].deleting)
  }

  lemma VisitShrinks(env: Env, s: State, v: Visit)
    requires AllOurs(s.items)
    ensures
      var t := VisitOne(env, s, v);
      && AllOurs(t.items) && Shrinks(s.items, t.items)
      && (AllMarked(s.items) ==> AllMarked(t.items))
  {
    if v.name in s.items {
      var item := s.items[v.name];
      var o := v.outer.(deleting := item.deleting, uninstalling := true);
      FinalizersOnlyGo(env, item.policy, o, Store(s.cluster, item.finalizers, {}, None));
      hide Reconciled, OnlyOurs;
    }
  }

  lemma {:induction false} VisitsShrink(env: Env, s: State, visits: seq<Visit>)
    requires AllOurs(s.items)
    ensures
      var t := VisitAll(env, s, visits);
      && AllOurs(t.items) && Shrinks(s.items, t.items)
      && (AllMarked(s.items) ==> AllMarked(t.items))
  {
    hide VisitOne, OnlyOurs;
    if visits != [] {
      var front := visits[..|visits| - 1];
      VisitsShrink(env, s, front);
      VisitShrinks(env, VisitAll(env, s, front), visits[|visits| - 1]);
    }
  }

  /** A visit whose calls succeed to a policy that can be cleaned up. */
  ghost predicate Works(env: Env, items: map<string, Item>, v: Visit) {
    v.name in items && v.outer.updateOk && CanBeCleaned(env, items[v.name].policy, v.outer.undeletable)
  }

  lemma WorkingVisitRemoves(env: Env, s: State, v: Visit)
    requires AllOurs(s.items) && AllMarked(s.items)
    requires v.name in s.items ==> Works(env, s.items, v)
    ensures v.name !in VisitOne(env, s, v).items
  {
    if v.name in s.items {
      var item := s.items[v.name];
      var o := v.outer.(deleting := item.deleting, uninstalling := true);
      DeletedPolicyGoesIff(env, item.policy, o, Store(s.cluster, item.finalizers, {}, None));
      hide Reconciled, CanBeCleaned;
    }
  }

  lemma {:induction false} WorkingVisitCounts(env: Env, s: State, visits: seq<Visit>, k: nat)
    requires AllOurs(s.items) && AllMarked(s.items) && k < |visits| && Works(env, s.items, visits[k])
    ensures visits[k].name !in VisitAll(env, s, visits).items
    decreases |visits|
  {
    hide VisitOne, AllOurs, CanBeCleaned;
    var n := |visits| - 1;
    var front := visits[..n];
    var before := VisitAll(env, s, front);
    VisitsShrink(env, s, front);
    VisitShrinks(env, before, visits[n]);
    if k == n {
      WorkingVisitRemoves(env, before, visits[n]);
    } else {
      WorkingVisitCounts(env, s, front, k);
    }
  }

  /** The round is not held up, and between it and the next one working visit to some policy happens. */
  ghost predicate Productive(env: Env, s: State, r: Round) {
    && r.contextOpen && r.listing == ListOk && r.deleteOk
    && (MarkAll(s.items) != map[] ==> exists k :: 0 <= k < |r.visits| && Works(env, MarkAll(s.items), r.visits[k]))
  }

  lemma RoundShrinks(env: Env, s: State, r: Round)
    requires AllOurs(s.items) && Productive(env, s, r) && s.items != map[]
    ensures
      var p := TurnOnce(env, s, r);
      p.outcome == Running && AllOurs(p.state.items) && p.state.items.Keys < s.items.Keys
  {
    hide VisitAll, CanBeCleaned;
    var marked := s.(items := MarkAll(s.items));
    VisitsShrink(env, marked, r.visits);
    var after := VisitAll(env, marked, r.visits);
    assert after.items.Keys <= marked.items.Keys <= s.items.Keys;
    if marked.items == map[] {
      assert s.items.Keys != {};
      assert after.items.Keys == {};
    } else {
      var k :| 0 <= k < |r.visits| && Works(env, marked.items, r.visits[k]);
      WorkingVisitCounts(env, marked, r.visits, k);
      assert r.visits[k].name in s.items && r.visits[k].name !in after.items;
    }
  }

  lemma {:induction false} FewerPolicies(a: set<string>, b: set<string>)
    requires a < b
    ensures |a| < |b|
  {
    var x :| x in b && x !in a;
    if a != {} {
      var y :| y in a;
      FewerPolicies(a - {y}, b - {y});
    }
  }

  lemma {:induction false} RoundsShrink(env: Env, s: State, rounds: seq<Round>)
    requires AllOurs(s.items)
    requires forall i :: 0 <= i < |rounds| ==> Productive(env, Turns(env, s, rounds[..i]).state, rounds[i])
    ensures
      var p := Turns(env, s, rounds);
      && AllOurs(p.state.items)
      && (p.outcome == Finished || (p.outcome == Running && |p.state.items| + |rounds| <= |s.items|))
  {
    hide TurnOnce, Productive, AllOurs;
    if rounds != [] {
      var n := |rounds| - 1;
      var front := rounds[..n];
      assert forall i :: 0 <= i < n ==> front[..i] == rounds[..i] && front[i] == rounds[i];
      RoundsShrink(env, s, front);
      var p := Turns(env, s, front);
      assert Productive(env, p.state, rounds[n]);
      if p.outcome == Running {
        if p.state.items == map[] {
          EmptyListingFinishes(env, p.state, rounds[n]);
        } else {
          RoundShrinks(env, p.state, rounds[n]);
          var q := TurnOnce(env, p.state, rounds[n]).state;
          FewerPolicies(q.items.Keys, p.state.items.Keys);
          assert |q.items| == |q.items.Keys| && |p.state.items| == |p.state.items.Keys|;
        }
      }
    }
  }

  lemma EmptyListingFinishes(env: Env, s: State, r: Round)
    requires Productive(env, s, r) && s.items == map[]
    ensures TurnOnce(env, s, r) == Progress(Finished, s)
  {
  }

  /**
   * Uninstallation finishes: with no finalizers but ours and rounds that are not held up, deletePolicies returns
   * success within one round more than there were policies.
   */
  lemma DeletePoliciesFinishes(env: Env, s: State, rounds: seq<Round>)
    requires AllOurs(s.items) && |rounds| > |s.items|
    requires forall i :: 0 <= i < |rounds| ==> Productive(env, Turns(env, s, rounds[..i]).state, rounds[i])
    ensures Turns(env, s, rounds).outcome == Finished
  {
    hide Productive, Turns, AllOurs;
    RoundsShrink(env, s, rounds);
  }

  /** Success means an empty listing, whatever happened before it. */
  lemma {:induction false} SuccessMeansNoPolicies(env: Env, s: State, rounds: seq<Round>)
    requires Turns(env, s, rounds).outcome == Finished
    ensures Turns(env, s, rounds).state.items == map[]
  {
    hide VisitAll;
    if rounds != [] {
      var front := rounds[..|rounds| - 1];
      if Turns(env, s, front).outcome != Running { SuccessMeansNoPolicies(env, s, front); }
    }
  }
}
