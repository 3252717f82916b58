/** What reconciliation achieves, for every repository state. */
module Reconciliation {
  import opened Prelude
  import opened SpendingPlans

  ghost predicate DistinctConfigIds(cfgs: seq<PlanConfig>) {
    forall i, j :: 0 <= i < j < |cfgs| ==> cfgs[i].id != cfgs[j].id
  }

  /** The plan that lists the address last, if any does. */
  ghost function LastListing(cfgs: seq<PlanConfig>, a: Address, evm: bool): Option<PlanId> {
    if cfgs == [] then None
    else
      var c := cfgs[|cfgs| - 1];
      if a in Addresses(c, evm) then Some(c.id) else LastListing(cfgs[..|cfgs| - 1], a, evm)
  }

  /** What one address must be linked to after the whole configuration has been applied. */
  ghost predicate LinkedRight(before: Links, after: Links, cfgs: seq<PlanConfig>, a: Address, evm: bool) {
    match LastListing(cfgs, a, evm)
    case Some(id) => a in after && after[a] == id
    case None =>
      && (a in after <==> a in before && before[a] !in ConfigIds(cfgs))
      && (a in after ==> after[a] == before[a])
  }

  lemma {:induction false} SplitIds(cfgs: seq<PlanConfig>)
    requires cfgs != []
    ensures ConfigIds(cfgs) == ConfigIds(cfgs[..|cfgs| - 1]) + {cfgs[|cfgs| - 1].id}
    ensures DistinctConfigIds(cfgs) ==>
      cfgs[|cfgs| - 1].id !in ConfigIds(cfgs[..|cfgs| - 1]) && DistinctConfigIds(cfgs[..|cfgs| - 1])
  {
    var init, c := cfgs[..|cfgs| - 1], cfgs[|cfgs| - 1];
    assert cfgs == init + [c];
    forall id ensures id in ConfigIds(cfgs) <==> id in ConfigIds(init) + {c.id} {
      if id in ConfigIds(init) {
        var d :| d in init && d.id == id;
        assert d in cfgs;
      }
      assert c in cfgs;
    }
  }

  lemma {:induction false} LastIsConfigured(cfgs: seq<PlanConfig>, a: Address, evm: bool)
    requires LastListing(cfgs, a, evm).Some?
    ensures LastListing(cfgs, a, evm).value in ConfigIds(cfgs)
  {
    SplitIds(cfgs);
    if a !in Addresses(cfgs[|cfgs| - 1], evm) {
      LastIsConfigured(cfgs[..|cfgs| - 1], a, evm);
    }
  }

  /** Listed addresses go to the last plan listing them; configured plans keep no other address. */
  lemma {:induction false} AllAssociated(links: Links, cfgs: seq<PlanConfig>, a: Address, evm: bool)
    requires DistinctConfigIds(cfgs)
    ensures LinkedRight(links, AssociateAll(links, cfgs, evm), cfgs, a, evm)
  {
    if cfgs == [] {
      assert ConfigIds(cfgs) == {};
    } else {
      var init, c := cfgs[..|cfgs| - 1], cfgs[|cfgs| - 1];
      SplitIds(cfgs);
      AllAssociated(links, init, a, evm);
      if LastListing(init, a, evm).Some? {
        LastIsConfigured(init, a, evm);
      }
    }
  }

  // ---------- plans ----------

  lemma {:induction false} NewMembers(cfgs: seq<PlanConfig>, existing: set<PlanId>)
    ensures forall c :: c in NewConfigs(cfgs, existing) <==> c in cfgs && c.id !in existing
  {
    if cfgs != [] {
      NewMembers(cfgs[..|cfgs| - 1], existing);
      assert cfgs == cfgs[..|cfgs| - 1] + [cfgs[|cfgs| - 1]];
    }
  }

  lemma {:induction false} NewConfigIds(cfgs: seq<PlanConfig>, existing: set<PlanId>)
    ensures ConfigIds(NewConfigs(cfgs, existing)) == ConfigIds(cfgs) - existing
  {
    NewMembers(cfgs, existing);
    forall id | id in ConfigIds(cfgs) - existing ensures id in ConfigIds(NewConfigs(cfgs, existing)) {
      var c :| c in cfgs && c.id == id;
      assert c in NewConfigs(cfgs, existing);
    }
  }

  lemma {:induction false} OneMoreNew(ids: set<PlanId>, id: PlanId, existing: set<PlanId>)
    requires id !in ids
    ensures |ids + {id} - existing| == |ids - existing| + (if id in existing then 0 else 1)
  {
    var more := if id in existing then {} else {id};
    assert ids + {id} - existing == (ids - existing) + more;
  }

  lemma {:induction false} NewCount(cfgs: seq<PlanConfig>, existing: set<PlanId>)
    requires DistinctConfigIds(cfgs)
    ensures |NewConfigs(cfgs, existing)| == |ConfigIds(cfgs) - existing|
  {
    if cfgs != [] {
      SplitIds(cfgs);
      NewCount(cfgs[..|cfgs| - 1], existing);
      OneMoreNew(ConfigIds(cfgs[..|cfgs| - 1]), cfgs[|cfgs| - 1].id, existing);
    }
  }

  lemma {:induction false} CreatedKeys(plans: map<PlanId, Plan>, cfgs: seq<PlanConfig>)
    ensures Created(plans, cfgs).Keys == plans.Keys + ConfigIds(cfgs)
  {
    if cfgs != [] {
      SplitIds(cfgs);
      CreatedKeys(plans, cfgs[..|cfgs| - 1]);
    }
  }

  lemma {:induction false} CreatedElsewhere(plans: map<PlanId, Plan>, cfgs: seq<PlanConfig>, id: PlanId)
    requires id in plans && id !in ConfigIds(cfgs)
    ensures id in Created(plans, cfgs) && Created(plans, cfgs)[id] == plans[id]
  {
    if cfgs != [] {
      SplitIds(cfgs);
      CreatedElsewhere(plans, cfgs[..|cfgs| - 1], id);
    }
  }

  lemma {:induction false} CreatedOne(plans: map<PlanId, Plan>, cfgs: seq<PlanConfig>, c: PlanConfig)
    requires DistinctConfigIds(cfgs) && c in cfgs
    ensures c.id in Created(plans, cfgs) && Created(plans, cfgs)[c.id] == Plan(c.tier, true)
  {
    var init, last := cfgs[..|cfgs| - 1], cfgs[|cfgs| - 1];
    assert cfgs == init + [last];
    if c != last {
      SplitIds(cfgs);
      CreatedOne(plans, init, c);
      assert c.id in ConfigIds(init);
    }
  }

  /** Created plans are active and have the configured tier; the others are as they were. */
  lemma {:induction false} CreatedPlans(plans: map<PlanId, Plan>, cfgs: seq<PlanConfig>)
    requires DistinctConfigIds(cfgs)
    ensures Created(plans, cfgs).Keys == plans.Keys + ConfigIds(cfgs)
    ensures forall c <- cfgs :: Created(plans, cfgs)[c.id] == Plan(c.tier, true)
    ensures forall id :: id in plans && id !in ConfigIds(cfgs) ==> Created(plans, cfgs)[id] == plans[id]
  {
    CreatedKeys(plans, cfgs);
    forall c | c in cfgs ensures Created(plans, cfgs)[c.id] == Plan(c.tier, true) {
      CreatedOne(plans, cfgs, c);
    }
    forall id | id in plans && id !in ConfigIds(cfgs) ensures Created(plans, cfgs)[id] == plans[id] {
      CreatedElsewhere(plans, cfgs, id);
    }
  }

  lemma {:induction false} NewDistinct(cfgs: seq<PlanConfig>, existing: set<PlanId>)
    requires DistinctConfigIds(cfgs)
    ensures DistinctConfigIds(NewConfigs(cfgs, existing))
  {
    if cfgs != [] {
      var init, c := cfgs[..|cfgs| - 1], cfgs[|cfgs| - 1];
      assert forall i :: 0 <= i < |init| ==> init[i].id != c.id;
      NewDistinct(init, existing);
      NewMembers(init, existing);
      var new' := NewConfigs(init, existing);
      forall i | 0 <= i < |new'| ensures new'[i].id != c.id {
        assert new'[i] in init;
      }
    }
  }

  /** The plan repository afterwards, id by id. */
  ghost predicate PlansRight(before: map<PlanId, Plan>, after: map<PlanId, Plan>, cfgs: seq<PlanConfig>) {
    var existing := set id | id in before && before[id].tier != BASIC && before[id].active;
    && after.Keys == before.Keys - (existing - ConfigIds(cfgs)) + ConfigIds(cfgs)
    && (forall c <- cfgs :: c.id !in existing ==> after[c.id] == Plan(c.tier, true))
    && (forall id :: id in after && (id in existing || id !in ConfigIds(cfgs)) ==> after[id] == before[id])
  }

  lemma {:induction false} PlansReconciled(r: Repos, cfgs: seq<PlanConfig>)
    requires DistinctConfigIds(cfgs)
    ensures PlansRight(r.plans, Reconciled(r, cfgs).plans, cfgs)
  {
    var existing := Existing(r.plans);
    var obsolete := existing - ConfigIds(cfgs);
    NewMembers(cfgs, existing);
    NewConfigIds(cfgs, existing);
    NewDistinct(cfgs, existing);
    CreatedPlans(r.plans - obsolete, NewConfigs(cfgs, existing));
    assert (r.plans - obsolete).Keys == r.plans.Keys - obsolete;
  }

  ghost predicate NoBasic(cfgs: seq<PlanConfig>) {
    forall c <- cfgs :: c.tier != BASIC
  }

  /** The pre-configured plans afterwards: the configured ids, short of those configured as BASIC. */
  lemma {:induction false} ExistingAfter(r: Repos, cfgs: seq<PlanConfig>)
    requires DistinctConfigIds(cfgs)
    ensures forall id :: id in Existing(Reconciled(r, cfgs).plans) <==>
      id in ConfigIds(cfgs) && (id in Existing(r.plans) || exists c <- cfgs :: c.id == id && c.tier != BASIC)
  {
    PlansReconciled(r, cfgs);
    var after := Reconciled(r, cfgs).plans;
    forall id
      ensures id in Existing(after) <==>
        id in ConfigIds(cfgs) && (id in Existing(r.plans) || exists c <- cfgs :: c.id == id && c.tier != BASIC)
    {
      if id in ConfigIds(cfgs) && id !in Existing(r.plans) {
        var c :| c in cfgs && c.id == id;
        assert after[id] == Plan(c.tier, true);
        forall d | d in cfgs && d.id == id ensures d == c {
          SameConfig(cfgs, c, d);
        }
      }
    }
  }

  lemma {:induction false} SameConfig(cfgs: seq<PlanConfig>, c: PlanConfig, d: PlanConfig)
    requires DistinctConfigIds(cfgs) && c in cfgs && d in cfgs && c.id == d.id
    ensures c == d
  {
    var i :| 0 <= i < |cfgs| && cfgs[i] == c;
    var j :| 0 <= j < |cfgs| && cfgs[j] == d;
  }

  /** A plan the service takes for one of its own: active, and of another tier than BASIC. */
  ghost predicate PreConfigured(plans: map<PlanId, Plan>, id: PlanId) {
    id in plans && plans[id].tier != BASIC && plans[id].active
  }

  /** What one address is linked to afterwards, in terms of the state before the run. */
  ghost predicate AddressRight(r: Repos, before: Links, after: Links, cfgs: seq<PlanConfig>, a: Address, evm: bool) {
    match LastListing(cfgs, a, evm)
    case Some(id) => a in after && after[a] == id
    case None =>
      && (a in after <==> a in before && before[a] !in ConfigIds(cfgs) && !PreConfigured(r.plans, before[a]))
      && (a in after ==> after[a] == before[a])
  }

  lemma {:induction false} AddressReconciled(r: Repos, cfgs: seq<PlanConfig>, a: Address)
    requires DistinctConfigIds(cfgs)
    ensures AddressRight(r, r.evm, Reconciled(r, cfgs).evm, cfgs, a, true)
    ensures AddressRight(r, r.ip, Reconciled(r, cfgs).ip, cfgs, a, false)
  {
    var obsolete := Existing(r.plans) - ConfigIds(cfgs);
    AllAssociated(Unlink(r.evm, obsolete), cfgs, a, true);
    AllAssociated(Unlink(r.ip, obsolete), cfgs, a, false);
  }

  /**
   Reconciliation: with distinct ids and no BASIC tier the pre-configured plan ids become the
   configured ids; every listed address ends at the last plan listing it; every other address keeps
   its link unless that led to a configured or a deleted plan; and the number reported is the size of
   the symmetric difference of the ids.
   */
  lemma {:induction false} ReconciliationTheorem(r: Repos, cfgs: seq<PlanConfig>)
    requires DistinctConfigIds(cfgs) && NoBasic(cfgs)
    ensures forall id :: PreConfigured(Reconciled(r, cfgs).plans, id) <==> exists c <- cfgs :: c.id == id
    ensures forall a :: AddressRight(r, r.evm, Reconciled(r, cfgs).evm, cfgs, a, true)
    ensures forall a :: AddressRight(r, r.ip, Reconciled(r, cfgs).ip, cfgs, a, false)
    ensures var before, wanted := (set id | id in r.plans && PreConfigured(r.plans, id)), (set c | c in cfgs :: c.id);
      Changes(r, cfgs) == |(before - wanted) + (wanted - before)|
  {
    forall id ensures PreConfigured(Reconciled(r, cfgs).plans, id) <==> exists c <- cfgs :: c.id == id {
      IdsReconciled(r, cfgs, id);
    }
    forall a
      ensures AddressRight(r, r.evm, Reconciled(r, cfgs).evm, cfgs, a, true)
      ensures AddressRight(r, r.ip, Reconciled(r, cfgs).ip, cfgs, a, false)
    {
      AddressReconciled(r, cfgs, a);
    }
    ChangesCounted(r, cfgs);
  }

  lemma {:induction false} IdsReconciled(r: Repos, cfgs: seq<PlanConfig>, id: PlanId)
    requires DistinctConfigIds(cfgs) && NoBasic(cfgs)
    ensures PreConfigured(Reconciled(r, cfgs).plans, id) <==> exists c <- cfgs :: c.id == id
  {
    ExistingAfter(r, cfgs);
    assert PreConfigured(Reconciled(r, cfgs).plans, id) <==> id in Existing(Reconciled(r, cfgs).plans);
    if c :| c in cfgs && c.id == id {
      assert id in ConfigIds(cfgs) && c.tier != BASIC;
    }
  }

  lemma {:induction false} ChangesCounted(r: Repos, cfgs: seq<PlanConfig>)
    requires DistinctConfigIds(cfgs)
    ensures var before, wanted := (set id | id in r.plans && PreConfigured(r.plans, id)), (set c | c in cfgs :: c.id);
      Changes(r, cfgs) == |(before - wanted) + (wanted - before)|
  {
    var before, wanted := (set id | id in r.plans && PreConfigured(r.plans, id)), (set c | c in cfgs :: c.id);
    assert before == Existing(r.plans) && wanted == ConfigIds(cfgs);
    NewCount(cfgs, before);
    assert (before - wanted) !! (wanted - before);
  }

  // ---------- a second run ----------

  lemma {:induction false} LinksStable(before: Links, after: Links, again: Links, r: Repos, r': Repos,
                                       cfgs: seq<PlanConfig>, evm: bool)
    requires forall a :: AddressRight(r, before, after, cfgs, a, evm)
    requires forall a :: AddressRight(r', after, again, cfgs, a, evm)
    requires Existing(r'.plans) <= ConfigIds(cfgs)
    ensures again == after
  {
    forall a ensures a in again <==> a in after
      ensures a in after ==> again[a] == after[a]
    {
      assert AddressRight(r, before, after, cfgs, a, evm) && AddressRight(r', after, again, cfgs, a, evm);
    }
  }

  /** A second run leaves every repository alone, whatever the tiers are. */
  lemma {:induction false} SecondRunChangesNothing(r: Repos, cfgs: seq<PlanConfig>)
    requires DistinctConfigIds(cfgs)
    ensures Reconciled(Reconciled(r, cfgs), cfgs) == Reconciled(r, cfgs)
  {
    var once, twice := Reconciled(r, cfgs), Reconciled(Reconciled(r, cfgs), cfgs);
    forall a
      ensures AddressRight(r, r.evm, once.evm, cfgs, a, true) && AddressRight(once, once.evm, twice.evm, cfgs, a, true)
      ensures AddressRight(r, r.ip, once.ip, cfgs, a, false) && AddressRight(once, once.ip, twice.ip, cfgs, a, false)
    {
      AddressReconciled(r, cfgs, a);
      AddressReconciled(once, cfgs, a);
    }
    ExistingAfter(r, cfgs);
    assert Existing(once.plans) <= ConfigIds(cfgs);
    LinksStable(r.evm, once.evm, twice.evm, r, once, cfgs, true);
    LinksStable(r.ip, once.ip, twice.ip, r, once, cfgs, false);
    PlansStable(r, cfgs);
  }

  lemma {:induction false} PlansStable(r: Repos, cfgs: seq<PlanConfig>)
    requires DistinctConfigIds(cfgs)
    ensures Reconciled(Reconciled(r, cfgs), cfgs).plans == Reconciled(r, cfgs).plans
  {
    var once, twice := Reconciled(r, cfgs).plans, Reconciled(Reconciled(r, cfgs), cfgs).plans;
    PlansReconciled(r, cfgs);
    PlansReconciled(Reconciled(r, cfgs), cfgs);
    ExistingAfter(r, cfgs);
    assert once.Keys == twice.Keys;
    forall id | id in once ensures twice[id] == once[id] {
      if id in ConfigIds(cfgs) && id !in Existing(once) {
        var c :| c in cfgs && c.id == id;
        assert twice[id] == Plan(c.tier, true) && once[id] == Plan(c.tier, true);
      }
    }
  }

  /** It reports 0 exactly when no configured plan is still left to add, that is, none is BASIC. */
  lemma {:induction false} SecondRunReportsZeroIff(r: Repos, cfgs: seq<PlanConfig>)
    requires DistinctConfigIds(cfgs)
    ensures Changes(Reconciled(r, cfgs), cfgs) == 0 <==> forall c <- cfgs :: c.tier != BASIC || PreConfigured(r.plans, c.id)
  {
    var existing := Existing(Reconciled(r, cfgs).plans);
    ExistingAfter(r, cfgs);
    NewCount(cfgs, existing);
    assert existing - ConfigIds(cfgs) == {};
    if forall c <- cfgs :: c.tier != BASIC || c.id in Existing(r.plans) {
      assert ConfigIds(cfgs) - existing == {};
    } else {
      var c :| c in cfgs && c.tier == BASIC && c.id !in Existing(r.plans);
      forall d | d in cfgs && d.id == c.id ensures d == c {
        SameConfig(cfgs, c, d);
      }
      assert c.id in ConfigIds(cfgs) - existing;
    }
  }
}
