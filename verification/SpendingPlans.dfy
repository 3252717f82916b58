/**
 Reconciliation of the pre-configured HBAR spending plans: three repositories are driven from any
 state to the configured one. Addresses are taken as already normalized (trimmed, lower case).
 */
module SpendingPlans {
  import opened Prelude

  type PlanId = string
  type Address = string
  type Links = map<Address, PlanId>

  datatype Tier = BASIC | EXTENDED | PRIVILEGED

  datatype Plan = Plan(tier: Tier, active: bool)

  /** One entry of the configuration; a missing address list is an empty one. */
  datatype PlanConfig = PlanConfig(id: PlanId, tier: Tier, evm: seq<Address>, ip: seq<Address>)

  datatype Repos = Repos(plans: map<PlanId, Plan>, evm: Links, ip: Links)

  /** The first entry of the configuration that lists no address at all. */
  ghost predicate FirstInvalid(cfgs: seq<PlanConfig>, i: int) {
    && 0 <= i < |cfgs| && cfgs[i].evm == [] && cfgs[i].ip == []
    && forall j :: 0 <= j < i ==> cfgs[j].evm != [] || cfgs[j].ip != []
  }

  predicate IsValid(c: PlanConfig) {
    |c.evm| > 0 || |c.ip| > 0
  }

  // ---------- what each stage makes of the repositories ----------

  function Existing(plans: map<PlanId, Plan>): set<PlanId> {
    set id | id in plans && plans[id].tier != BASIC && plans[id].active
  }

  function ConfigIds(cfgs: seq<PlanConfig>): set<PlanId> {
    set c | c in cfgs :: c.id
  }

  function Unlink(links: Links, gone: set<PlanId>): Links {
    map a | a in links && links[a] !in gone :: links[a]
  }

  function NewConfigs(cfgs: seq<PlanConfig>, existing: set<PlanId>): seq<PlanConfig> {
    if cfgs == [] then []
    else
      var c := cfgs[|cfgs| - 1];
      NewConfigs(cfgs[..|cfgs| - 1], existing) + (if c.id in existing then [] else [c])
  }

  function Created(plans: map<PlanId, Plan>, cfgs: seq<PlanConfig>): map<PlanId, Plan> {
    if cfgs == [] then plans
    else
      var c := cfgs[|cfgs| - 1];
      Created(plans, cfgs[..|cfgs| - 1])[c.id := Plan(c.tier, true)]
  }

  function LinksTo(addresses: seq<Address>, id: PlanId): Links {
    map a | a in addresses :: id
  }

  /** After one plan's turn its addresses are its own and it has no others. */
  function Associated(links: Links, addresses: seq<Address>, id: PlanId): Links {
    (map a | a in links && links[a] != id :: links[a]) + LinksTo(addresses, id)
  }

  function Addresses(c: PlanConfig, evm: bool): seq<Address> {
    if evm then c.evm else c.ip
  }

  function AssociateAll(links: Links, cfgs: seq<PlanConfig>, evm: bool): Links {
    if cfgs == [] then links
    else
      var c := cfgs[|cfgs| - 1];
      Associated(AssociateAll(links, cfgs[..|cfgs| - 1], evm), Addresses(c, evm), c.id)
  }

  function Reconciled(r: Repos, cfgs: seq<PlanConfig>): Repos {
    var existing := Existing(r.plans);
    var obsolete := existing - ConfigIds(cfgs);
    Repos(
      Created(r.plans - obsolete, NewConfigs(cfgs, existing)),
      AssociateAll(Unlink(r.evm, obsolete), cfgs, true),
      AssociateAll(Unlink(r.ip, obsolete), cfgs, false))
  }

  /** The number the service reports: plans deleted plus plans added. */
  function Changes(r: Repos, cfgs: seq<PlanConfig>): nat {
    |Existing(r.plans) - ConfigIds(cfgs)| + |NewConfigs(cfgs, Existing(r.plans))|
  }

  // ---------- the service ----------

  /** The EVM and the IP address repositories differ only in their key prefix. */
  class AddressRepository {
    var links: Links

    method DeleteAllByPlanId(id: PlanId)
      modifies this
      ensures links == Unlink(old(links), {id})
      ensures forall a :: a in links <==> a in old(links) && old(links)[a] != id
      ensures forall a :: a in links ==> links[a] == old(links)[a]
    {
      var keys := links.Keys;
      while keys != {}
        invariant keys <= old(links).Keys
        invariant links == map a | a in old(links) && (a in keys || old(links)[a] != id) :: old(links)[a]
        decreases |keys|
      {
        var key :| key in keys;
        if links[key] == id {
          links := links - {key};
        }
        keys := keys - {key};
      }
    }

    function FindAllByPlanId(id: PlanId): set<Address>
      reads this
    {
      set a | a in links && links[a] == id
    }
  }

  class ConfigService {
    var plans: map<PlanId, Plan>
    const evm: AddressRepository
    const ip: AddressRepository

    ghost function View(): Repos
      reads this, evm, ip
    {
      Repos(plans, evm.links, ip.links)
    }

    constructor (plans: map<PlanId, Plan>, evm: AddressRepository, ip: AddressRepository)
      ensures this.plans == plans && this.evm == evm && this.ip == ip
    {
      this.plans, this.evm, this.ip := plans, evm, ip;
    }

    /** `populatePreconfiguredSpendingPlans` for the loaded configuration. */
    method Populate(cfgs: seq<PlanConfig>) returns (r: Result<nat, PlanConfig>)
      requires evm != ip
      modifies this, evm, ip
      ensures r.Err? ==> View() == old(View()) && exists i :: FirstInvalid(cfgs, i) && r.error == cfgs[i]
      ensures r.Ok? ==> forall c <- cfgs :: c.evm != [] || c.ip != []
      ensures r.Ok? && cfgs == [] ==> r.value == 0 && View() == old(View())
      ensures r.Ok? && cfgs != [] ==> r.value == Changes(old(View()), cfgs) && View() == Reconciled(old(View()), cfgs)
    {
      if cfgs == [] {
        return Ok(0);
      }
      for i := 0 to |cfgs|
        invariant forall j :: 0 <= j < i ==> IsValid(cfgs[j])
        invariant View() == old(View())
      {
        if !IsValid(cfgs[i]) {
          assert FirstInvalid(cfgs, i);
          return Err(cfgs[i]);
        }
      }
      var existing := Existing(plans);
      var deleted := DeleteObsoletePlans(existing, cfgs);
      var added := AddNewPlans(cfgs, existing);
      UpdatePlanAssociations(cfgs);
      r := Ok(deleted + added);
    }

    method DeleteObsoletePlans(existing: set<PlanId>, cfgs: seq<PlanConfig>) returns (deleted: nat)
      requires evm != ip
      modifies this, evm, ip
      ensures deleted == |existing - ConfigIds(cfgs)|
      ensures forall id :: id in plans <==> id in old(plans) && (id !in existing || exists c <- cfgs :: c.id == id)
      ensures View() == Repos(old(plans) - (existing - ConfigIds(cfgs)),
                              Unlink(old(evm.links), existing - ConfigIds(cfgs)),
                              Unlink(old(ip.links), existing - ConfigIds(cfgs)))
    {
      var toDelete := existing - ConfigIds(cfgs);
      deleted := |toDelete|;
      var todo, done: set<PlanId> := toDelete, {};
      UnlinkNone(evm.links);
      UnlinkNone(ip.links);
      assert plans - {} == plans;
      while todo != {}
        invariant done + todo == toDelete
        invariant View() == Repos(old(plans) - done, Unlink(old(evm.links), done), Unlink(old(ip.links), done))
        decreases |todo|
      {
        var id :| id in todo;
        UnlinkMore(old(evm.links), done, id);
        UnlinkMore(old(ip.links), done, id);
        plans := plans - {id};
        assert old(plans) - done - {id} == old(plans) - (done + {id});
        evm.DeleteAllByPlanId(id);
        ip.DeleteAllByPlanId(id);
        todo, done := todo - {id}, done + {id};
      }
      assert done == toDelete;
    }

    method AddNewPlans(cfgs: seq<PlanConfig>, existing: set<PlanId>) returns (added: nat)
      modifies this
      ensures added == |NewConfigs(cfgs, existing)|
      ensures plans == Created(old(plans), NewConfigs(cfgs, existing))
    {
      var toAdd := NewConfigs(cfgs, existing);
      assert toAdd[..0] == [];
      for i := 0 to |toAdd|
        invariant plans == Created(old(plans), toAdd[..i])
      {
        assert toAdd[..i + 1][..i] == toAdd[..i];
        plans := plans[toAdd[i].id := Plan(toAdd[i].tier, true)];
      }
      assert toAdd[..|toAdd|] == toAdd;
      added := |toAdd|;
    }

    method UpdatePlanAssociations(cfgs: seq<PlanConfig>)
      requires evm != ip
      modifies evm, ip
      ensures evm.links == AssociateAll(old(evm.links), cfgs, true)
      ensures ip.links == AssociateAll(old(ip.links), cfgs, false)
    {
      assert cfgs[..0] == [];
      for i := 0 to |cfgs|
        invariant evm.links == AssociateAll(old(evm.links), cfgs[..i], true)
        invariant ip.links == AssociateAll(old(ip.links), cfgs[..i], false)
      {
        assert cfgs[..i + 1][..i] == cfgs[..i];
        ghost var e, p := evm.links, ip.links;
        ClearedIsOverwritten(e, cfgs[i].evm, cfgs[i].id);
        ClearedIsOverwritten(p, cfgs[i].ip, cfgs[i].id);
        DeleteObsoleteAssociations(evm, cfgs[i].evm, cfgs[i].id);
        DeleteObsoleteAssociations(ip, cfgs[i].ip, cfgs[i].id);
        UpdateAssociations(evm, cfgs[i].evm, cfgs[i].id);
        UpdateAssociations(ip, cfgs[i].ip, cfgs[i].id);
      }
      assert cfgs[..|cfgs|] == cfgs;
    }

    /** Addresses listed for this plan but linked to another lose that link. */
    static method DeleteObsoleteAssociations(repo: AddressRepository, addresses: seq<Address>, id: PlanId)
      modifies repo
      ensures repo.links == Cleared(old(repo.links), addresses, id)
      ensures forall a :: a in repo.links <==> a in old(repo.links) && (a !in addresses || old(repo.links)[a] == id)
      ensures forall a :: a in repo.links ==> repo.links[a] == old(repo.links)[a]
    {
      assert Cleared(repo.links, addresses[..0], id) == repo.links;
      for i := 0 to |addresses|
        invariant repo.links == Cleared(old(repo.links), addresses[..i], id)
      {
        var address := addresses[i];
        ClearMore(old(repo.links), addresses, i, id);
        if address in repo.links && repo.links[address] != id {
          repo.links := repo.links - {address};
        }
      }
      assert addresses[..|addresses|] == addresses;
    }

    /** The plan's links are made equal to its list; deletions and additions touch distinct keys. */
    static method UpdateAssociations(repo: AddressRepository, addresses: seq<Address>, id: PlanId)
      modifies repo
      ensures repo.links == Associated(old(repo.links), addresses, id)
      ensures forall a :: a in repo.links <==> a in addresses || (a in old(repo.links) && old(repo.links)[a] != id)
      ensures forall a :: a in repo.links ==> repo.links[a] == if a in addresses then id else old(repo.links)[a]
    {
      var current := repo.FindAllByPlanId(id);
      var toDelete := set a | a in current && a !in addresses;
      repo.links := repo.links - toDelete;
      ghost var kept := repo.links;
      assert kept + LinksTo(addresses[..0], id) == kept;
      for i := 0 to |addresses|
        invariant repo.links == kept + LinksTo(addresses[..i], id)
      {
        SaveMore(kept, addresses, i, id);
        if addresses[i] !in current {
          repo.links := repo.links[addresses[i] := id];
        }
      }
      assert addresses[..|addresses|] == addresses;
      PlanUpdated(old(repo.links), addresses, id);
    }
  }

  // ---------- facts the methods use ----------

  ghost function Cleared(links: Links, addresses: seq<Address>, id: PlanId): Links {
    map a | a in links && !(a in addresses && links[a] != id) :: links[a]
  }

  lemma {:induction false} ClearMore(links: Links, addresses: seq<Address>, i: nat, id: PlanId)
    requires i < |addresses|
    ensures var m, a := Cleared(links, addresses[..i], id), addresses[i];
      Cleared(links, addresses[..i + 1], id) == if a in m && m[a] != id then m - {a} else m
  {
    assert addresses[..i + 1] == addresses[..i] + [addresses[i]];
  }

  lemma {:induction false} SaveMore(kept: Links, addresses: seq<Address>, i: nat, id: PlanId)
    requires i < |addresses|
    ensures (kept + LinksTo(addresses[..i], id))[addresses[i] := id] == kept + LinksTo(addresses[..i + 1], id)
    ensures addresses[i] in kept && kept[addresses[i]] == id ==>
      kept + LinksTo(addresses[..i], id) == kept + LinksTo(addresses[..i + 1], id)
  {
    assert addresses[..i + 1] == addresses[..i] + [addresses[i]];
  }

  lemma {:induction false} PlanUpdated(links: Links, addresses: seq<Address>, id: PlanId)
    ensures links - (set a | a in links && links[a] == id && a !in addresses) + LinksTo(addresses, id)
         == Associated(links, addresses, id)
  {}

  lemma {:induction false} ClearedIsOverwritten(links: Links, addresses: seq<Address>, id: PlanId)
    ensures Associated(Cleared(links, addresses, id), addresses, id) == Associated(links, addresses, id)
  {}

  lemma {:induction false} UnlinkNone(links: Links)
    ensures Unlink(links, {}) == links
  {}

  lemma {:induction false} UnlinkMore(links: Links, gone: set<PlanId>, id: PlanId)
    ensures Unlink(Unlink(links, gone), {id}) == Unlink(links, gone + {id})
  {}
}
