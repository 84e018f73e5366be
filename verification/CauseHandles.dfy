/**
 Handles that let one agent cite an action of another.  Each tenant has a store of its own, and
 what an agent has issued is taken back from all of them.
 */
module CauseHandles {
  import opened ActorDisk

  type Tenant = nat

  datatype Grant = Grant(grantee: Agent, action: Action)

  datatype Handle = Handle(issuer: Agent, issuedAt: nat)

  type Handles = map<Grant, Handle>

  /** What is left once the handles `issuer` gave out after `after` are gone. */
  function IssuedBefore(handles: Handles, issuer: Agent, after: int): Handles {
    map g | g in handles && !(handles[g].issuer == issuer && handles[g].issuedAt > after) :: handles[g]
  }

  /** The same in the stores of all tenants. */
  function AllBefore(stores: map<Tenant, Handles>, issuer: Agent, after: int): map<Tenant, Handles> {
    map t | t in stores :: IssuedBefore(stores[t], issuer, after)
  }

  class CauseHandleRegistry {
    var stores: map<Tenant, Handles>

    constructor ()
      ensures stores == map[]
    {
      stores := map[];
    }

    /** `get_or_create` and `mint`: a later handle for the same grant replaces the earlier one. */
    method Mint(tenant: Tenant, action: Action, grantee: Agent, issuer: Agent, issuedAt: nat)
      modifies this
      ensures Contains(tenant, grantee, action)
      ensures forall t, g, a :: Contains(t, g, a) <==>
                old(Contains(t, g, a)) || (t == tenant && g == grantee && a == action)
      ensures stores[tenant][Grant(grantee, action)] == Handle(issuer, issuedAt)
      ensures forall t, g, a :: Contains(t, g, a) && old(Contains(t, g, a))
                                && !(t == tenant && g == grantee && a == action) ==>
                stores[t][Grant(g, a)] == old(stores)[t][Grant(g, a)]
    {
      var store := if tenant in stores then stores[tenant] else map[];
      stores := stores[tenant := store[Grant(grantee, action) := Handle(issuer, issuedAt)]];
    }

    predicate Contains(tenant: Tenant, grantee: Agent, action: Action)
      reads this
    {
      tenant in stores && Grant(grantee, action) in stores[tenant]
    }

    /** `revoke_issued_after_all`, and with a time before all others `revoke_issued_by_all`. */
    method RevokeIssued(issuer: Agent, after: int)
      modifies this
      ensures stores == AllBefore(old(stores), issuer, after)
      ensures forall t, g, a :: Contains(t, g, a) <==>
                old(Contains(t, g, a)) && (old(stores)[t][Grant(g, a)].issuer != issuer
                                           || old(stores)[t][Grant(g, a)].issuedAt <= after)
      ensures forall t, g, a :: Contains(t, g, a) ==> stores[t][Grant(g, a)] == old(stores)[t][Grant(g, a)]
    {
      var todo := stores.Keys;
      while todo != {}
        invariant todo <= stores.Keys == old(stores.Keys)
        invariant forall t :: t in stores ==>
          stores[t] == if t in todo then old(stores)[t] else IssuedBefore(old(stores)[t], issuer, after)
      {
        var t :| t in todo;
        stores := stores[t := IssuedBefore(stores[t], issuer, after)];
        todo := todo - {t};
      }
    }
  }
}
