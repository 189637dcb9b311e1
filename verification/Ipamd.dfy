/** The pool manager: shrinking to the warm-IP target, growing, and reconciling with the instance metadata. */
module Ipamd {
  import opened Types
  import opened AddressStore
  import opened DataStores
  import opened PoolPolicy
  import opened Daemon
  import opened Shrinking
  import opened Reconciling

  /** Addresses that were given back recently and must not be taken from stale metadata. */
  class ReconcileCooldownCache {
    var cache: map<IP, Time>

    constructor ()
      ensures cache == map[]
    {
      cache := map[];
    }

    method Add(ips: seq<IP>, now: Time)
      modifies this
      ensures cache == CacheAdd(old(cache), ips, now + IP_RECONCILE_COOLDOWN)
    {
      var expiry := now + IP_RECONCILE_COOLDOWN;
      ghost var before := cache;
      assert CacheAdd(before, ips[..0], expiry) == before;
      for i := 0 to |ips|
        invariant cache == CacheAdd(before, ips[..i], expiry)
      {
        assert ips[..i + 1] == ips[..i] + [ips[i]];
        cache := cache[ips[i] := expiry];
      }
      assert ips[..|ips|] == ips;
    }

    method Remove(ip: IP)
      modifies this
      ensures cache == old(cache) - {ip}
    {
      cache := cache - {ip};
    }

    method RecentlyFreed(ip: IP, now: Time) returns (found: bool, recentlyFreed: bool)
      ensures found <==> ip in cache
      ensures recentlyFreed <==> ip in cache && now < cache[ip]
    {
      if ip in cache {
        return true, now - cache[ip] < 0;
      }
      return false, false;
    }
  }

  /** Some `n` elements of a set, in no particular order. */
  method SomeOf(available: set<IP>, n: nat) returns (ips: seq<IP>)
    requires n <= |available|
    ensures SeqSet(ips) <= available && |ips| == |SeqSet(ips)| == n
    ensures n == |available| ==> SeqSet(ips) == available
  {
    var rest := available;
    ips := [];
    while |ips| < n
      invariant rest <= available && SeqSet(ips) == available - rest
      invariant |ips| == |SeqSet(ips)| <= n && |rest| == |available| - |ips|
    {
      var ip :| ip in rest;
      rest := rest - {ip};
      assert SeqSet(ips + [ip]) == SeqSet(ips) + {ip};
      ips := ips + [ip];
    }
    if n == |available| {
      assert rest == {};
    }
  }

  class IPAMContext {
    const dataStore: DataStore
    const reconcileCooldownCache: ReconcileCooldownCache
    const config: PoolConfig
    const useCustomNetworking: bool
    const primaryENI: EniId
    var primaryIP: map<EniId, IP>
    var lastNodeIPPoolAction: Time

    constructor (config: PoolConfig, useCustomNetworking: bool, primaryENI: EniId)
      ensures this.config == config && primaryIP == map[]
      ensures fresh(dataStore) && dataStore.Valid() && dataStore.State() == EMPTY_STORE
      ensures fresh(reconcileCooldownCache) && reconcileCooldownCache.cache == map[]
    {
      this.config, this.useCustomNetworking, this.primaryENI := config, useCustomNetworking, primaryENI;
      dataStore := new DataStore();
      reconcileCooldownCache := new ReconcileCooldownCache();
      primaryIP, lastNodeIPPoolAction := map[], ZERO_TIME;
    }

    // ----- Shrinking -----

    /** Addresses of the ENI that no listed pod uses, as many as the pool is over its target. */
    method FindFreeableIPs(eni: EniId) returns (ok: bool, ips: seq<IP>)
      requires dataStore.Valid()
      ensures ok <==> eni in dataStore.eniIPPools
      ensures ok ==> FreeableOn(dataStore.State(), eni, IPTargetState(config, dataStore.State()).1, ips)
    {
      var infos := dataStore.GetPodInfos();
      var usedIPs := set n | n in infos :: infos[n].ip;
      if eni !in dataStore.eniIPPools {
        return false, [];
      }
      var availableIPs := dataStore.eniIPPools[eni].addresses.Keys - usedIPs;
      var (_, over, _) := IPTargetState(config, dataStore.State());
      var numFreeable := Min(over, |availableIPs|);
      ips := SomeOf(availableIPs, numFreeable);
      ok := true;
      FreeableChosen(dataStore.State(), eni, infos, usedIPs, over, ips);
    }

    /** One deletion in the course of a pass that started from `s` and has tried `done` so far. */
    method DeleteOne(eni: EniId, ip: IP, deleted: seq<IP>, ghost s: Store, ghost done: seq<IP>) returns (deleted': seq<IP>)
      requires dataStore.Valid() && eni in s.pools && dataStore.State() == ReducePool(s, eni, SeqSet(deleted))
      requires forall i :: i in deleted <==> i in done && FreeAt(s, eni, i)
      modifies dataStore
      ensures dataStore.Valid() && dataStore.State() == ReducePool(s, eni, SeqSet(deleted'))
      ensures forall i :: i in deleted' <==> i in done + [ip] && FreeAt(s, eni, i)
    {
      DeleteNextIP(s, eni, done, deleted, ip);
      var err := dataStore.DelIPv4AddressFromStore(eni, ip);
      return if err == Success then deleted + [ip] else deleted;
    }

    /** Delete what can be deleted; an address that has become assigned meanwhile is refused by the store. */
    method DeleteIPs(eni: EniId, ips: seq<IP>) returns (deleted: seq<IP>)
      requires dataStore.Valid() && eni in dataStore.eniIPPools
      modifies dataStore
      ensures dataStore.Valid()
      ensures dataStore.State() == ReducePool(old(dataStore.State()), eni, SeqSet(deleted))
      ensures forall ip :: ip in deleted <==> ip in ips && FreeAt(old(dataStore.State()), eni, ip)
    {
      ghost var s := dataStore.State();
      deleted := [];
      ReduceByNothing(s, eni);
      assert SeqSet(deleted) == {};
      for i := 0 to |ips|
        invariant dataStore.Valid() && dataStore.State() == ReducePool(s, eni, SeqSet(deleted))
        invariant forall ip :: ip in deleted <==> ip in ips[..i] && FreeAt(s, eni, ip)
      {
        assert ips[..i + 1] == ips[..i] + [ips[i]];
        deleted := DeleteOne(eni, ips[i], deleted, s, ips[..i]);
      }
      assert ips[..|ips|] == ips;
    }

    /** Free what one ENI can contribute towards the target. `ok` is false when the store does not know the ENI. */
    method ShrinkENI(eni: EniId, now: Time) returns (ok: bool, deleted: seq<IP>)
      requires dataStore.Valid()
      modifies dataStore, reconcileCooldownCache
      ensures dataStore.Valid() && ok == (eni in old(dataStore.eniIPPools))
      ensures if ok then Shrunk(config, old(dataStore.State()), dataStore.State(), eni, deleted)
              else dataStore.State() == old(dataStore.State()) && deleted == []
      ensures reconcileCooldownCache.cache ==
              CacheAdd(old(reconcileCooldownCache.cache), deleted, now + IP_RECONCILE_COOLDOWN)
    {
      var found, ips := FindFreeableIPs(eni);
      ok, deleted := found, [];
      assert CacheAdd(reconcileCooldownCache.cache, deleted, now + IP_RECONCILE_COOLDOWN) == reconcileCooldownCache.cache;
      if !found {
        return;
      }
      if |ips| == 0 {
        ReduceByNothing(dataStore.State(), eni);
        assert SeqSet(deleted) == {};
        return;
      }
      deleted := DeleteIPs(eni, ips);
      reconcileCooldownCache.Add(deleted, now);
    }

    /**
     * Give back what the pool has over its warm-IP target, ENI by ENI in any order. Nothing but free addresses goes,
     * all of it is recorded in the cooldown cache, and the target is never undershot; with distinct pod names it is
     * met exactly.
     */
    method TryUnassignIPsFromAll(now: Time)
      requires dataStore.Valid() && config.warmIPTarget >= 0
      modifies dataStore, reconcileCooldownCache
      ensures dataStore.Valid()
      ensures OnlyFreeGone(old(dataStore.State()), dataStore.State())
      ensures GoneAreCached(old(dataStore.State()), dataStore.State(), old(reconcileCooldownCache.cache),
                            reconcileCooldownCache.cache, now + IP_RECONCILE_COOLDOWN)
      ensures !NodeIPPoolTooHigh(config, old(dataStore.State())) ==>
                dataStore.State() == old(dataStore.State()) && reconcileCooldownCache.cache == old(reconcileCooldownCache.cache)
      ensures NodeIPPoolTooHigh(config, old(dataStore.State())) ==> Available(dataStore.State()) >= config.warmIPTarget
      ensures NodeIPPoolTooHigh(config, old(dataStore.State())) ==>
                (Sound(old(dataStore.State())) && DistinctNames(old(dataStore.podsIP)) ==>
                   Available(dataStore.State()) == config.warmIPTarget)
    {
      var (_, over, enabled) := IPTargetState(config, dataStore.State());
      if enabled && over > 0 {
        ghost var s0, c0 := dataStore.State(), reconcileCooldownCache.cache;
        var enis := dataStore.eniIPPools.Keys;
        while enis != {}
          invariant dataStore.Valid() && Progress(config, s0, dataStore.State(), enis)
          invariant GoneAreCached(s0, dataStore.State(), c0, reconcileCooldownCache.cache, now + IP_RECONCILE_COOLDOWN)
        {
          var e :| e in enis;
          ghost var s, c := dataStore.State(), reconcileCooldownCache.cache;
          var ok, deleted := ShrinkENI(e, now);
          assert ok;
          ProgressStep(config, s0, s, enis, e, dataStore.State(), deleted);
          ShrunkIsFree(config, s, dataStore.State(), e, deleted);
          assert forall ip | ip in deleted :: ip in SeqSet(deleted);
          ReduceCached(s, e, deleted, c, now + IP_RECONCILE_COOLDOWN);
          CachedTransitive(s0, s, dataStore.State(), c0, c, reconcileCooldownCache.cache, now + IP_RECONCILE_COOLDOWN);
          enis := enis - {e};
        }
        if Sound(s0) && DistinctNames(s0.pods) {
          ProgressDone(config, s0, dataStore.State());
        }
      }
    }

    // ----- Growing and setting up ENIs -----

    /** The addresses of an ENI and its primary one, or nothing when EC2 cannot describe it properly. */
    method GetENIaddresses(eni: EniId, ec2: map<EniId, seq<Ec2Address>>) returns (r: Option<(seq<Ec2Address>, IP)>)
      ensures r.Some? <==> Described(ec2, eni)
      ensures r.Some? ==> r.value.0 == ec2[eni]
                          && exists i :: 0 <= i < |ec2[eni]| && ec2[eni][i] == Ec2Address(r.value.1, true)
    {
      if eni !in ec2 {
        return None;
      }
      var addrs := ec2[eni];
      for i := 0 to |addrs|
        invariant forall j | 0 <= j < i :: !addrs[j].primary
      {
        if addrs[i].primary {
          return Some((addrs, addrs[i].ip));
        }
      }
      return None;
    }

    /** One addition in the course of a pass that started from `s` and has brought in `ips` so far. */
    method AddToPass(eni: EniId, ip: IP, ghost s: Store, ghost ips: set<IP>) returns (duplicate: bool)
      requires dataStore.Valid() && eni in s.pools && dataStore.State() == ExtendPool(s, eni, ips)
      modifies dataStore
      ensures dataStore.Valid() && dataStore.State() == ExtendPool(s, eni, ips + {ip})
      ensures duplicate <==> ip in s.pools[eni].addresses || ip in ips
    {
      ExtendByOne(s, eni, ips, ip);
      var err := dataStore.AddIPv4AddressFromStore(eni, ip);
      return err == DuplicateIP;
    }

    /** Add all secondary addresses that are not known yet; the primary one is handed back instead. */
    method AddENIaddressesToDataStore(addrs: seq<Ec2Address>, eni: EniId) returns (primary: IP)
      requires dataStore.Valid() && eni in dataStore.eniIPPools
      modifies dataStore
      ensures dataStore.Valid()
      ensures dataStore.State() == ExtendPool(old(dataStore.State()), eni, Secondaries(addrs))
      ensures primary == LastPrimary(addrs)
    {
      ghost var s: Store, ips: set<IP> := dataStore.State(), {};
      primary := "";
      ExtendByNothing(s, eni);
      for i := 0 to |addrs|
        invariant dataStore.Valid() && dataStore.State() == ExtendPool(s, eni, ips) && ips == Secondaries(addrs[..i])
        invariant primary == LastPrimary(addrs[..i])
      {
        SecondariesNext(addrs, i);
        if addrs[i].primary {
          primary := addrs[i].ip;
          continue;
        }
        var _ := AddToPass(eni, addrs[i].ip, s, ips);
        ips := ips + {addrs[i].ip};
      }
      assert addrs[..|addrs|] == addrs;
    }

    method SetupENI(meta: ENIMetadata, networkOk: bool, now: Time, ec2: map<EniId, seq<Ec2Address>>) returns (ok: bool)
      requires dataStore.Valid()
      modifies this`primaryIP, dataStore
      ensures dataStore.Valid()
      ensures dataStore.State() == SetUp(old(dataStore.State()), meta, meta.eni == primaryENI, networkOk, now, ec2)
      ensures ok <==> Described(ec2, meta.eni) && (meta.eni == primaryENI || networkOk)
      ensures primaryIP == if ok then old(primaryIP)[meta.eni := LastPrimary(ec2[meta.eni])] else old(primaryIP)
      ensures meta.eni !in old(dataStore.eniIPPools) && meta.eni in dataStore.eniIPPools ==>
                meta.eni in ec2 && Entered(dataStore.eniIPPools[meta.eni], meta, meta.eni == primaryENI, now, ec2[meta.eni], ok)
    {
      ghost var s := dataStore.State();
      if meta.eni !in s.pools {
        SetUpEnters(s, meta, meta.eni == primaryENI, networkOk, now, ec2);
      }
      var r := GetENIaddresses(meta.eni, ec2);
      if r.None? {
        return false;
      }
      var err := dataStore.AddENI(meta.eni, meta.deviceNumber, meta.eni == primaryENI, now);
      if meta.eni != primaryENI && !networkOk {
        return false;
      }
      var primary := AddENIaddressesToDataStore(r.value.0, meta.eni);
      primaryIP := primaryIP[meta.eni := primary];
      return true;
    }

    // ----- Reconciling -----

    /** May this address come in? Clears its cooldown entry when that has expired and EC2 confirms the address. */
    method CheckLocalIP(eni: EniId, ip: IP, now: Time, ec2: map<EniId, seq<Ec2Address>>) returns (admit: bool)
      modifies reconcileCooldownCache
      ensures admit <==> Admits(PrimaryOf(primaryIP, eni), old(reconcileCooldownCache.cache), now, ec2, eni, ip)
      ensures reconcileCooldownCache.cache ==
              if admit then old(reconcileCooldownCache.cache) - {ip} else old(reconcileCooldownCache.cache)
    {
      if ip == PrimaryOf(primaryIP, eni) {
        return false;
      }
      var found, recentlyFreed := reconcileCooldownCache.RecentlyFreed(ip, now);
      if found {
        if recentlyFreed {
          return false;
        }
        var r := GetENIaddresses(eni, ec2);
        if r.None? {
          return false;
        }
        var addrs := r.value.0;
        var attached := false;
        for i := 0 to |addrs|
          invariant !attached && forall j | 0 <= j < i :: addrs[j].ip != ip
        {
          if addrs[i].ip == ip {
            attached := true;
            break;
          }
        }
        if !attached {
          return false;
        }
        reconcileCooldownCache.Remove(ip);
      }
      return true;
    }

    /** One reported address: checked, and added if it may come in. */
    method MarkLocalIP(e: EniId, ip: IP, now: Time, ec2: map<EniId, seq<Ec2Address>>, ghost s: Store, ghost adm: set<IP>)
        returns (admit: bool, duplicate: bool)
      requires dataStore.Valid() && e in s.pools && dataStore.State() == ExtendPool(s, e, adm)
      modifies dataStore, reconcileCooldownCache
      ensures dataStore.Valid() && dataStore.State() == ExtendPool(s, e, if admit then adm + {ip} else adm)
      ensures admit <==> Admits(PrimaryOf(primaryIP, e), old(reconcileCooldownCache.cache), now, ec2, e, ip)
      ensures reconcileCooldownCache.cache ==
              if admit then old(reconcileCooldownCache.cache) - {ip} else old(reconcileCooldownCache.cache)
      ensures duplicate <==> admit && (ip in s.pools[e].addresses || ip in adm)
    {
      admit := CheckLocalIP(e, ip, now, ec2);
      duplicate := false;
      if admit {
        duplicate := AddToPass(e, ip, s, adm);
      }
    }

    /**
     * Reconcile one ENI at one instant. The new pool is exactly the reported addresses that are admitted together
     * with the known ones that are assigned.
     */
    method EniIPPoolReconcile(ipPool: set<IP>, meta: ENIMetadata, now: Time, ec2: map<EniId, seq<Ec2Address>>)
      requires dataStore.Valid() && meta.eni in dataStore.eniIPPools
      requires ipPool == dataStore.eniIPPools[meta.eni].addresses.Keys
      modifies dataStore, reconcileCooldownCache
      ensures dataStore.Valid()
      ensures var primary, cache := PrimaryOf(primaryIP, meta.eni), old(reconcileCooldownCache.cache);
              && dataStore.State() == ReconcilePool(old(dataStore.State()), meta.eni,
                                                    Admitted(primary, cache, now, ec2, meta.eni, meta.localIPv4s))
              && reconcileCooldownCache.cache == cache - Cleared(primary, cache, now, ec2, meta.eni, meta.localIPv4s)
    {
      var e, locals := meta.eni, meta.localIPv4s;
      ghost var s, cache, primary := dataStore.State(), reconcileCooldownCache.cache, PrimaryOf(primaryIP, e);
      var unmarked := ipPool;
      ghost var adm: set<IP> := {};
      ExtendByNothing(s, e);
      for i := 0 to |locals|
        invariant dataStore.Valid() && dataStore.State() == ExtendPool(s, e, adm)
        invariant adm == Admitted(primary, cache, now, ec2, e, locals[..i])
        invariant reconcileCooldownCache.cache == cache - Cleared(primary, cache, now, ec2, e, locals[..i])
        invariant unmarked == ipPool - adm
      {
        AdmittedNext(primary, cache, now, ec2, e, locals, i);
        var admit, duplicate := MarkLocalIP(e, locals[i], now, ec2, s, adm);
        if !admit {
          continue;
        }
        MinusOneMore(ipPool, adm, locals[i]);
        adm := adm + {locals[i]};
        if duplicate {
          unmarked := unmarked - {locals[i]};
        }
      }
      assert locals[..|locals|] == locals;
      Sweep(e, unmarked, s, adm);
    }

    method SweepOne(e: EniId, ip: IP, ghost s: Store, ghost admitted: set<IP>, ghost gone: set<IP>) returns (swept: bool)
      requires dataStore.Valid() && InPool(s, e, ip) && ip !in gone
      requires dataStore.State() == ReducePool(ExtendPool(s, e, admitted), e, gone)
      modifies dataStore
      ensures dataStore.Valid() && (swept <==> FreeAt(s, e, ip))
      ensures dataStore.State() == ReducePool(ExtendPool(s, e, admitted), e, if swept then gone + {ip} else gone)
    {
      SweepNext(s, e, admitted, gone, ip);
      var err := dataStore.DelIPv4AddressFromStore(e, ip);
      return err == Success;
    }

    /** Delete the addresses that were not marked; assigned ones are refused and stay. */
    method Sweep(e: EniId, unmarked: set<IP>, ghost s: Store, ghost admitted: set<IP>)
      requires dataStore.Valid() && e in s.pools && unmarked == s.pools[e].addresses.Keys - admitted
      requires dataStore.State() == ExtendPool(s, e, admitted)
      modifies dataStore
      ensures dataStore.Valid() && dataStore.State() == ReconcilePool(s, e, admitted)
    {
      var rest := unmarked;
      ghost var gone: set<IP> := {};
      ReduceByNothing(dataStore.State(), e);
      while rest != {}
        invariant dataStore.Valid() && dataStore.State() == ReducePool(ExtendPool(s, e, admitted), e, gone)
        invariant rest <= unmarked && FreeGone(s, e, unmarked - rest, gone)
      {
        var ip :| ip in rest;
        var swept := SweepOne(e, ip, s, admitted, gone);
        OneLess(unmarked, rest, ip);
        rest := rest - {ip};
        if swept {
          gone := gone + {ip};
        }
      }
      assert unmarked - rest == unmarked;
      SweepDone(s, e, admitted, unmarked, gone);
    }

    ghost function Current(): View
      reads this, dataStore, reconcileCooldownCache
    {
      View(dataStore.State(), reconcileCooldownCache.cache, primaryIP)
    }

    /** Bring one attached ENI up to date: reconcile it if the store knows it, set it up otherwise. */
    method MarkENI(meta: ENIMetadata, a: Answers) returns (known: bool)
      requires dataStore.Valid() && a.primaryENI == primaryENI
      modifies this`primaryIP, dataStore, reconcileCooldownCache
      ensures dataStore.Valid() && known == (meta.eni in old(dataStore.eniIPPools))
      ensures Current() == MarkOne(old(Current()), meta, a)
    {
      known := meta.eni in dataStore.eniIPPools;
      if known {
        EniIPPoolReconcile(dataStore.eniIPPools[meta.eni].addresses.Keys, meta, a.now, a.ec2);
      } else {
        var _ := SetupENI(meta, meta.eni in a.networkOk, a.now, a.ec2);
      }
    }

    /**
     * Mark and sweep over the ENIs: afterwards the store knows the attached ones it knew before or could get
     * described, and the detached ones that still carry pods. No assigned address is lost, and every attached ENI
     * holds exactly the addresses that the set equation for it alone asks for, when each is reported once.
     */
    method NodeIPPoolReconcile(interval: int, attached: Option<seq<ENIMetadata>>, a: Answers)
      requires dataStore.Valid() && a.primaryENI == primaryENI
      modifies this`primaryIP, this`lastNodeIPPoolAction, dataStore, reconcileCooldownCache
      ensures dataStore.Valid()
      ensures a.now - old(lastNodeIPPoolAction) <= interval || attached.None? ==>
                Current() == old(Current()) && lastNodeIPPoolAction == old(lastNodeIPPoolAction)
      ensures a.now - old(lastNodeIPPoolAction) > interval && attached.Some? ==>
                && lastNodeIPPoolAction == a.now
                && AssignedKept(old(dataStore.State()), dataStore.State())
                && dataStore.eniIPPools.Keys == ReconciledENIs(old(dataStore.State()), attached.value, a.ec2)
                && (ReportedOnce(attached.value) ==>
                      forall i | 0 <= i < |attached.value| ::
                        MarkedAs(old(Current()), dataStore.State(), attached.value[i], a))
    {
      if a.now - lastNodeIPPoolAction <= interval || attached.None? {
        return;
      }
      ghost var v := Current();
      var detached := MarkENIs(attached.value, a);
      ghost var t := dataStore.State();
      MarkAllMarked(v, attached.value, a);
      SweepENIs(v.store, detached);
      ReconciledKeys(v.store, attached.value, a.ec2, detached);
      AllMarked(v, attached.value, a, t, dataStore.State(), detached);
      lastNodeIPPoolAction := a.now;
    }

    /** The mark phase over all attached ENIs; what is left over is detached. */
    method MarkENIs(enis: seq<ENIMetadata>, a: Answers) returns (curENIs: set<EniId>)
      requires dataStore.Valid() && a.primaryENI == primaryENI
      modifies this`primaryIP, dataStore, reconcileCooldownCache
      ensures dataStore.Valid() && Current() == MarkAll(old(Current()), enis, a)
      ensures curENIs == old(dataStore.eniIPPools).Keys - AttachedIds(enis)
    {
      ghost var v := Current();
      curENIs := dataStore.eniIPPools.Keys;
      for i := 0 to |enis|
        invariant dataStore.Valid() && Current() == MarkAll(v, enis[..i], a)
        invariant curENIs == v.store.pools.Keys - AttachedIds(enis[..i])
      {
        MarkAllNext(v, enis, i, a);
        var known := MarkENI(enis[i], a);
        if known {
          curENIs := curENIs - {enis[i].eni};
        }
      }
      assert enis[..|enis|] == enis;
    }

    /** A detached ENI goes unless it still carries pods. */
    method SweepENI(e: EniId, ghost s0: Store, ghost t: Store, ghost done: set<EniId>, ghost detached: set<EniId>)
      requires dataStore.Valid() && e !in done && e in detached && e in s0.pools && s0.pools.Keys <= t.pools.Keys
      requires Swept(s0, t.pools.Keys, dataStore.State(), done) && Unswept(t, dataStore.State(), detached)
      modifies dataStore
      ensures dataStore.Valid()
      ensures Swept(s0, t.pools.Keys, dataStore.State(), done + {e}) && Unswept(t, dataStore.State(), detached)
    {
      SweptNext(s0, t, dataStore.State(), done, e, detached);
      var err := dataStore.RemoveENIFromDataStore(e);
    }

    method SweepENIs(ghost s0: Store, detached: set<EniId>)
      requires dataStore.Valid() && AssignedKept(s0, dataStore.State())
      requires detached <= s0.pools.Keys <= dataStore.eniIPPools.Keys
      modifies dataStore
      ensures dataStore.Valid() && Swept(s0, old(dataStore.eniIPPools).Keys, dataStore.State(), detached)
      ensures Unswept(old(dataStore.State()), dataStore.State(), detached)
    {
      ghost var t := dataStore.State();
      var rest := detached;
      assert detached - rest == {};
      while rest != {}
        invariant dataStore.Valid() && rest <= detached
        invariant Swept(s0, t.pools.Keys, dataStore.State(), detached - rest) && Unswept(t, dataStore.State(), detached)
      {
        var e :| e in rest;
        SweepENI(e, s0, t, detached - rest, detached);
        OneLess(detached, rest, e);
        rest := rest - {e};
      }
      assert detached - rest == detached;
    }

    // ----- Increasing the pool -----

    /** Fill up an ENI that has room. The result says whether EC2 was made to allocate anything. */
    method TryAssignIPs(a: GrowthAnswers) returns (increased: bool, ghost e: EniId)
      requires dataStore.Valid()
      modifies dataStore
      ensures dataStore.Valid() && (increased <==> CanFill(config, old(dataStore.State()), useCustomNetworking, a))
      ensures increased ==>
                HasRoom(config, old(dataStore.State()), useCustomNetworking, e)
                && dataStore.State() == Filled(old(dataStore.State()), e, a.ec2)
      ensures !increased ==> dataStore.State() == old(dataStore.State())
    {
      e := "";
      var (short, _, enabled) := IPTargetState(config, dataStore.State());
      if enabled && short == 0 {
        return false, e;
      }
      var found, eni := dataStore.GetENINeedsIP(config.maxIPsPerENI, useCustomNetworking);
      if !found {
        return false, e;
      }
      e := eni;
      assert HasRoom(config, dataStore.State(), useCustomNetworking, e);
      if !a.allocAll && !a.allocOne {
        return false, e;
      }
      var r := GetENIaddresses(eni, a.ec2);
      if r.Some? {
        var _ := AddENIaddressesToDataStore(r.value.0, eni);
      }
      return true, e;
    }

    method TryAllocateENI(a: GrowthAnswers, now: Time)
      requires dataStore.Valid()
      modifies this`primaryIP, dataStore
      ensures dataStore.Valid()
      ensures dataStore.State() == Allocated(old(dataStore.State()), primaryENI, useCustomNetworking, a, now)
      ensures primaryIP == RecordedAfter(old(primaryIP), primaryENI, useCustomNetworking, a)
    {
      if useCustomNetworking && !a.eniConfig {
        return;
      }
      if a.newENI.None? || a.attached.None? {
        return;
      }
      var _ := SetupENI(a.attached.value, a.networkOk, now, a.ec2);
    }

    /**
     * Add addresses to an ENI that has room, or failing that attach another one, never at or past the ENI limit. The
     * new store is exactly what EC2's answers make it.
     */
    method IncreaseIPPool(a: GrowthAnswers, now: Time) returns (ghost e: EniId)
      requires dataStore.Valid()
      modifies this`primaryIP, this`lastNodeIPPoolAction, dataStore
      ensures dataStore.Valid()
      ensures var s, s' := old(dataStore.State()), dataStore.State();
              if CanFill(config, s, useCustomNetworking, a) then HasRoom(config, s, useCustomNetworking, e) && s' == Filled(s, e, a.ec2)
              else if WantsMore(config, s) && |s.pools| < config.maxENI then
                s' == Allocated(s, primaryENI, useCustomNetworking, a, now)
              else s' == s
      ensures WithinLimit(config, a.ec2) ==> Increased(config, old(dataStore.State()), dataStore.State())
      ensures forall f | f in dataStore.eniIPPools && f !in old(dataStore.eniIPPools) ::
                && a.attached.Some? && a.attached.value.eni == f && f in a.ec2
                && Entered(dataStore.eniIPPools[f], a.attached.value, f == primaryENI, now, a.ec2[f], f == primaryENI || a.networkOk)
      ensures var s := old(dataStore.State());
              var fills := CanFill(config, s, useCustomNetworking, a);
              var allocates := !fills && WantsMore(config, s) && |s.pools| < config.maxENI;
              && lastNodeIPPoolAction == (if fills || allocates then now else old(lastNodeIPPoolAction))
              && primaryIP == if allocates then RecordedAfter(old(primaryIP), primaryENI, useCustomNetworking, a) else old(primaryIP)
    {
      ghost var s := dataStore.State();
      e := "";
      var (short, _, enabled) := IPTargetState(config, dataStore.State());
      if enabled && short == 0 {
        return;
      }
      var increased;
      increased, e := TryAssignIPs(a);
      if increased {
        lastNodeIPPoolAction := now;
        if WithinLimit(config, a.ec2) {
          FilledIsGrown(config, s, e, a.ec2);
        }
      } else if |dataStore.eniIPPools| < config.maxENI {
        TryAllocateENI(a, now);
        lastNodeIPPoolAction := now;
        forall f | f in dataStore.eniIPPools && f !in s.pools
          ensures a.attached.Some? && a.attached.value.eni == f && f in a.ec2
          ensures Entered(dataStore.eniIPPools[f], a.attached.value, f == primaryENI, now, a.ec2[f], f == primaryENI || a.networkOk)
        {
          OnlyAttachedComesIn(s, primaryENI, useCustomNetworking, a, now, f);
        }
        if WithinLimit(config, a.ec2) {
          AllocatedIsIncrease(config, s, primaryENI, useCustomNetworking, a, now);
        }
      }
    }
  }
}
