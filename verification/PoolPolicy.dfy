/** When the pool manager grows and shrinks the pool, and what whole passes over an ENI's addresses amount to. */
module PoolPolicy {
  import opened Types
  import opened AddressStore

  datatype PoolConfig = PoolConfig(maxIPsPerENI: int, maxENI: int, warmENITarget: int, warmIPTarget: int)

  const NO_WARM_IP_TARGET := 0

  function Max(x: int, y: int): int { if x < y then y else x }

  function Min(x: int, y: int): int { if y < x then y else x }

  /** How many addresses the pool is short of, or over, its warm-IP target, and whether there is one. */
  function IPTargetState(c: PoolConfig, s: Store): (int, int, bool) {
    if c.warmIPTarget == NO_WARM_IP_TARGET then (0, 0, false)
    else (Max(c.warmIPTarget - Available(s), 0), Max(Available(s) - c.warmIPTarget, 0), true)
  }

  predicate NodeIPPoolTooLow(c: PoolConfig, s: Store) {
    var (short, _, enabled) := IPTargetState(c, s);
    if enabled then short > 0
    else Available(s) < c.maxIPsPerENI * c.warmENITarget || (c.warmENITarget == 0 && Available(s) == 0)
  }

  predicate NodeIPPoolTooHigh(c: PoolConfig, s: Store) {
    var (_, over, enabled) := IPTargetState(c, s);
    enabled && over > 0
  }

  predicate ShouldRemoveExtraENIs(c: PoolConfig, s: Store) {
    var (_, _, enabled) := IPTargetState(c, s);
    enabled || Available(s) >= (c.warmENITarget + 1) * c.maxIPsPerENI
  }

  /** With a warm-IP target: too low below it, too high above it, and extra ENIs are always looked for. */
  lemma WarmIPThresholds(c: PoolConfig, s: Store)
    requires c.warmIPTarget != NO_WARM_IP_TARGET
    ensures NodeIPPoolTooLow(c, s) <==> Available(s) < c.warmIPTarget
    ensures NodeIPPoolTooHigh(c, s) <==> Available(s) > c.warmIPTarget
    ensures ShouldRemoveExtraENIs(c, s)
    ensures Available(s) >= c.warmIPTarget ==> IPTargetState(c, s).1 == Available(s) - c.warmIPTarget
  {
  }

  // ----- Whole passes over one ENI -----

  /** Add every address of `ips` that the ENI does not have yet. */
  function ExtendPool(s: Store, e: EniId, ips: set<IP>): Store
    requires e in s.pools
  {
    var p := s.pools[e];
    var grown := map ip | ip in p.addresses.Keys + ips ::
                   if ip in p.addresses then p.addresses[ip] else Address(ip, false, ZERO_TIME);
    s.(total := s.total + |grown| - |p.addresses|, pools := s.pools[e := p.(addresses := grown)])
  }

  /** Take the addresses of `ips` away from the ENI. */
  function ReducePool(s: Store, e: EniId, ips: set<IP>): Store
    requires e in s.pools
  {
    var p := s.pools[e];
    var reduced := p.addresses - ips;
    s.(total := s.total + |reduced| - |p.addresses|, pools := s.pools[e := p.(addresses := reduced)])
  }

  /**
   * The outcome of reconciling one ENI: exactly the admitted addresses and those already known that are assigned.
   * Entries that stay are untouched and the total moves by the difference in size.
   */
  function ReconcilePool(s: Store, e: EniId, admitted: set<IP>): Store
    requires e in s.pools
  {
    var p := s.pools[e];
    var kept := map ip | ip in admitted + AssignedIn(p) ::
                  if ip in p.addresses then p.addresses[ip] else Address(ip, false, ZERO_TIME);
    s.(total := s.total + |kept| - |p.addresses|, pools := s.pools[e := p.(addresses := kept)])
  }

  lemma ExtendByNothing(s: Store, e: EniId)
    requires e in s.pools
    ensures ExtendPool(s, e, {}) == s
  {
    assert ExtendPool(s, e, {}).pools[e].addresses == s.pools[e].addresses;
    assert ExtendPool(s, e, {}).pools == s.pools;
  }

  /** One more addition extends the pass, whether or not the address was there. */
  lemma ExtendByOne(s: Store, e: EniId, ips: set<IP>, ip: IP)
    requires e in s.pools
    ensures AddIP(ExtendPool(s, e, ips), e, ip).0 == ExtendPool(s, e, ips + {ip})
    ensures AddIP(ExtendPool(s, e, ips), e, ip).1 ==
            if ip in s.pools[e].addresses || ip in ips then DuplicateIP else Success
  {
    var t, t' := ExtendPool(s, e, ips), ExtendPool(s, e, ips + {ip});
    var a, a' := t.pools[e].addresses, t'.pools[e].addresses;
    if ip in a {
      assert a' == a;
      assert t'.pools == t.pools;
    } else {
      assert a' == a[ip := Address(ip, false, ZERO_TIME)];
      assert a'.Keys == a.Keys + {ip};
    }
  }

  lemma ReduceByNothing(s: Store, e: EniId)
    requires e in s.pools
    ensures ReducePool(s, e, {}) == s
  {
    assert ReducePool(s, e, {}).pools[e].addresses == s.pools[e].addresses;
    assert ReducePool(s, e, {}).pools == s.pools;
  }

  /** One more deletion reduces the pool by that address, unless it is assigned or gone. */
  lemma ReduceByOne(s: Store, e: EniId, ips: set<IP>, ip: IP)
    requires e in s.pools
    ensures var (s', st) := DelIP(ReducePool(s, e, ips), e, ip);
            && (st == Success <==> InPool(s, e, ip) && ip !in ips && !AssignedAt(s, e, ip))
            && s' == if st == Success then ReducePool(s, e, ips + {ip}) else ReducePool(s, e, ips)
  {
    var t, t' := ReducePool(s, e, ips), ReducePool(s, e, ips + {ip});
    var a, a' := t.pools[e].addresses, t'.pools[e].addresses;
    if ip in a && !a[ip].isAssigned {
      assert a' == a - {ip};
      assert a'.Keys == a.Keys - {ip};
      assert |a'.Keys| == |a.Keys| - 1;
    }
  }

  /** Marking by extension and sweeping the unmarked free addresses is reconciliation. */
  lemma MarkAndSweep(s: Store, e: EniId, admitted: set<IP>, swept: set<IP>)
    requires e in s.pools
    requires forall ip :: ip in swept <==> InPool(s, e, ip) && !AssignedAt(s, e, ip) && ip !in admitted
    ensures ReducePool(ExtendPool(s, e, admitted), e, swept) == ReconcilePool(s, e, admitted)
  {
    var l, r := ReducePool(ExtendPool(s, e, admitted), e, swept), ReconcilePool(s, e, admitted);
    var a, b := l.pools[e].addresses, r.pools[e].addresses;
    forall ip
      ensures ip in a <==> ip in b
    {
      assert ip in swept <==> InPool(s, e, ip) && !AssignedAt(s, e, ip) && ip !in admitted;
    }
    assert a == b;
    assert l.pools[e] == r.pools[e];
    assert l.pools == s.pools[e := l.pools[e]];
  }

  // ----- No thrashing with a warm-ENI target -----

  /** What one increase of the pool may do: nothing, or add up to one ENI's worth of addresses to one ENI. */
  ghost predicate Increased(c: PoolConfig, s: Store, s': Store) {
    s' == s || exists e, ips: set<IP> :: Grown(c, s, s', e, ips)
  }

  /** The addresses `ips` that EC2 reports for the ENI have come in; the ENI itself may be new. */
  ghost predicate Grown(c: PoolConfig, s: Store, s': Store, e: EniId, ips: set<IP>) {
    |ips| <= c.maxIPsPerENI
    && if e in s.pools then s' == ExtendPool(s, e, ips)
       else exists device, primary, now :: s' == ExtendPool(AddENI(s, e, device, primary, now).0, e, ips)
  }

  /** What the store knows of an ENI before the increase. */
  function KnownOn(s: Store, e: EniId): set<IP> {
    if e in s.pools then s.pools[e].addresses.Keys else {}
  }

  lemma ExtendGrowth(s: Store, e: EniId, ips: set<IP>)
    requires e in s.pools
    ensures Available(ExtendPool(s, e, ips)) == Available(s) + |ips - KnownOn(s, e)|
  {
    var a, b := s.pools[e].addresses, ExtendPool(s, e, ips).pools[e].addresses;
    assert b.Keys == a.Keys + (ips - a.Keys);
    assert |b.Keys| == |a.Keys| + |ips - a.Keys|;
  }

  /** An increase makes exactly the addresses available that were not known before. */
  lemma GrownBy(c: PoolConfig, s: Store, s': Store, e: EniId, ips: set<IP>)
    requires Grown(c, s, s', e, ips)
    ensures Available(s') == Available(s) + |ips - KnownOn(s, e)| <= Available(s) + c.maxIPsPerENI
  {
    var known := KnownOn(s, e);
    assert ips == (ips - known) + (ips * known);
    if e in s.pools {
      ExtendGrowth(s, e, ips);
    } else {
      var device, primary, now :| s' == ExtendPool(AddENI(s, e, device, primary, now).0, e, ips);
      ExtendGrowth(AddENI(s, e, device, primary, now).0, e, ips);
    }
  }

  lemma IncreaseGrowth(c: PoolConfig, s: Store, s': Store)
    requires c.maxIPsPerENI >= 0 && Increased(c, s, s')
    ensures Available(s) <= Available(s') <= Available(s) + c.maxIPsPerENI
  {
    if s' != s {
      var e, ips: set<IP> :| Grown(c, s, s', e, ips);
      GrownBy(c, s, s', e, ips);
    }
  }

  lemma SpareENI(available: int, size: int, target: int, max: int)
    requires available >= (target + 1) * max && 0 <= size <= max && target >= 0
    ensures available - size < max * target || (target == 0 && available - size == 0)
            <==> target == 0 && available == size
  {
    assert (target + 1) * max == max * target + max;
  }

  /**
   * Removing an ENI when the pool has a whole ENI to spare leaves it too low in one case only: no spare ENI is wanted
   * and the one that went carried all that was available.
   */
  lemma RemovalMakesTooLowIff(c: PoolConfig, s: Store, now: Time, s': Store, removed: EniId)
    requires c.warmIPTarget == NO_WARM_IP_TARGET && c.warmENITarget >= 0 && c.maxIPsPerENI >= 1
    requires forall e | e in s.pools :: PoolSize(s.pools[e]) <= c.maxIPsPerENI
    requires ShouldRemoveExtraENIs(c, s) && RemoveUnused(s, c.warmIPTarget, now, s', removed) && s' != s
    ensures NodeIPPoolTooLow(c, s') <==> c.warmENITarget == 0 && Available(s) == PoolSize(s.pools[removed])
  {
    SpareENI(Available(s), PoolSize(s.pools[removed]), c.warmENITarget, c.maxIPsPerENI);
  }

  /**
   * An increase asked for because the pool is too low makes an ENI removable in one case only: no spare ENI is wanted
   * and the ENI brings a whole ENI's worth of addresses that were not known before.
   */
  lemma IncreaseMakesRemovableIff(c: PoolConfig, s: Store, s': Store, e: EniId, ips: set<IP>)
    requires c.warmIPTarget == NO_WARM_IP_TARGET && c.warmENITarget >= 0 && c.maxIPsPerENI >= 1 && Counters(s)
    requires NodeIPPoolTooLow(c, s) && Grown(c, s, s', e, ips)
    ensures ShouldRemoveExtraENIs(c, s') <==> c.warmENITarget == 0 && |ips - KnownOn(s, e)| == c.maxIPsPerENI
  {
    CountersBounds(s);
    GrownBy(c, s, s', e, ips);
    RemovableAfter(c, s, s', |ips - KnownOn(s, e)|);
  }

  lemma RemovableAfter(c: PoolConfig, s: Store, s': Store, more: int)
    requires c.warmIPTarget == NO_WARM_IP_TARGET && c.warmENITarget >= 0 && c.maxIPsPerENI >= 1
    requires NodeIPPoolTooLow(c, s) && 0 <= Available(s) && Available(s') == Available(s) + more && more <= c.maxIPsPerENI
    ensures ShouldRemoveExtraENIs(c, s') <==> c.warmENITarget == 0 && more == c.maxIPsPerENI
  {
    SpareAfterGrowth(Available(s), more, c.warmENITarget, c.maxIPsPerENI);
  }

  lemma SpareAfterGrowth(before: int, more: int, target: int, max: int)
    requires 0 <= before && (before < max * target || (target == 0 && before == 0))
    requires target >= 0 && max >= 1 && more <= max
    ensures before + more >= (target + 1) * max <==> target == 0 && more == max
  {
    assert (target + 1) * max == max * target + max;
  }

  /** Two sound stores differ by a fresh ENI with one free address. */
  lemma WithFreshENI(s: Store, e: EniId, device: int, ip: IP, now: Time) returns (s': Store)
    requires Sound(s) && e !in s.pools && ip != "" && !InStore(s, ip)
    ensures s' == AddIP(AddENI(s, e, device, false, now).0, e, ip).0 && Sound(s') && s'.pods == s.pods
    ensures s'.pools == s.pools[e := EniPool(now, ZERO_TIME, false, e, device, 0, map[ip := Address(ip, false, ZERO_TIME)])]
    ensures Available(s') == Available(s) + 1 && s'.total == s.total + 1 && s'.assignedTotal == s.assignedTotal
  {
    var t := AddENI(s, e, device, false, now).0;
    AddENISound(s, e, device, false, now);
    AddENISlots(s, e, device, false, now);
    assert !InStore(t, ip);
    AddIPSound(t, e, ip);
    s' := AddIP(t, e, ip).0;
    FreshShape(s, e, device, ip, now);
  }

  lemma FreshShape(s: Store, e: EniId, device: int, ip: IP, now: Time)
    requires e !in s.pools
    ensures var s' := AddIP(AddENI(s, e, device, false, now).0, e, ip).0;
            && s'.pods == s.pods && s'.total == s.total + 1 && s'.assignedTotal == s.assignedTotal
            && s'.pools == s.pools[e := EniPool(now, ZERO_TIME, false, e, device, 0, map[ip := Address(ip, false, ZERO_TIME)])]
  {
  }

  /** A primary ENI whose one address is a pod's. */
  lemma BusyPrimary(e: EniId, ip: IP, k: PodKey) returns (s: Store)
    requires ip != ""
    ensures Sound(s) && Available(s) == 0 && s.pools.Keys == {e} && s.pools[e].isPrimary
    ensures PoolSize(s.pools[e]) == 1 && s.pods.Keys == {k} && forall f, i | InPool(s, f, i) :: i == ip
  {
    var s0 := AddENI(EMPTY_STORE, e, 0, true, ZERO_TIME).0;
    EmptySound();
    AddENISound(EMPTY_STORE, e, 0, true, ZERO_TIME);
    assert !InStore(s0, ip);
    AddIPSound(s0, e, ip);
    var s1 := AddIP(s0, e, ip).0;
    assert s1.pools[e].addresses == map[ip := Address(ip, false, ZERO_TIME)];
    TakeSound(s1, k, e, ip);
    s := Take(s1, k, e, ip);
    assert s.pools[e].addresses.Keys == {ip};
  }

  /**
   * The cycle at target 0, on an instance type with one address per ENI. Beside a busy primary there is one spare ENI:
   * it is removable and goes, the pool is then too low with no room on the primary, the increase brings a new ENI with
   * its address, and that one is removable again once it is old enough.
   */
  lemma ThrashingCycle(c: PoolConfig, primary: EniId, e: EniId, newENI: EniId, used: IP, ip: IP, ip': IP, k: PodKey, now: Time)
      returns (s: Store, s1: Store, s2: Store)
    requires c.warmENITarget == 0 && c.warmIPTarget == NO_WARM_IP_TARGET && c.maxIPsPerENI == 1 && now >= MIN_LIFE_TIME
    requires primary != e && primary != newENI && used != "" && ip != "" && ip' != "" && used != ip && used != ip'
    ensures Sound(s) && s.pools.Keys == {primary, e} && s.pools[primary].isPrimary && HasPods(s.pools[primary])
    ensures ShouldRemoveExtraENIs(c, s) && RemoveUnused(s, c.warmIPTarget, now, s1, e) && s1.pools.Keys == {primary}
    ensures NodeIPPoolTooLow(c, s1) && PoolSize(s1.pools[primary]) == c.maxIPsPerENI
    ensures Grown(c, s1, s2, newENI, {ip'}) && s2.pools.Keys == {primary, newENI}
    ensures ShouldRemoveExtraENIs(c, s2) && Deletable(s2, c.warmIPTarget, now + MIN_LIFE_TIME, newENI)
  {
    s1 := BusyPrimary(primary, used, k);
    s := WithFreshENI(s1, e, 1, ip, ZERO_TIME);
    s2 := WithFreshENI(s1, newENI, 1, ip', now);
    SpareGoes(s1, s, e, ip, now);
    FreshIsGrown(c, s1, s2, newENI, ip', now);
    BusyHasPods(s1, primary, used, k);
  }

  lemma BusyHasPods(s: Store, e: EniId, ip: IP, k: PodKey)
    requires Sound(s) && s.pods.Keys == {k} && s.pools.Keys == {e} && forall f, i | InPool(s, f, i) :: i == ip
    ensures HasPods(s.pools[e])
  {
    var f :| Holds(s, f, s.pods[k]);
    assert PoolOk(e, s.pools[e]) && s.pods[k].ip in AssignedIn(s.pools[e]);
  }

  lemma SpareGoes(s1: Store, s: Store, e: EniId, ip: IP, now: Time)
    requires e !in s1.pools && s.pods == s1.pods && s.total == s1.total + 1 && s.assignedTotal == s1.assignedTotal
    requires s.pools == s1.pools[e := EniPool(ZERO_TIME, ZERO_TIME, false, e, 1, 0, map[ip := Address(ip, false, ZERO_TIME)])]
    requires now >= MIN_LIFE_TIME
    ensures RemoveUnused(s, NO_WARM_IP_TARGET, now, s1, e)
  {
    Spare(s1, s, e, ip, ZERO_TIME);
  }

  /** The spare ENI can go, and then the store is what it was without it. */
  lemma Spare(s1: Store, s: Store, e: EniId, ip: IP, created: Time)
    requires e !in s1.pools && s.pods == s1.pods && s.total == s1.total + 1 && s.assignedTotal == s1.assignedTotal
    requires s.pools == s1.pools[e := EniPool(created, ZERO_TIME, false, e, 1, 0, map[ip := Address(ip, false, ZERO_TIME)])]
    ensures DropENI(s, e) == s1
  {
    assert s.pools - {e} == s1.pools;
    assert s.pools[e].addresses.Keys == {ip};
  }

  lemma FreshIsGrown(c: PoolConfig, s: Store, s': Store, e: EniId, ip: IP, now: Time)
    requires c.maxIPsPerENI == 1 && e !in s.pools && s' == AddIP(AddENI(s, e, 1, false, now).0, e, ip).0
    ensures Grown(c, s, s', e, {ip})
  {
    var added := AddENI(s, e, 1, false, now).0;
    ExtendByNothing(added, e);
    ExtendByOne(added, e, {}, ip);
    assert {} + {ip} == {ip};
  }
}
