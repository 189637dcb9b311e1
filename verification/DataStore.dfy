/** The mutable store. Every public method is one critical section of the store's lock. */
module DataStores {
  import opened Types
  import opened Sums
  import opened AddressStore

  class DataStore {
    var total: int
    var assignedTotal: int
    var eniIPPools: map<EniId, EniPool>
    var podsIP: map<PodKey, PodIP>

    function State(): Store
      reads this
    {
      Store(total, assignedTotal, eniIPPools, podsIP)
    }

    ghost predicate Valid()
      reads this
    {
      Counters(State())
    }

    constructor ()
      ensures Valid() && State() == EMPTY_STORE
    {
      total, assignedTotal, eniIPPools, podsIP := 0, 0, map[], map[];
    }

    method AddENI(eniID: EniId, deviceNumber: int, isPrimary: bool, now: Time) returns (err: Status)
      requires Valid()
      modifies this
      ensures Valid()
      ensures (State(), err) == AddressStore.AddENI(old(State()), eniID, deviceNumber, isPrimary, now)
    {
      AddENICounters(State(), eniID, deviceNumber, isPrimary, now);
      if eniID in eniIPPools {
        return DuplicatedENI;
      }
      eniIPPools := eniIPPools[eniID := NewPool(eniID, deviceNumber, isPrimary, now)];
      return Success;
    }

    method AddIPv4AddressFromStore(eniID: EniId, ipv4: IP) returns (err: Status)
      requires Valid()
      modifies this
      ensures Valid()
      ensures (State(), err) == AddIP(old(State()), eniID, ipv4)
    {
      AddIPCounters(State(), eniID, ipv4);
      if eniID !in eniIPPools {
        return UnknownENI;
      }
      var curENI := eniIPPools[eniID];
      if ipv4 in curENI.addresses {
        return DuplicateIP;
      }
      total := total + 1;
      eniIPPools := eniIPPools[eniID := curENI.(addresses := curENI.addresses[ipv4 := Address(ipv4, false, ZERO_TIME)])];
      return Success;
    }

    method DelIPv4AddressFromStore(eniID: EniId, ipv4: IP) returns (err: Status)
      requires Valid()
      modifies this
      ensures Valid()
      ensures (State(), err) == DelIP(old(State()), eniID, ipv4)
    {
      DelIPCounters(State(), eniID, ipv4);
      if eniID !in eniIPPools {
        return UnknownENI;
      }
      var curENI := eniIPPools[eniID];
      if ipv4 !in curENI.addresses {
        return UnknownIP;
      }
      if curENI.addresses[ipv4].isAssigned {
        return IPInUse;
      }
      total := total - 1;
      eniIPPools := eniIPPools[eniID := curENI.(addresses := curENI.addresses - {ipv4})];
      return Success;
    }

    method AssignPodIPv4Address(pod: PodInfo, now: Time) returns (r: Reply)
      requires Valid()
      modifies this
      ensures Valid()
      ensures AssignPod(old(State()), pod, now, State(), r)
    {
      if pod.key in podsIP {
        var info := podsIP[pod.key];
        if info.ip == pod.ip && pod.ip != "" {
          return Granted(info.ip, info.deviceNumber);
        }
        return Refused(MultipleAddresses);
      }
      r := AssignUnsafe(pod, now);
    }

    /** The search visits ENIs and their addresses in no particular order and takes the first slot that fits. */
    method AssignUnsafe(pod: PodInfo, now: Time) returns (r: Reply)
      requires Valid() && pod.key !in podsIP
      modifies this
      ensures Valid()
      ensures AssignPod(old(State()), pod, now, State(), r)
    {
      ghost var s := State();
      var enis := eniIPPools.Keys;
      while enis != {}
        invariant State() == s && enis <= eniIPPools.Keys
        invariant forall e, ip | Eligible(s, pod.ip, now, e, ip) :: e in enis
      {
        var e :| e in enis;
        enis := enis - {e};
        var eni := eniIPPools[e];
        if Skipped(eni, pod.ip) {
          continue;
        }
        var ips := eni.addresses.Keys;
        while ips != {}
          invariant State() == s && ips <= eni.addresses.Keys
          invariant forall f, ip | Eligible(s, pod.ip, now, f, ip) :: f in enis || (f == e && ip in ips)
        {
          var ip :| ip in ips;
          ips := ips - {ip};
          var addr := eni.addresses[ip];
          if Fits(addr, pod.ip, now) {
            TakeCounters(s, pod.key, e, ip);
            if !addr.isAssigned {
              IncrementAssignedCount(e, ip);
            }
            podsIP := podsIP[pod.key := PodIP(addr.address, eni.deviceNumber)];
            r := Granted(addr.address, eni.deviceNumber);
            assert GrantedFrom(s, pod, now, State(), r, e, ip);
            return;
          }
        }
      }
      r := Refused(NoAvailableAddress);
    }

    method IncrementAssignedCount(e: EniId, ip: IP)
      requires InPool(State(), e, ip)
      modifies this
      ensures total == old(total) && podsIP == old(podsIP) && assignedTotal == old(assignedTotal) + 1
      ensures var p := old(eniIPPools[e]);
              eniIPPools == old(eniIPPools)[e := p.(assignedCount := p.assignedCount + 1,
                                                    addresses := p.addresses[ip := p.addresses[ip].(isAssigned := true)])]
    {
      var p := eniIPPools[e];
      assignedTotal := assignedTotal + 1;
      p := p.(assignedCount := p.assignedCount + 1);
      p := p.(addresses := p.addresses[ip := p.addresses[ip].(isAssigned := true)]);
      eniIPPools := eniIPPools[e := p];
    }

    method MarkUnassigned(e: EniId, ip: IP, key: PodKey, now: Time)
      requires Valid() && AssignedAt(State(), e, ip)
      modifies this
      ensures Valid() && State() == GiveBack(old(State()), key, e, ip, now)
    {
      GiveBackCounters(State(), key, e, ip, now);
      var eni := eniIPPools[e];
      var addr := eni.addresses[ip].(isAssigned := false);
      assignedTotal := assignedTotal - 1;
      eni := eni.(assignedCount := eni.assignedCount - 1);
      addr := addr.(unassignedTime := now);
      eni := eni.(lastUnassignedTime := now, addresses := eni.addresses[ip := addr]);
      eniIPPools := eniIPPools[e := eni];
      podsIP := podsIP - {key};
    }

    method UnassignPodIPv4Address(key: PodKey, now: Time) returns (r: Reply)
      requires Valid()
      modifies this
      ensures Valid()
      ensures UnassignPod(old(State()), key, now, State(), r)
    {
      if key !in podsIP {
        return Refused(UnknownPod);
      }
      ghost var s := State();
      var info := podsIP[key];
      var enis := eniIPPools.Keys;
      while enis != {}
        invariant State() == s && enis <= eniIPPools.Keys
        invariant forall e | AssignedAt(s, e, info.ip) :: e in enis
      {
        var e :| e in enis;
        enis := enis - {e};
        var eni := eniIPPools[e];
        if info.ip in eni.addresses && eni.addresses[info.ip].isAssigned {
          MarkUnassigned(e, info.ip, key, now);
          r := Granted(eni.addresses[info.ip].address, eni.deviceNumber);
          assert ReleasedFrom(s, key, now, State(), r, e);
          return;
        }
      }
      r := Refused(UnknownPodIP);
    }

    /** Pods by name; of pods that share a name one is listed. */
    method GetPodInfos() returns (infos: map<string, PodIP>)
      ensures forall n | n in infos :: exists k :: k in podsIP && PodName(k) == n && infos[n] == podsIP[k]
      ensures forall k | k in podsIP :: PodName(k) in infos
    {
      infos := map[];
      var keys := podsIP.Keys;
      while keys != {}
        invariant keys <= podsIP.Keys
        invariant forall n | n in infos :: exists k :: k in podsIP && PodName(k) == n && infos[n] == podsIP[k]
        invariant forall k | k in podsIP && k !in keys :: PodName(k) in infos
      {
        var k :| k in keys;
        keys := keys - {k};
        infos := infos[PodName(k) := podsIP[k]];
      }
    }

    method GetStats() returns (t: int, a: int)
      ensures t == State().total && a == State().assignedTotal
    {
      return total, assignedTotal;
    }

    /** Are the other ENIs' free addresses too few to meet the warm-IP target? */
    method IsRequiredForWarmIPTarget(warmIPTarget: int, eniID: EniId) returns (required: bool)
      requires Valid() && eniID in eniIPPools
      ensures required <==> OtherWarmIPs(State(), eniID) < warmIPTarget
    {
      var otherWarmIPs := 0;
      var enis := eniIPPools.Keys;
      ghost var others := eniIPPools - {eniID};
      ghost var left := others;
      while enis != {}
        invariant enis <= eniIPPools.Keys
        invariant left.Keys == enis - {eniID} && forall e | e in left :: left[e] == eniIPPools[e]
        invariant otherWarmIPs + SumOver(left, PoolFree) == SumOver(others, PoolFree)
      {
        var e :| e in enis;
        enis := enis - {e};
        var other := eniIPPools[e];
        assert PoolOk(e, other) && PoolOk(eniID, eniIPPools[eniID]);
        if other.id != eniIPPools[eniID].id {
          otherWarmIPs := otherWarmIPs + |other.addresses| - other.assignedCount;
          SumRemove(left, e, PoolFree);
          left := left - {e};
        }
      }
      required := otherWarmIPs < warmIPTarget;
    }

    method GetDeletableENI(warmIPTarget: int, now: Time) returns (found: bool, eniID: EniId)
      requires Valid()
      ensures found ==> Deletable(State(), warmIPTarget, now, eniID)
      ensures !found ==> forall e :: !Deletable(State(), warmIPTarget, now, e)
    {
      var enis := eniIPPools.Keys;
      while enis != {}
        invariant enis <= eniIPPools.Keys
        invariant forall e | Deletable(State(), warmIPTarget, now, e) :: e in enis
      {
        var e :| e in enis;
        enis := enis - {e};
        var eni := eniIPPools[e];
        if eni.isPrimary || TooYoung(eni, now) || HasIPInCooling(eni, now) || HasPods(eni) {
          continue;
        }
        if warmIPTarget != 0 {
          var required := IsRequiredForWarmIPTarget(warmIPTarget, e);
          if required {
            continue;
          }
        }
        return true, e;
      }
      return false, "";
    }

    /** The ENI that was taken out of the store, or the empty string. */
    method RemoveUnusedENIFromStore(warmIPTarget: int, now: Time) returns (removed: EniId)
      requires Valid()
      modifies this
      ensures Valid()
      ensures RemoveUnused(old(State()), warmIPTarget, now, State(), removed)
    {
      var found, e := GetDeletableENI(warmIPTarget, now);
      if !found {
        return "";
      }
      DropENICounters(State(), e);
      total := total - |eniIPPools[e].addresses|;
      eniIPPools := eniIPPools - {e};
      return e;
    }

    method RemoveENIFromDataStore(eniID: EniId) returns (err: Status)
      requires Valid()
      modifies this
      ensures Valid()
      ensures (State(), err) == RemoveENI(old(State()), eniID)
    {
      if eniID !in eniIPPools {
        return UnknownENI;
      }
      if eniIPPools[eniID].assignedCount != 0 {
        return ENIInUse;
      }
      DropENICounters(State(), eniID);
      total := total - |eniIPPools[eniID].addresses|;
      eniIPPools := eniIPPools - {eniID};
      return Success;
    }

    /** An ENI with room for more addresses, if there is one; the primary is passed over on request. */
    method GetENINeedsIP(maxIPperENI: int, skipPrimary: bool) returns (found: bool, eniID: EniId)
      ensures found ==> eniID in eniIPPools && |eniIPPools[eniID].addresses| < maxIPperENI
      ensures found ==> !(skipPrimary && eniIPPools[eniID].isPrimary)
      ensures !found ==> forall e | e in eniIPPools ::
                (skipPrimary && eniIPPools[e].isPrimary) || |eniIPPools[e].addresses| >= maxIPperENI
    {
      var enis := eniIPPools.Keys;
      while enis != {}
        invariant enis <= eniIPPools.Keys
        invariant forall e | e in eniIPPools && e !in enis ::
          (skipPrimary && eniIPPools[e].isPrimary) || |eniIPPools[e].addresses| >= maxIPperENI
      {
        var e :| e in enis;
        enis := enis - {e};
        if skipPrimary && eniIPPools[e].isPrimary {
          continue;
        }
        if |eniIPPools[e].addresses| < maxIPperENI {
          return true, e;
        }
      }
      return false, "";
    }
  }
}
