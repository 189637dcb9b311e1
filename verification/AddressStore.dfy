/**
 * The node's address store as a value: ENI pools, the pod index and the redundant counters, together with the
 * effect of each locked operation and the invariants that tie the counters and the index to the pools.
 */
module AddressStore {
  import opened Types
  import opened Sums

  /** Nanoseconds; 0 is the zero value of a time stamp that was never set. */
  type Time = int

  const SECOND: int := 1_000_000_000
  const MIN_LIFE_TIME: int := 60 * SECOND
  const ENI_COOLING_PERIOD: int := 60 * SECOND
  const ADDRESS_COOLING_PERIOD: int := 30 * SECOND
  const ZERO_TIME: Time := 0

  datatype Address = Address(address: IP, isAssigned: bool, unassignedTime: Time)

  datatype EniPool = EniPool(
    createTime: Time,
    lastUnassignedTime: Time,
    isPrimary: bool,
    id: EniId,
    deviceNumber: int,
    assignedCount: int,
    addresses: map<IP, Address>)

  datatype PodKey = PodKey(name: string, namespace: string, container: string)

  datatype PodIP = PodIP(ip: IP, deviceNumber: int)

  /** What the caller knows about a pod; `ip` is empty unless the pod is recovered after a restart. */
  datatype PodInfo = PodInfo(key: PodKey, ip: IP)

  datatype Store = Store(total: int, assignedTotal: int, pools: map<EniId, EniPool>, pods: map<PodKey, PodIP>)

  datatype Status = Success | DuplicatedENI | DuplicateIP | UnknownENI | UnknownIP | IPInUse | ENIInUse

  datatype Refusal = MultipleAddresses | NoAvailableAddress | UnknownPod | UnknownPodIP

  datatype Reply = Granted(ip: IP, deviceNumber: int) | Refused(reason: Refusal)

  const EMPTY_STORE := Store(0, 0, map[], map[])

  // ----- Slots -----

  predicate InPool(s: Store, e: EniId, ip: IP) {
    e in s.pools && ip in s.pools[e].addresses
  }

  predicate AssignedAt(s: Store, e: EniId, ip: IP) {
    InPool(s, e, ip) && s.pools[e].addresses[ip].isAssigned
  }

  predicate FreeAt(s: Store, e: EniId, ip: IP) {
    InPool(s, e, ip) && !AssignedAt(s, e, ip)
  }

  ghost predicate InStore(s: Store, ip: IP) {
    exists e :: InPool(s, e, ip)
  }

  /** `s'` knows no slot that `s` does not know. */
  ghost predicate SlotsWithin(s': Store, s: Store) {
    forall e, ip | InPool(s', e, ip) :: InPool(s, e, ip)
  }

  ghost predicate HasPod(s: Store, ip: IP) {
    exists k :: k in s.pods && s.pods[k].ip == ip
  }

  /** ENI `e` carries the address of `info` in assigned state, under the recorded device number. */
  predicate Holds(s: Store, e: EniId, info: PodIP) {
    AssignedAt(s, e, info.ip) && s.pools[e].deviceNumber == info.deviceNumber
  }

  function AssignedIn(p: EniPool): set<IP> {
    set ip | ip in p.addresses && p.addresses[ip].isAssigned
  }

  function PoolSize(p: EniPool): int { |p.addresses| }

  function PoolAssigned(p: EniPool): int { p.assignedCount }

  function PoolFree(p: EniPool): int { |p.addresses| - p.assignedCount }

  function Available(s: Store): int { s.total - s.assignedTotal }

  // ----- Operations -----

  function WithAddress(s: Store, e: EniId, a: Address): Store
    requires e in s.pools
  {
    s.(pools := s.pools[e := s.pools[e].(addresses := s.pools[e].addresses[a.address := a])])
  }

  function NewPool(e: EniId, device: int, primary: bool, now: Time): EniPool {
    EniPool(now, ZERO_TIME, primary, e, device, 0, map[])
  }

  function AddENI(s: Store, e: EniId, device: int, primary: bool, now: Time): (Store, Status) {
    if e in s.pools then (s, DuplicatedENI)
    else (s.(pools := s.pools[e := NewPool(e, device, primary, now)]), Success)
  }

  function AddIP(s: Store, e: EniId, ip: IP): (Store, Status) {
    if e !in s.pools then (s, UnknownENI)
    else if ip in s.pools[e].addresses then (s, DuplicateIP)
    else (WithAddress(s, e, Address(ip, false, ZERO_TIME)).(total := s.total + 1), Success)
  }

  function DelIP(s: Store, e: EniId, ip: IP): (Store, Status) {
    if e !in s.pools then (s, UnknownENI)
    else if ip !in s.pools[e].addresses then (s, UnknownIP)
    else if s.pools[e].addresses[ip].isAssigned then (s, IPInUse)
    else
      (s.(total := s.total - 1,
          pools := s.pools[e := s.pools[e].(addresses := s.pools[e].addresses - {ip})]), Success)
  }

  /** The store without ENI `e` and the addresses it carries. */
  function DropENI(s: Store, e: EniId): Store
    requires e in s.pools
  {
    s.(total := s.total - |s.pools[e].addresses|, pools := s.pools - {e})
  }

  function RemoveENI(s: Store, e: EniId): (Store, Status) {
    if e !in s.pools then (s, UnknownENI)
    else if s.pools[e].assignedCount != 0 then (s, ENIInUse)
    else (DropENI(s, e), Success)
  }

  /** Mark the slot assigned (counting it once) and index the pod. */
  function Take(s: Store, k: PodKey, e: EniId, ip: IP): Store
    requires InPool(s, e, ip)
  {
    var p := s.pools[e];
    var a := p.addresses[ip];
    var info := PodIP(a.address, p.deviceNumber);
    if a.isAssigned then s.(pods := s.pods[k := info])
    else
      s.(assignedTotal := s.assignedTotal + 1,
         pools := s.pools[e := p.(assignedCount := p.assignedCount + 1,
                                  addresses := p.addresses[ip := a.(isAssigned := true)])],
         pods := s.pods[k := info])
  }

  /** Return the slot to the pool and start its cooling period. */
  function GiveBack(s: Store, k: PodKey, e: EniId, ip: IP, now: Time): Store
    requires InPool(s, e, ip)
  {
    var p := s.pools[e];
    s.(assignedTotal := s.assignedTotal - 1,
       pools := s.pools[e := p.(assignedCount := p.assignedCount - 1,
                                lastUnassignedTime := now,
                                addresses := p.addresses[ip := p.addresses[ip].(isAssigned := false, unassignedTime := now)])],
       pods := s.pods - {k})
  }

  // ----- Allocation, release and ENI removal, up to the order in which the maps are visited -----

  /** An ENI all of whose addresses are counted as assigned is not searched for a pod without an address. */
  predicate Skipped(p: EniPool, want: IP) {
    want == "" && |p.addresses| == p.assignedCount
  }

  predicate Fits(a: Address, want: IP, now: Time) {
    want == a.address || (!a.isAssigned && want == "" && now - a.unassignedTime > ADDRESS_COOLING_PERIOD)
  }

  predicate Eligible(s: Store, want: IP, now: Time, e: EniId, ip: IP) {
    InPool(s, e, ip) && !Skipped(s.pools[e], want) && Fits(s.pools[e].addresses[ip], want, now)
  }

  ghost predicate Exhausted(s: Store, want: IP, now: Time) {
    forall e, ip :: !Eligible(s, want, now, e, ip)
  }

  predicate GrantedFrom(s: Store, pod: PodInfo, now: Time, s': Store, r: Reply, e: EniId, ip: IP) {
    Eligible(s, pod.ip, now, e, ip)
    && s' == Take(s, pod.key, e, ip)
    && r == Granted(s.pools[e].addresses[ip].address, s.pools[e].deviceNumber)
  }

  ghost predicate AssignPod(s: Store, pod: PodInfo, now: Time, s': Store, r: Reply) {
    if pod.key in s.pods then
      s' == s
      && var info := s.pods[pod.key];
         r == if info.ip == pod.ip && pod.ip != "" then Granted(info.ip, info.deviceNumber)
              else Refused(MultipleAddresses)
    else
      (exists e, ip :: GrantedFrom(s, pod, now, s', r, e, ip))
      || (Exhausted(s, pod.ip, now) && s' == s && r == Refused(NoAvailableAddress))
  }

  predicate ReleasedFrom(s: Store, k: PodKey, now: Time, s': Store, r: Reply, e: EniId)
    requires k in s.pods
  {
    AssignedAt(s, e, s.pods[k].ip)
    && s' == GiveBack(s, k, e, s.pods[k].ip, now)
    && r == Granted(s.pools[e].addresses[s.pods[k].ip].address, s.pools[e].deviceNumber)
  }

  ghost predicate UnassignPod(s: Store, k: PodKey, now: Time, s': Store, r: Reply) {
    if k !in s.pods then s' == s && r == Refused(UnknownPod)
    else
      (exists e :: ReleasedFrom(s, k, now, s', r, e))
      || ((forall e :: !AssignedAt(s, e, s.pods[k].ip)) && s' == s && r == Refused(UnknownPodIP))
  }

  predicate TooYoung(p: EniPool, now: Time) { now - p.createTime < MIN_LIFE_TIME }

  predicate HasIPInCooling(p: EniPool, now: Time) { now - p.lastUnassignedTime < ENI_COOLING_PERIOD }

  predicate HasPods(p: EniPool) { p.assignedCount != 0 }

  ghost function OtherWarmIPs(s: Store, e: EniId): int {
    SumOver(s.pools - {e}, PoolFree)
  }

  ghost predicate Deletable(s: Store, warmIPTarget: int, now: Time, e: EniId) {
    e in s.pools
    && !s.pools[e].isPrimary
    && !TooYoung(s.pools[e], now)
    && !HasIPInCooling(s.pools[e], now)
    && !HasPods(s.pools[e])
    && !(warmIPTarget != 0 && OtherWarmIPs(s, e) < warmIPTarget)
  }

  ghost predicate RemoveUnused(s: Store, warmIPTarget: int, now: Time, s': Store, removed: EniId) {
    (Deletable(s, warmIPTarget, now, removed) && s' == DropENI(s, removed))
    || ((forall e :: !Deletable(s, warmIPTarget, now, e)) && s' == s && removed == "")
  }

  // ----- Invariant 1: the redundant counters -----

  predicate PoolOk(e: EniId, p: EniPool) {
    p.id == e
    && p.assignedCount == |AssignedIn(p)|
    && forall ip | ip in p.addresses :: p.addresses[ip].address == ip
  }

  ghost predicate Counters(s: Store) {
    (forall e {:trigger PoolOk(e, s.pools[e])} | e in s.pools :: PoolOk(e, s.pools[e]))
    && s.total == SumOver(s.pools, PoolSize)
    && s.assignedTotal == SumOver(s.pools, PoolAssigned)
  }

  lemma AssignedIsSubset(p: EniPool)
    ensures AssignedIn(p) <= p.addresses.Keys
    ensures 0 <= |AssignedIn(p)| <= |p.addresses|
    ensures |AssignedIn(p)| == |p.addresses| <==> AssignedIn(p) == p.addresses.Keys
  {
    var rest := p.addresses.Keys - AssignedIn(p);
    assert p.addresses.Keys == AssignedIn(p) + rest;
    assert |p.addresses.Keys| == |AssignedIn(p)| + |rest|;
  }

  /** The counters are always in range, and what is available is the sum of what each ENI has free. */
  lemma CountersBounds(s: Store)
    requires Counters(s)
    ensures 0 <= s.assignedTotal <= s.total
    ensures Available(s) == SumOver(s.pools, PoolFree)
    ensures forall e | e in s.pools :: 0 <= PoolAssigned(s.pools[e]) <= PoolSize(s.pools[e])
  {
    forall e | e in s.pools
      ensures 0 <= PoolAssigned(s.pools[e]) <= PoolSize(s.pools[e])
    {
      assert PoolOk(e, s.pools[e]);
      AssignedIsSubset(s.pools[e]);
    }
    SumNonNegative(s.pools, PoolAssigned);
    SumMonotone(s.pools, PoolAssigned, PoolSize);
    SumDifference(s.pools, PoolSize, PoolAssigned, PoolFree);
  }

  /** Replacing one pool moves both totals by that pool's own change. */
  lemma CountersUpdate(s: Store, s': Store, e: EniId, p: EniPool)
    requires Counters(s) && PoolOk(e, p)
    requires s'.pools == s.pools[e := p]
    requires s'.total == s.total + PoolSize(p) - (if e in s.pools then PoolSize(s.pools[e]) else 0)
    requires s'.assignedTotal == s.assignedTotal + PoolAssigned(p) - (if e in s.pools then PoolAssigned(s.pools[e]) else 0)
    ensures Counters(s')
  {
    if e in s.pools {
      SumUpdate(s.pools, e, p, PoolSize);
      SumUpdate(s.pools, e, p, PoolAssigned);
    } else {
      SumInsert(s.pools, e, p, PoolSize);
      SumInsert(s.pools, e, p, PoolAssigned);
    }
  }

  lemma AddENICounters(s: Store, e: EniId, device: int, primary: bool, now: Time)
    requires Counters(s)
    ensures Counters(AddENI(s, e, device, primary, now).0)
  {
    var p := NewPool(e, device, primary, now);
    assert AssignedIn(p) == {};
    if e !in s.pools {
      CountersUpdate(s, AddENI(s, e, device, primary, now).0, e, p);
    }
  }

  lemma AddIPCounters(s: Store, e: EniId, ip: IP)
    requires Counters(s)
    ensures Counters(AddIP(s, e, ip).0)
  {
    var (s', st) := AddIP(s, e, ip);
    if st == Success {
      var p := s'.pools[e];
      assert PoolOk(e, s.pools[e]);
      assert AssignedIn(p) == AssignedIn(s.pools[e]);
      CountersUpdate(s, s', e, p);
    }
  }

  lemma DelIPCounters(s: Store, e: EniId, ip: IP)
    requires Counters(s)
    ensures Counters(DelIP(s, e, ip).0)
  {
    var (s', st) := DelIP(s, e, ip);
    if st == Success {
      var p := s'.pools[e];
      assert PoolOk(e, s.pools[e]);
      assert AssignedIn(p) == AssignedIn(s.pools[e]);
      assert p.addresses.Keys == s.pools[e].addresses.Keys - {ip};
      assert |p.addresses.Keys| == |s.pools[e].addresses.Keys| - 1;
      CountersUpdate(s, s', e, p);
    }
  }

  lemma DropENICounters(s: Store, e: EniId)
    requires Counters(s) && e in s.pools && s.pools[e].assignedCount == 0
    ensures Counters(DropENI(s, e))
  {
    SumRemove(s.pools, e, PoolSize);
    SumRemove(s.pools, e, PoolAssigned);
  }

  lemma TakeCounters(s: Store, k: PodKey, e: EniId, ip: IP)
    requires Counters(s) && InPool(s, e, ip)
    ensures Counters(Take(s, k, e, ip))
  {
    var s' := Take(s, k, e, ip);
    if !s.pools[e].addresses[ip].isAssigned {
      var p := s'.pools[e];
      assert PoolOk(e, s.pools[e]);
      assert AssignedIn(p) == AssignedIn(s.pools[e]) + {ip};
      assert p.addresses.Keys == s.pools[e].addresses.Keys;
      CountersUpdate(s, s', e, p);
    }
  }

  lemma GiveBackCounters(s: Store, k: PodKey, e: EniId, ip: IP, now: Time)
    requires Counters(s) && AssignedAt(s, e, ip)
    ensures Counters(GiveBack(s, k, e, ip, now))
  {
    var s' := GiveBack(s, k, e, ip, now);
    var p := s'.pools[e];
    assert PoolOk(e, s.pools[e]);
    assert AssignedIn(p) == AssignedIn(s.pools[e]) - {ip};
    assert p.addresses.Keys == s.pools[e].addresses.Keys;
    CountersUpdate(s, s', e, p);
  }

  lemma AssignPodCounters(s: Store, pod: PodInfo, now: Time, s': Store, r: Reply)
    requires Counters(s) && AssignPod(s, pod, now, s', r)
    ensures Counters(s')
  {
    if pod.key !in s.pods && s' != s {
      var e, ip :| GrantedFrom(s, pod, now, s', r, e, ip);
      TakeCounters(s, pod.key, e, ip);
    }
  }

  lemma UnassignPodCounters(s: Store, k: PodKey, now: Time, s': Store, r: Reply)
    requires Counters(s) && UnassignPod(s, k, now, s', r)
    ensures Counters(s')
  {
    if k in s.pods && s' != s {
      var e :| ReleasedFrom(s, k, now, s', r, e);
      GiveBackCounters(s, k, e, s.pods[k].ip, now);
    }
  }

  lemma RemoveUnusedCounters(s: Store, warmIPTarget: int, now: Time, s': Store, removed: EniId)
    requires Counters(s) && RemoveUnused(s, warmIPTarget, now, s', removed)
    ensures Counters(s')
  {
    if Deletable(s, warmIPTarget, now, removed) {
      DropENICounters(s, removed);
    }
  }

  // ----- Invariant 2: the pod index is a bijection onto the assigned addresses -----

  /** No address is empty and none is known to two ENIs. */
  ghost predicate UniqueIPs(s: Store) {
    (forall e, ip | InPool(s, e, ip) :: ip != "")
    && (forall e, f, ip | InPool(s, e, ip) && InPool(s, f, ip) :: e == f)
  }

  /** Every pod's address is assigned on an ENI with the recorded device number. */
  ghost predicate Placed(s: Store) {
    forall k | k in s.pods :: exists e :: Holds(s, e, s.pods[k])
  }

  /** Every assigned address belongs to some pod. */
  ghost predicate Covered(s: Store) {
    forall e, ip | AssignedAt(s, e, ip) :: HasPod(s, ip)
  }

  /** No two pods share an address. */
  ghost predicate Injective(pods: map<PodKey, PodIP>) {
    forall j, k | j in pods && k in pods && pods[j].ip == pods[k].ip :: j == k
  }

  ghost predicate Index(s: Store) {
    Placed(s) && Covered(s) && Injective(s.pods) && |s.pods| == s.assignedTotal
  }

  ghost predicate Sound(s: Store) {
    Counters(s) && UniqueIPs(s) && Index(s)
  }

  ghost function PodIPs(s: Store): set<IP> {
    set k | k in s.pods :: s.pods[k].ip
  }

  ghost function AssignedIPs(s: Store): set<IP> {
    set e, ip | e in s.pools && ip in AssignedIn(s.pools[e]) :: ip
  }

  /** In a sound store the index maps pods one to one onto exactly the assigned addresses. */
  lemma IndexIsBijection(s: Store)
    requires Sound(s)
    ensures PodIPs(s) == AssignedIPs(s)
    ensures |s.pods| == s.assignedTotal == |AssignedIPs(s)|
    ensures forall k, e | k in s.pods && InPool(s, e, s.pods[k].ip) :: Holds(s, e, s.pods[k])
  {
    forall ip | ip in PodIPs(s)
      ensures ip in AssignedIPs(s)
    {
      var k :| k in s.pods && s.pods[k].ip == ip;
      var e :| Holds(s, e, s.pods[k]);
      assert ip in AssignedIn(s.pools[e]);
    }
    forall ip | ip in AssignedIPs(s)
      ensures ip in PodIPs(s)
    {
      var e :| e in s.pools && ip in AssignedIn(s.pools[e]);
      assert AssignedAt(s, e, ip);
      assert HasPod(s, ip);
    }
    ImageSize(s.pods);
  }

  lemma {:induction false} ImageSize(pods: map<PodKey, PodIP>)
    requires Injective(pods)
    ensures |set k | k in pods :: pods[k].ip| == |pods|
    decreases |pods|
  {
    var image := set j | j in pods :: pods[j].ip;
    if pods != map[] {
      var k :| k in pods;
      var rest := pods - {k};
      assert rest.Keys == pods.Keys - {k};
      ImageSize(rest);
      var smaller := set j | j in rest :: rest[j].ip;
      forall ip | ip in image
        ensures ip in smaller + {pods[k].ip}
      {
        var j :| j in pods && pods[j].ip == ip;
        assert j == k || rest[j].ip == ip;
      }
      assert image == smaller + {pods[k].ip};
      assert pods[k].ip !in smaller;
    } else {
      assert image == {};
    }
  }

  lemma EmptySound()
    ensures Sound(EMPTY_STORE)
  {
  }

  lemma FewerSlotsUnique(s: Store, s': Store)
    requires UniqueIPs(s)
    requires SlotsWithin(s', s)
    ensures UniqueIPs(s')
  {
  }

  /** Operations that leave the assigned slots, their devices and the pods alone keep the index. */
  lemma SameAssignedIndex(s: Store, s': Store)
    requires Index(s)
    requires s'.pods == s.pods && s'.assignedTotal == s.assignedTotal
    requires forall e, ip :: AssignedAt(s', e, ip) <==> AssignedAt(s, e, ip)
    requires forall e | e in s.pools && e in s'.pools :: s'.pools[e].deviceNumber == s.pools[e].deviceNumber
    ensures Index(s')
  {
    forall k | k in s'.pods
      ensures exists f :: Holds(s', f, s'.pods[k])
    {
      var f :| Holds(s, f, s.pods[k]);
      assert Holds(s', f, s'.pods[k]);
    }
    forall f, ip | AssignedAt(s', f, ip)
      ensures HasPod(s', ip)
    {
      assert HasPod(s, ip);
    }
  }

  lemma AddENISlots(s: Store, e: EniId, device: int, primary: bool, now: Time)
    ensures var s' := AddENI(s, e, device, primary, now).0;
            && (forall f, i :: InPool(s', f, i) <==> InPool(s, f, i))
            && (forall f, i :: AssignedAt(s', f, i) <==> AssignedAt(s, f, i))
            && (forall f | f in s.pools && f in s'.pools :: s'.pools[f].deviceNumber == s.pools[f].deviceNumber)
            && s'.pods == s.pods && s'.assignedTotal == s.assignedTotal
  {
  }

  lemma AddENISound(s: Store, e: EniId, device: int, primary: bool, now: Time)
    requires Sound(s)
    ensures Sound(AddENI(s, e, device, primary, now).0)
  {
    var s' := AddENI(s, e, device, primary, now).0;
    AddENICounters(s, e, device, primary, now);
    AddENISlots(s, e, device, primary, now);
    FewerSlotsUnique(s, s');
    SameAssignedIndex(s, s');
  }

  lemma AddIPSlots(s: Store, e: EniId, ip: IP)
    requires AddIP(s, e, ip).1 == Success
    ensures var s' := AddIP(s, e, ip).0;
            && !InPool(s, e, ip)
            && (forall f, i :: InPool(s', f, i) <==> InPool(s, f, i) || (f == e && i == ip))
            && (forall f, i :: AssignedAt(s', f, i) <==> AssignedAt(s, f, i))
            && (forall f | f in s.pools && f in s'.pools :: s'.pools[f].deviceNumber == s.pools[f].deviceNumber)
            && s'.pods == s.pods && s'.assignedTotal == s.assignedTotal
  {
  }

  lemma OneMoreSlotUniqueIff(s: Store, s': Store, e: EniId, ip: IP)
    requires UniqueIPs(s) && !InPool(s, e, ip)
    requires forall f, i :: InPool(s', f, i) <==> InPool(s, f, i) || (f == e && i == ip)
    ensures UniqueIPs(s') <==> ip != "" && !InStore(s, ip)
  {
    assert InPool(s', e, ip);
    if InStore(s, ip) {
      var f :| InPool(s, f, ip);
      assert InPool(s', f, ip) && f != e;
    }
  }

  /**
   * Adding checks for duplicates within one ENI only. The store stays sound exactly when the address is non-empty
   * and not already known to another ENI.
   */
  lemma AddIPSoundIff(s: Store, e: EniId, ip: IP)
    requires Sound(s) && AddIP(s, e, ip).1 == Success
    ensures Sound(AddIP(s, e, ip).0) <==> ip != "" && !InStore(s, ip)
  {
    var s' := AddIP(s, e, ip).0;
    AddIPCounters(s, e, ip);
    AddIPSlots(s, e, ip);
    SameAssignedIndex(s, s');
    OneMoreSlotUniqueIff(s, s', e, ip);
  }

  lemma AddIPSound(s: Store, e: EniId, ip: IP)
    requires Sound(s) && (AddIP(s, e, ip).1 == Success ==> ip != "" && !InStore(s, ip))
    ensures Sound(AddIP(s, e, ip).0)
  {
    if AddIP(s, e, ip).1 == Success {
      AddIPSoundIff(s, e, ip);
    }
  }

  lemma DelIPSlots(s: Store, e: EniId, ip: IP)
    requires DelIP(s, e, ip).1 == Success
    ensures var s' := DelIP(s, e, ip).0;
            && InPool(s, e, ip)
            && (forall f, i :: InPool(s', f, i) <==> InPool(s, f, i) && !(f == e && i == ip))
            && (forall f, i :: AssignedAt(s', f, i) <==> AssignedAt(s, f, i))
            && (forall f | f in s.pools && f in s'.pools :: s'.pools[f].deviceNumber == s.pools[f].deviceNumber)
            && s'.pods == s.pods && s'.assignedTotal == s.assignedTotal
  {
  }

  lemma DelIPSound(s: Store, e: EniId, ip: IP)
    requires Sound(s)
    ensures Sound(DelIP(s, e, ip).0)
    ensures SlotsWithin(DelIP(s, e, ip).0, s) && DelIP(s, e, ip).0.pods == s.pods
    ensures DelIP(s, e, ip).1 == Success ==> !InStore(DelIP(s, e, ip).0, ip) && !HasPod(DelIP(s, e, ip).0, ip)
  {
    var (s', st) := DelIP(s, e, ip);
    DelIPCounters(s, e, ip);
    if st == Success {
      DelIPSlots(s, e, ip);
      FewerSlotsUnique(s, s');
      SameAssignedIndex(s, s');
      NoPodOutsideStore(s', ip);
    }
  }

  lemma NoPodOutsideStore(s: Store, ip: IP)
    requires Index(s) && !InStore(s, ip)
    ensures !HasPod(s, ip)
  {
    forall k | k in s.pods
      ensures s.pods[k].ip != ip
    {
      var e :| Holds(s, e, s.pods[k]);
      assert InPool(s, e, s.pods[k].ip);
    }
  }

  lemma DropENISlots(s: Store, e: EniId)
    requires e in s.pools && PoolOk(e, s.pools[e]) && s.pools[e].assignedCount == 0
    ensures var s' := DropENI(s, e);
            && (forall f, i :: InPool(s', f, i) <==> InPool(s, f, i) && f != e)
            && (forall f, i :: AssignedAt(s', f, i) <==> AssignedAt(s, f, i))
            && (forall f | f in s.pools && f in s'.pools :: s'.pools[f].deviceNumber == s.pools[f].deviceNumber)
            && s'.pods == s.pods && s'.assignedTotal == s.assignedTotal
  {
    assert AssignedIn(s.pools[e]) == {};
    assert forall ip :: AssignedAt(s, e, ip) ==> ip in AssignedIn(s.pools[e]);
  }

  /** Dropping a podless ENI loses no pod, and no pod holds any address that went with it. */
  lemma DropENISound(s: Store, e: EniId)
    requires Sound(s) && e in s.pools && s.pools[e].assignedCount == 0
    ensures Sound(DropENI(s, e)) && SlotsWithin(DropENI(s, e), s)
    ensures forall ip | ip in s.pools[e].addresses :: !InStore(DropENI(s, e), ip) && !HasPod(DropENI(s, e), ip)
  {
    var s' := DropENI(s, e);
    DropENICounters(s, e);
    DropENISlots(s, e);
    FewerSlotsUnique(s, s');
    SameAssignedIndex(s, s');
    forall ip | ip in s.pools[e].addresses
      ensures !InStore(s', ip) && !HasPod(s', ip)
    {
      assert InPool(s, e, ip);
      NoPodOutsideStore(s', ip);
    }
  }

  lemma TakeSlots(s: Store, k: PodKey, e: EniId, ip: IP)
    requires InPool(s, e, ip) && PoolOk(e, s.pools[e]) && !AssignedAt(s, e, ip)
    ensures var s' := Take(s, k, e, ip);
            && (forall f, i :: InPool(s', f, i) <==> InPool(s, f, i))
            && (forall f, i :: AssignedAt(s', f, i) <==> AssignedAt(s, f, i) || (f == e && i == ip))
            && (forall f | f in s.pools && f in s'.pools :: s'.pools[f].deviceNumber == s.pools[f].deviceNumber)
            && s'.pods == s.pods[k := PodIP(ip, s.pools[e].deviceNumber)]
            && s'.assignedTotal == s.assignedTotal + 1
  {
  }

  lemma GrowPlaced(s: Store, s': Store, k: PodKey, e: EniId, ip: IP)
    requires Placed(s) && e in s.pools
    requires s'.pods == s.pods[k := PodIP(ip, s.pools[e].deviceNumber)]
    requires forall f, i :: AssignedAt(s', f, i) <==> AssignedAt(s, f, i) || (f == e && i == ip)
    requires forall f | f in s.pools && f in s'.pools :: s'.pools[f].deviceNumber == s.pools[f].deviceNumber
    ensures Placed(s')
  {
    forall j | j in s'.pods
      ensures exists f :: Holds(s', f, s'.pods[j])
    {
      if j == k {
        assert AssignedAt(s', e, ip);
        assert Holds(s', e, s'.pods[k]);
      } else {
        var f :| Holds(s, f, s.pods[j]);
        assert Holds(s', f, s'.pods[j]);
      }
    }
  }

  lemma GrowCovered(s: Store, s': Store, k: PodKey, e: EniId, info: PodIP)
    requires Covered(s) && k !in s.pods && s'.pods == s.pods[k := info]
    requires forall f, i | AssignedAt(s', f, i) :: AssignedAt(s, f, i) || (f == e && i == info.ip)
    ensures Covered(s')
  {
    forall f, i | AssignedAt(s', f, i)
      ensures HasPod(s', i)
    {
      if AssignedAt(s, f, i) {
        assert HasPod(s, i);
        var j :| j in s.pods && s.pods[j].ip == i;
        assert j in s'.pods && s'.pods[j].ip == i;
      } else {
        assert k in s'.pods && s'.pods[k].ip == i;
      }
    }
  }

  lemma GrowInjective(s: Store, k: PodKey, info: PodIP)
    requires Injective(s.pods) && !HasPod(s, info.ip) && k !in s.pods
    ensures Injective(s.pods[k := info]) && |s.pods[k := info]| == |s.pods| + 1
  {
    forall j | j in s.pods
      ensures s.pods[j].ip != info.ip
    {
    }
    assert s.pods[k := info].Keys == s.pods.Keys + {k};
  }

  /** Indexing one more pod along with one more assigned slot keeps the bijection. */
  lemma GrowIndex(s: Store, s': Store, k: PodKey, e: EniId, ip: IP)
    requires Index(s) && UniqueIPs(s) && !HasPod(s, ip) && k !in s.pods && e in s.pools
    requires s'.pods == s.pods[k := PodIP(ip, s.pools[e].deviceNumber)] && s'.assignedTotal == s.assignedTotal + 1
    requires forall f, i :: InPool(s', f, i) <==> InPool(s, f, i)
    requires forall f, i :: AssignedAt(s', f, i) <==> AssignedAt(s, f, i) || (f == e && i == ip)
    requires forall f | f in s.pools && f in s'.pools :: s'.pools[f].deviceNumber == s.pools[f].deviceNumber
    ensures Index(s') && UniqueIPs(s')
  {
    FewerSlotsUnique(s, s');
    GrowPlaced(s, s', k, e, ip);
    GrowCovered(s, s', k, e, s'.pods[k]);
    GrowInjective(s, k, s'.pods[k]);
  }

  /** Taking a free address for a pod that is not indexed yet. */
  lemma TakeSound(s: Store, k: PodKey, e: EniId, ip: IP)
    requires Sound(s) && InPool(s, e, ip) && !AssignedAt(s, e, ip) && k !in s.pods
    ensures Sound(Take(s, k, e, ip)) && SlotsWithin(Take(s, k, e, ip), s)
  {
    var s' := Take(s, k, e, ip);
    TakeCounters(s, k, e, ip);
    TakeSlots(s, k, e, ip);
    FreeHasNoPod(s, e, ip);
    GrowIndex(s, s', k, e, ip);
  }

  lemma FreeHasNoPod(s: Store, e: EniId, ip: IP)
    requires Sound(s) && InPool(s, e, ip) && !AssignedAt(s, e, ip)
    ensures !HasPod(s, ip)
  {
    forall j | j in s.pods
      ensures s.pods[j].ip != ip
    {
      var f :| Holds(s, f, s.pods[j]);
      assert InPool(s, f, s.pods[j].ip);
    }
  }

  /** Recovering a pod onto an address that is already assigned is what breaks the index, and nothing else does. */
  lemma TakeSoundIff(s: Store, k: PodKey, e: EniId, ip: IP)
    requires Sound(s) && InPool(s, e, ip) && k !in s.pods
    ensures Sound(Take(s, k, e, ip)) <==> !AssignedAt(s, e, ip)
    ensures SlotsWithin(Take(s, k, e, ip), s)
  {
    if AssignedAt(s, e, ip) {
      var s' := Take(s, k, e, ip);
      assert PoolOk(e, s.pools[e]);
      assert HasPod(s, ip);
      var j :| j in s.pods && s.pods[j].ip == ip;
      assert j in s'.pods && k in s'.pods && s'.pods[j].ip == s'.pods[k].ip;
    } else {
      TakeSound(s, k, e, ip);
    }
  }

  lemma GiveBackSlots(s: Store, k: PodKey, e: EniId, ip: IP, now: Time)
    requires AssignedAt(s, e, ip)
    ensures var s' := GiveBack(s, k, e, ip, now);
            && (forall f, i :: InPool(s', f, i) <==> InPool(s, f, i))
            && (forall f, i :: AssignedAt(s', f, i) <==> AssignedAt(s, f, i) && !(f == e && i == ip))
            && (forall f | f in s.pools && f in s'.pools :: s'.pools[f].deviceNumber == s.pools[f].deviceNumber)
            && s'.pods == s.pods - {k} && s'.assignedTotal == s.assignedTotal - 1
  {
  }

  lemma ShrinkPlaced(s: Store, s': Store, k: PodKey, e: EniId)
    requires Placed(s) && Injective(s.pods) && k in s.pods && s'.pods == s.pods - {k}
    requires forall f, i :: AssignedAt(s', f, i) <==> AssignedAt(s, f, i) && !(f == e && i == s.pods[k].ip)
    requires forall f | f in s.pools && f in s'.pools :: s'.pools[f].deviceNumber == s.pools[f].deviceNumber
    ensures Placed(s')
  {
    forall j | j in s'.pods
      ensures exists f :: Holds(s', f, s'.pods[j])
    {
      var f :| Holds(s, f, s.pods[j]);
      assert Holds(s', f, s'.pods[j]);
    }
  }

  lemma ShrinkCovered(s: Store, s': Store, k: PodKey, e: EniId)
    requires Covered(s) && UniqueIPs(s) && k in s.pods && s'.pods == s.pods - {k} && AssignedAt(s, e, s.pods[k].ip)
    requires forall f, i :: AssignedAt(s', f, i) <==> AssignedAt(s, f, i) && !(f == e && i == s.pods[k].ip)
    ensures Covered(s')
  {
    forall f, i | AssignedAt(s', f, i)
      ensures HasPod(s', i)
    {
      assert HasPod(s, i);
      var j :| j in s.pods && s.pods[j].ip == i;
      assert InPool(s, e, s.pods[k].ip) && InPool(s, f, i);
      assert j in s'.pods && s'.pods[j].ip == i;
    }
  }

  lemma ShrinkInjective(s: Store, s': Store, k: PodKey)
    requires Injective(s.pods) && k in s.pods && s'.pods == s.pods - {k}
    ensures Injective(s'.pods) && |s'.pods| == |s.pods| - 1 && !HasPod(s', s.pods[k].ip)
  {
    assert s'.pods.Keys == s.pods.Keys - {k};
  }

  /** Dropping one pod along with its assigned slot keeps the bijection. */
  lemma ShrinkIndex(s: Store, s': Store, k: PodKey, e: EniId)
    requires Index(s) && UniqueIPs(s) && k in s.pods && AssignedAt(s, e, s.pods[k].ip)
    requires s'.pods == s.pods - {k} && s'.assignedTotal == s.assignedTotal - 1
    requires forall f, i :: AssignedAt(s', f, i) <==> AssignedAt(s, f, i) && !(f == e && i == s.pods[k].ip)
    requires forall f | f in s.pools && f in s'.pools :: s'.pools[f].deviceNumber == s.pools[f].deviceNumber
    ensures Index(s') && !HasPod(s', s.pods[k].ip)
  {
    ShrinkPlaced(s, s', k, e);
    ShrinkCovered(s, s', k, e);
    ShrinkInjective(s, s', k);
  }

  lemma GiveBackSound(s: Store, k: PodKey, e: EniId, now: Time)
    requires Sound(s) && k in s.pods && AssignedAt(s, e, s.pods[k].ip)
    ensures Sound(GiveBack(s, k, e, s.pods[k].ip, now)) && SlotsWithin(GiveBack(s, k, e, s.pods[k].ip, now), s)
    ensures !HasPod(GiveBack(s, k, e, s.pods[k].ip, now), s.pods[k].ip)
  {
    var ip := s.pods[k].ip;
    var s' := GiveBack(s, k, e, ip, now);
    GiveBackCounters(s, k, e, ip, now);
    GiveBackSlots(s, k, e, ip, now);
    FewerSlotsUnique(s, s');
    ShrinkIndex(s, s', k, e);
  }

  // ----- Consequences for allocation -----

  /**
   * Skipping full ENIs loses nothing: a request without an address can be served from a slot exactly when the slot
   * is free and has cooled down.
   */
  lemma EligibleIsFreeAndCooled(s: Store, now: Time, e: EniId, ip: IP)
    requires Counters(s) && UniqueIPs(s)
    ensures Eligible(s, "", now, e, ip) <==>
            InPool(s, e, ip) && !AssignedAt(s, e, ip)
            && now - s.pools[e].addresses[ip].unassignedTime > ADDRESS_COOLING_PERIOD
  {
    if InPool(s, e, ip) {
      var p := s.pools[e];
      assert PoolOk(e, p);
      AssignedIsSubset(p);
      if !p.addresses[ip].isAssigned {
        assert ip in p.addresses.Keys && ip !in AssignedIn(p);
      }
    }
  }

  /** An unknown pod without an address is turned away exactly when every address is assigned or still cooling. */
  lemma RefusedIffAllBusyOrCooling(s: Store, k: PodKey, now: Time, s': Store, r: Reply)
    requires Sound(s) && k !in s.pods && AssignPod(s, PodInfo(k, ""), now, s', r)
    ensures r.Refused? <==>
            forall e, ip | InPool(s, e, ip) ::
              AssignedAt(s, e, ip) || now - s.pools[e].addresses[ip].unassignedTime <= 30 * SECOND
    ensures r.Refused? ==> s' == s && r.reason == NoAvailableAddress
  {
    forall e, ip
      ensures Eligible(s, "", now, e, ip) <==>
              InPool(s, e, ip) && !AssignedAt(s, e, ip)
              && now - s.pools[e].addresses[ip].unassignedTime > ADDRESS_COOLING_PERIOD
    {
      EligibleIsFreeAndCooled(s, now, e, ip);
    }
    if r.Granted? {
      var e, ip :| GrantedFrom(s, PodInfo(k, ""), now, s', r, e, ip);
      assert InPool(s, e, ip);
    }
  }

  /** A granted address comes from a slot that was free and cooled down. */
  lemma AssignPodTakes(s: Store, k: PodKey, now: Time, s': Store, r: Reply)
    requires Sound(s) && AssignPod(s, PodInfo(k, ""), now, s', r) && r.Granted?
    ensures k !in s.pods
    ensures exists e :: Eligible(s, "", now, e, r.ip) && !AssignedAt(s, e, r.ip) && s' == Take(s, k, e, r.ip)
                        && s.pools[e].deviceNumber == r.deviceNumber
  {
    var e, ip :| GrantedFrom(s, PodInfo(k, ""), now, s', r, e, ip);
    EligibleIsFreeAndCooled(s, now, e, ip);
    assert PoolOk(e, s.pools[e]);
    assert Eligible(s, "", now, e, r.ip);
  }

  /** A granted address was nobody's before and is held by this pod alone afterwards. */
  lemma AssignPodSound(s: Store, k: PodKey, now: Time, s': Store, r: Reply)
    requires Sound(s) && AssignPod(s, PodInfo(k, ""), now, s', r)
    ensures Sound(s') && SlotsWithin(s', s)
    ensures r.Granted? ==> k !in s.pods && !HasPod(s, r.ip) && s'.pods == s.pods[k := PodIP(r.ip, r.deviceNumber)]
    ensures r.Refused? ==> s' == s
  {
    if r.Granted? {
      AssignPodTakes(s, k, now, s', r);
      var e :| Eligible(s, "", now, e, r.ip) && !AssignedAt(s, e, r.ip) && s' == Take(s, k, e, r.ip)
               && s.pools[e].deviceNumber == r.deviceNumber;
      TakeForNewPod(s, k, e, r.ip, s');
    }
  }

  lemma TakeForNewPod(s: Store, k: PodKey, e: EniId, ip: IP, s': Store)
    requires Sound(s) && InPool(s, e, ip) && !AssignedAt(s, e, ip) && k !in s.pods && s' == Take(s, k, e, ip)
    ensures Sound(s') && SlotsWithin(s', s)
    ensures s'.pods == s.pods[k := PodIP(ip, s.pools[e].deviceNumber)] && !HasPod(s, ip)
  {
    TakeSound(s, k, e, ip);
    TakeSlots(s, k, e, ip);
    FreeHasNoPod(s, e, ip);
  }

  lemma TakeForUnheld(s: Store, k: PodKey, e: EniId, ip: IP, s': Store)
    requires Sound(s) && InPool(s, e, ip) && !HasPod(s, ip) && k !in s.pods && s' == Take(s, k, e, ip)
    ensures Sound(s') && SlotsWithin(s', s)
    ensures forall j | j in s.pods :: j in s'.pods && s'.pods[j] == s.pods[j]
  {
    assert !AssignedAt(s, e, ip);
    TakeForNewPod(s, k, e, ip, s');
  }

  lemma RecoverPodTakes(s: Store, pod: PodInfo, now: Time, s': Store, r: Reply)
    requires Sound(s) && pod.ip != "" && AssignPod(s, pod, now, s', r) && s' != s
    ensures pod.key !in s.pods
    ensures exists e :: InPool(s, e, pod.ip) && s' == Take(s, pod.key, e, pod.ip)
  {
    var e, ip :| GrantedFrom(s, pod, now, s', r, e, ip);
    assert PoolOk(e, s.pools[e]);
    assert InPool(s, e, pod.ip);
  }

  /** Recovery after a restart keeps the store sound when the pod's address is not assigned yet. */
  lemma RecoverPodSound(s: Store, pod: PodInfo, now: Time, s': Store, r: Reply)
    requires Sound(s) && pod.ip != "" && AssignPod(s, pod, now, s', r)
    requires pod.key !in s.pods ==> !HasPod(s, pod.ip)
    ensures Sound(s') && SlotsWithin(s', s)
    ensures forall k | k in s.pods :: k in s'.pods && s'.pods[k] == s.pods[k]
  {
    if s' != s {
      RecoverPodTakes(s, pod, now, s', r);
      var e :| InPool(s, e, pod.ip) && s' == Take(s, pod.key, e, pod.ip);
      TakeForUnheld(s, pod.key, e, pod.ip, s');
    }
  }

  /** The slot that a request naming an address is served from: whichever ENI has the address, full or not. */
  lemma NamedIsEligible(s: Store, want: IP, now: Time, e: EniId, ip: IP)
    requires Counters(s) && UniqueIPs(s) && want != ""
    ensures Eligible(s, want, now, e, ip) <==> InPool(s, e, ip) && ip == want
  {
    if InPool(s, e, ip) {
      assert PoolOk(e, s.pools[e]);
    }
  }

  /**
   * Recovery of a pod the index does not know: it is granted exactly when some ENI has its address, with the device
   * number of that ENI, and the slot is then assigned and indexed.
   */
  lemma RecoveredIff(s: Store, pod: PodInfo, now: Time, s': Store, r: Reply)
    requires Sound(s) && pod.ip != "" && pod.key !in s.pods && AssignPod(s, pod, now, s', r)
    ensures r.Granted? <==> InStore(s, pod.ip)
    ensures r.Refused? ==> s' == s && r.reason == NoAvailableAddress
    ensures forall e | InPool(s, e, pod.ip) ::
              && r == Granted(pod.ip, s.pools[e].deviceNumber)
              && AssignedAt(s', e, pod.ip)
              && s'.pods == s.pods[pod.key := PodIP(pod.ip, s.pools[e].deviceNumber)]
  {
    forall e, ip
      ensures Eligible(s, pod.ip, now, e, ip) <==> InPool(s, e, ip) && ip == pod.ip
    {
      NamedIsEligible(s, pod.ip, now, e, ip);
    }
    if r.Granted? {
      var f, ip :| GrantedFrom(s, pod, now, s', r, f, ip);
      assert PoolOk(f, s.pools[f]) && InPool(s, f, pod.ip);
      forall e | InPool(s, e, pod.ip)
        ensures e == f
      {
      }
    } else {
      assert forall e :: !Eligible(s, pod.ip, now, e, pod.ip);
    }
  }

  /** A pod that is indexed already is told what is on record if it names that address, and is refused otherwise. */
  lemma KnownPodAnswer(s: Store, pod: PodInfo, now: Time, s': Store, r: Reply)
    requires Sound(s) && pod.key in s.pods && AssignPod(s, pod, now, s', r)
    ensures s' == s
    ensures r.Granted? <==> s.pods[pod.key].ip == pod.ip
    ensures r.Granted? ==> r.ip == pod.ip && r.deviceNumber == s.pods[pod.key].deviceNumber
  {
    var e :| Holds(s, e, s.pods[pod.key]);
    assert InPool(s, e, s.pods[pod.key].ip);
  }

  /** Whoever is granted an address is told the device number of the ENI that has it. */
  lemma GrantTellsDevice(s: Store, k: PodKey, now: Time, s': Store, r: Reply, e: EniId)
    requires Sound(s) && AssignPod(s, PodInfo(k, ""), now, s', r) && r.Granted? && InPool(s, e, r.ip)
    ensures r.deviceNumber == s.pools[e].deviceNumber
  {
    AssignPodTakes(s, k, now, s', r);
    var f :| Eligible(s, "", now, f, r.ip) && !AssignedAt(s, f, r.ip) && s' == Take(s, k, f, r.ip)
             && s.pools[f].deviceNumber == r.deviceNumber;
    assert InPool(s, f, r.ip);
  }

  lemma UnassignPodGivesBack(s: Store, k: PodKey, now: Time, s': Store, r: Reply)
    requires Sound(s) && UnassignPod(s, k, now, s', r) && k in s.pods
    ensures r == Granted(s.pods[k].ip, s.pods[k].deviceNumber)
    ensures exists e :: Holds(s, e, s.pods[k]) && s' == GiveBack(s, k, e, s.pods[k].ip, now)
  {
    var f :| Holds(s, f, s.pods[k]);
    var e :| ReleasedFrom(s, k, now, s', r, e);
    assert InPool(s, e, s.pods[k].ip) && InPool(s, f, s.pods[k].ip);
    assert PoolOk(e, s.pools[e]);
    assert Holds(s, e, s.pods[k]);
  }

  /** A pod of a sound store is always released, and gets back the address and device number it was given. */
  lemma UnassignPodSound(s: Store, k: PodKey, now: Time, s': Store, r: Reply)
    requires Sound(s) && UnassignPod(s, k, now, s', r)
    ensures Sound(s') && SlotsWithin(s', s) && s'.pods == s.pods - {k}
    ensures k in s.pods ==> r == Granted(s.pods[k].ip, s.pods[k].deviceNumber) && !HasPod(s', s.pods[k].ip)
    ensures k !in s.pods ==> r == Refused(UnknownPod) && s' == s
  {
    if k in s.pods {
      UnassignPodGivesBack(s, k, now, s', r);
      var e :| Holds(s, e, s.pods[k]) && s' == GiveBack(s, k, e, s.pods[k].ip, now);
      GiveBackSound(s, k, e, now);
    }
  }

  /**
   * With a warm-IP target, an ENI that is removed is secondary, podless, past its minimum life and out of cooling,
   * and the addresses that stay available still meet the target.
   */
  lemma RemoveUnusedKeepsTarget(s: Store, warmIPTarget: int, now: Time, s': Store, removed: EniId)
    requires Sound(s) && RemoveUnused(s, warmIPTarget, now, s', removed) && s' != s
    ensures removed in s.pools && !s.pools[removed].isPrimary && AssignedIn(s.pools[removed]) == {}
    ensures now - s.pools[removed].createTime >= MIN_LIFE_TIME
    ensures now - s.pools[removed].lastUnassignedTime >= ENI_COOLING_PERIOD
    ensures Sound(s') && s'.pods == s.pods
    ensures warmIPTarget != 0 ==> Available(s') >= warmIPTarget
    ensures Available(s') == Available(s) - |s.pools[removed].addresses|
    ensures forall ip | ip in s.pools[removed].addresses :: !HasPod(s', ip)
  {
    assert PoolOk(removed, s.pools[removed]);
    DropENISound(s, removed);
    CountersBounds(s');
  }

  /**
   * Nothing is removed exactly when every ENI is primary, younger than a minute, has had an address released within the
   * last minute, carries pods, or is needed for the warm-IP target.
   */
  lemma NothingRemovedIff(s: Store, warmIPTarget: int, now: Time, s': Store, removed: EniId)
    requires Sound(s) && RemoveUnused(s, warmIPTarget, now, s', removed)
    ensures s' == s <==>
            forall e | e in s.pools ::
              || s.pools[e].isPrimary
              || now - s.pools[e].createTime < 60 * SECOND
              || now - s.pools[e].lastUnassignedTime < 60 * SECOND
              || AssignedIn(s.pools[e]) != {}
              || (warmIPTarget != 0 && Available(s) - |s.pools[e].addresses| < warmIPTarget)
  {
    forall e | e in s.pools
      ensures Deletable(s, warmIPTarget, now, e) <==>
              && !s.pools[e].isPrimary && now - s.pools[e].createTime >= 60 * SECOND
              && now - s.pools[e].lastUnassignedTime >= 60 * SECOND && AssignedIn(s.pools[e]) == {}
              && (warmIPTarget == 0 || Available(s) - |s.pools[e].addresses| >= warmIPTarget)
    {
      DeletableIff(s, warmIPTarget, now, e);
    }
  }

  lemma DeletableIff(s: Store, warmIPTarget: int, now: Time, e: EniId)
    requires Counters(s) && e in s.pools
    ensures Deletable(s, warmIPTarget, now, e) <==>
            && !s.pools[e].isPrimary && now - s.pools[e].createTime >= 60 * SECOND
            && now - s.pools[e].lastUnassignedTime >= 60 * SECOND && AssignedIn(s.pools[e]) == {}
            && (warmIPTarget == 0 || Available(s) - |s.pools[e].addresses| >= warmIPTarget)
  {
    assert PoolOk(e, s.pools[e]);
    CountersBounds(s);
    SumRemove(s.pools, e, PoolFree);
  }

  // ----- Pod names -----

  /** The key under which a pod is listed for introspection and for finding freeable addresses. */
  function PodName(k: PodKey): string {
    k.name + "_" + k.namespace + "_" + k.container
  }

  predicate NoUnderscore(k: PodKey) {
    '_' !in k.name && '_' !in k.namespace
  }

  ghost predicate DistinctNames(pods: map<PodKey, PodIP>) {
    forall j, k | j in pods && k in pods && PodName(j) == PodName(k) :: j == k
  }

  lemma SplitAtUnderscore(a: string, x: string, b: string, y: string)
    requires '_' !in a && '_' !in b && a + "_" + x == b + "_" + y
    ensures a == b && x == y
  {
    var l, r := a + "_" + x, b + "_" + y;
    assert l[|a|] == '_' && r[|b|] == '_';
    assert forall i | 0 <= i < |a| :: l[i] == a[i];
    assert forall i | 0 <= i < |b| :: r[i] == b[i];
    assert |a| == |b|;
    assert l[..|a|] == a && r[..|b|] == b;
    assert l[|a| + 1..] == x && r[|b| + 1..] == y;
  }

  /** Without underscores in name and namespace, as Kubernetes guarantees, names identify pods. */
  lemma CleanNamesDistinct(pods: map<PodKey, PodIP>)
    requires forall k | k in pods :: NoUnderscore(k)
    ensures DistinctNames(pods)
  {
    forall j, k | j in pods && k in pods && PodName(j) == PodName(k)
      ensures j == k
    {
      assert PodName(j) == j.name + "_" + (j.namespace + "_" + j.container);
      assert PodName(k) == k.name + "_" + (k.namespace + "_" + k.container);
      SplitAtUnderscore(j.name, j.namespace + "_" + j.container, k.name, k.namespace + "_" + k.container);
      SplitAtUnderscore(j.namespace, j.container, k.namespace, k.container);
    }
  }

  /** With underscores two pods can share a name, and one of them is then missing from the listing. */
  lemma UnderscoresCollide()
    ensures PodName(PodKey("a_b", "c", "d")) == PodName(PodKey("a", "b_c", "d"))
    ensures PodKey("a_b", "c", "d") != PodKey("a", "b_c", "d")
  {
    assert "a_b" + "_" + "c" + "_" + "d" == "a" + "_" + "b_c" + "_" + "d";
    assert |"a_b"| != |"a"|;
  }
}
