/** An address that a pod gave up rests for the cooling period, even when it leaves the store and comes back. */
module Cooling {
  import opened Types
  import opened AddressStore
  import opened Daemon

  ghost predicate Cooled(d: State, ip: IP) {
    ip in d.released ==> d.now > d.released[ip] + ADDRESS_COOLING_PERIOD
  }

  /** Deleted by the shrinking manager but not yet entered in the cooldown cache. */
  function Unrecorded(m: Manager): set<IP> {
    match m
    case Deleting(_, _, deleted) => set ip | ip in deleted
    case Recording(deleted) => set ip | ip in deleted
    case _ => {}
  }

  /** The cooldown cache itself keeps the address away until it has rested. */
  ghost predicate Recorded(d: State, ip: IP) {
    ip in d.cache && (ip in d.released ==> d.cache[ip] > d.released[ip] + ADDRESS_COOLING_PERIOD)
  }

  /** Where the memory of the release is kept: in the slot, in the manager's hands, or in the cooldown cache. */
  ghost predicate Remembered(d: State, ip: IP)
    requires ip in d.released
  {
    (forall e | InPool(d.store, e, ip) :: d.store.pools[e].addresses[ip].unassignedTime == d.released[ip])
    && (!InStore(d.store, ip) ==> ip in Unrecorded(d.mgr) || Recorded(d, ip))
  }

  /** Time stamps never run ahead of the clock, nor an address ahead of its ENI. */
  ghost predicate Stamps(d: State) {
    0 <= d.now
    && (forall ip | ip in d.released :: d.released[ip] <= d.now)
    && (forall e | e in d.store.pools :: 0 <= d.store.pools[e].lastUnassignedTime <= d.now)
    && (forall e, ip | InPool(d.store, e, ip) ::
          d.store.pools[e].addresses[ip].unassignedTime <= d.store.pools[e].lastUnassignedTime)
  }

  ghost predicate Resting(d: State) {
    (forall ip | ip in d.released :: Cooled(d, ip) || Remembered(d, ip))
    && (d.mgr.Admitting? ==> Cooled(d, d.mgr.ip) || InStore(d.store, d.mgr.ip))
  }

  ghost predicate CoolInv(d: State) {
    Safe(d) && Stamps(d) && Resting(d)
  }

  /**
   * Two ways in and out of the store do not consult the cooldown cache: addresses found while growing the pool or
   * setting up an ENI, and addresses or ENIs swept because the metadata service no longer reports them. A step is
   * cool when no address it moves that way is still resting (or when the cache happens to hold a swept one).
   */
  ghost predicate CoolStep(d: State, step: Step) {
    match step
    case PoolAdd(e, ip) => AddIP(d.store, e, ip).1 == Success ==> Cooled(d, ip)
    case SweepIP(e, ip) => DelIP(d.store, e, ip).1 == Success ==> Cooled(d, ip) || Recorded(d, ip)
    case SweepENI(e) =>
      RemoveENI(d.store, e).1 == Success ==>
        forall ip | ip in d.store.pools[e].addresses :: Cooled(d, ip) || Recorded(d, ip)
    case _ => true
  }

  ghost predicate CoolRun(ds: seq<State>, steps: seq<Step>) {
    Run(ds, steps) && forall i | 0 <= i < |steps| :: CoolStep(ds[i], steps[i])
  }

  // ----- Each step keeps the invariant -----

  /** Every slot of `s'` is one of `s` with the same stamp. */
  ghost predicate SameSlotStamps(s: Store, s': Store) {
    forall e, ip | InPool(s', e, ip) ::
      InPool(s, e, ip) && s'.pools[e].addresses[ip].unassignedTime == s.pools[e].addresses[ip].unassignedTime
  }

  /** And so is every ENI. */
  ghost predicate SameStamps(s: Store, s': Store) {
    SameSlotStamps(s, s')
    && forall e | e in s'.pools :: e in s.pools && s'.pools[e].lastUnassignedTime == s.pools[e].lastUnassignedTime
  }

  lemma SameStampsStamps(d: State, d': State)
    requires Stamps(d) && d'.now >= d.now && d'.released == d.released && SameStamps(d.store, d'.store)
    ensures Stamps(d')
  {
  }

  /** A step that moves no slot, no record and no history keeps every address resting. */
  lemma SameSlotsRest(d: State, d': State)
    requires Resting(d) && d'.now >= d.now && d'.released == d.released && d'.cache == d.cache && d'.mgr == d.mgr
    requires SameSlotStamps(d.store, d'.store) && SlotsWithin(d.store, d'.store)
    ensures Resting(d')
  {
    forall ip | ip in d'.released
      ensures Cooled(d', ip) || Remembered(d', ip)
    {
      assert Cooled(d, ip) || Remembered(d, ip);
      assert InStore(d.store, ip) ==> InStore(d'.store, ip);
    }
  }

  /** A step outside the store only has to keep the memory of addresses that are not in the store. */
  lemma OutsideRests(d: State, d': State)
    requires Stamps(d) && Resting(d) && d'.store == d.store && d'.released == d.released && d.now <= d'.now
    requires forall ip | ip in d.released && !Cooled(d, ip) && !InStore(d.store, ip) ::
               ip in Unrecorded(d'.mgr) || Recorded(d', ip)
    requires d'.mgr.Admitting? ==> Cooled(d', d'.mgr.ip) || InStore(d'.store, d'.mgr.ip)
    ensures Stamps(d') && Resting(d')
  {
    forall ip | ip in d'.released
      ensures Cooled(d', ip) || Remembered(d', ip)
    {
      assert Cooled(d, ip) || Remembered(d, ip);
    }
  }

  lemma TakeStamps(s: Store, k: PodKey, e: EniId, ip: IP)
    requires InPool(s, e, ip)
    ensures SameStamps(s, Take(s, k, e, ip)) && SlotsWithin(s, Take(s, k, e, ip))
  {
  }

  lemma AddNetworkRests(d: State, k: PodKey, r: Reply, d': State)
    requires CoolInv(d) && Next(d, AddNetwork(k, r), d')
    ensures Stamps(d') && Resting(d')
    ensures r.Granted? ==> Cooled(d, r.ip)
  {
    if r.Granted? {
      AssignPodTakes(d.store, k, d.now, d'.store, r);
      var e :| Eligible(d.store, "", d.now, e, r.ip) && !AssignedAt(d.store, e, r.ip)
               && d'.store == Take(d.store, k, e, r.ip) && d.store.pools[e].deviceNumber == r.deviceNumber;
      TakeStamps(d.store, k, e, r.ip);
      SameStampsStamps(d, d');
      SameSlotsRest(d, d');
      GrantIsCooled(d, e, r.ip);
    }
  }

  /** A slot that fits a request without an address has rested. */
  lemma GrantIsCooled(d: State, e: EniId, ip: IP)
    requires CoolInv(d) && Eligible(d.store, "", d.now, e, ip)
    ensures Cooled(d, ip)
  {
    EligibleIsFreeAndCooled(d.store, d.now, e, ip);
    assert ip in d.released ==> Cooled(d, ip) || Remembered(d, ip);
  }

  lemma RecoverRests(d: State, pod: PodInfo, r: Reply, d': State)
    requires CoolInv(d) && Next(d, Recover(pod, r), d')
    ensures Stamps(d') && Resting(d')
  {
    if d'.store != d.store {
      RecoverPodTakes(d.store, pod, d.now, d'.store, r);
      var e :| InPool(d.store, e, pod.ip) && d'.store == Take(d.store, pod.key, e, pod.ip);
      TakeStamps(d.store, pod.key, e, pod.ip);
      SameStampsStamps(d, d');
      SameSlotsRest(d, d');
    }
  }

  lemma GiveBackStamps(s: Store, k: PodKey, e: EniId, ip: IP, now: Time)
    requires AssignedAt(s, e, ip)
    ensures var s' := GiveBack(s, k, e, ip, now);
            && s'.pools[e].addresses[ip].unassignedTime == now && s'.pools[e].lastUnassignedTime == now
            && SlotsWithin(s', s) && SlotsWithin(s, s')
            && (forall f, i | InPool(s', f, i) && !(f == e && i == ip) ::
                  s'.pools[f].addresses[i].unassignedTime == s.pools[f].addresses[i].unassignedTime)
            && (forall f | f in s'.pools && f != e :: f in s.pools && s'.pools[f] == s.pools[f])
  {
  }

  /** Releasing an address writes the time of release into the slot. */
  lemma UnassignRests(d: State, k: PodKey, r: Reply, d': State)
    requires CoolInv(d) && Next(d, Unassign(k, r), d')
    ensures Stamps(d') && Resting(d')
  {
    UnassignPodSound(d.store, k, d.now, d'.store, r);
    if k in d.store.pods {
      UnassignPodGivesBack(d.store, k, d.now, d'.store, r);
      var e :| Holds(d.store, e, d.store.pods[k])
               && d'.store == GiveBack(d.store, k, e, d.store.pods[k].ip, d.now);
      GiveBackStamps(d.store, k, e, r.ip, d.now);
      ReleaseRests(d, e, r.ip, d');
    }
  }

  lemma ReleaseRests(d: State, e: EniId, ip: IP, d': State)
    requires UniqueIPs(d.store) && Stamps(d) && Resting(d) && InPool(d.store, e, ip)
    requires d' == d.(store := d'.store, released := d.released[ip := d.now])
    requires SlotsWithin(d'.store, d.store) && SlotsWithin(d.store, d'.store)
    requires forall f, i | InPool(d'.store, f, i) && !(f == e && i == ip) ::
               d'.store.pools[f].addresses[i].unassignedTime == d.store.pools[f].addresses[i].unassignedTime
    requires forall f | f in d'.store.pools && f != e :: f in d.store.pools && d'.store.pools[f] == d.store.pools[f]
    requires InPool(d'.store, e, ip) && d'.store.pools[e].addresses[ip].unassignedTime == d.now
    requires d'.store.pools[e].lastUnassignedTime == d.now
    ensures Stamps(d') && Resting(d')
  {
    forall i | i in d'.released
      ensures Cooled(d', i) || Remembered(d', i)
    {
      if i != ip {
        assert Cooled(d, i) || Remembered(d, i);
        assert InStore(d.store, i) ==> InStore(d'.store, i);
      } else {
        assert InStore(d'.store, ip);
      }
    }
    assert d'.mgr.Admitting? ==> (InStore(d.store, d'.mgr.ip) ==> InStore(d'.store, d'.mgr.ip));
    assert InStore(d'.store, ip);
  }

  // ----- Growing -----

  lemma AddENIStamps(s: Store, e: EniId, device: int, primary: bool, now: Time)
    ensures var s' := AddENI(s, e, device, primary, now).0;
            && (forall f | f in s'.pools && f !in s.pools :: s'.pools[f].lastUnassignedTime == ZERO_TIME)
            && (forall f | f in s.pools :: f in s'.pools && s'.pools[f] == s.pools[f])
            && SameSlotStamps(s, s')
  {
  }

  lemma AttachRests(d: State, e: EniId, device: int, primary: bool, d': State)
    requires Stamps(d) && Resting(d) && Next(d, AttachENI(e, device, primary), d')
    ensures Stamps(d') && Resting(d')
  {
    AddENISlots(d.store, e, device, primary, d.now);
    AddENIStamps(d.store, e, device, primary, d.now);
    SameSlotsRest(d, d');
  }

  lemma AddIPStamps(s: Store, e: EniId, ip: IP)
    requires AddIP(s, e, ip).1 == Success
    ensures var s' := AddIP(s, e, ip).0;
            && s'.pools[e].addresses[ip].unassignedTime == ZERO_TIME
            && (forall f | f in s'.pools :: f in s.pools && s'.pools[f].lastUnassignedTime == s.pools[f].lastUnassignedTime)
            && (forall f, i | InPool(s, f, i) :: InPool(s', f, i)
                  && s'.pools[f].addresses[i].unassignedTime == s.pools[f].addresses[i].unassignedTime)
  {
  }

  /** An address that has rested may come in with a blank stamp. */
  lemma AddCooled(d: State, e: EniId, ip: IP, d': State)
    requires Stamps(d) && Resting(d) && AddIP(d.store, e, ip).1 == Success && Cooled(d, ip)
    requires d'.store == AddIP(d.store, e, ip).0 && d'.now == d.now && d'.released == d.released
    requires d'.cache == d.cache && Unrecorded(d'.mgr) == Unrecorded(d.mgr) && !d'.mgr.Admitting?
    ensures Stamps(d') && Resting(d')
  {
    AddIPSlots(d.store, e, ip);
    AddIPStamps(d.store, e, ip);
    forall i | i in d'.released
      ensures Cooled(d', i) || Remembered(d', i)
    {
      assert Cooled(d, i) || Remembered(d, i);
      assert InStore(d.store, i) ==> InStore(d'.store, i);
    }
  }

  lemma PoolAddRests(d: State, e: EniId, ip: IP, d': State)
    requires Stamps(d) && Resting(d) && Next(d, PoolAdd(e, ip), d') && CoolStep(d, PoolAdd(e, ip))
    ensures Stamps(d') && Resting(d')
  {
    if AddIP(d.store, e, ip).1 == Success {
      AddCooled(d, e, ip, d');
    }
  }

  lemma AdmitRests(d: State, d': State)
    requires Stamps(d) && Resting(d) && Next(d, Admit, d')
    ensures Stamps(d') && Resting(d')
  {
    if AddIP(d.store, d.mgr.eni, d.mgr.ip).1 == Success {
      AddCooled(d, d.mgr.eni, d.mgr.ip, d');
    } else {
      OutsideRests(d, d');
    }
  }

  /** Passing the cooldown check means having rested, or still being in the store. */
  lemma CheckRests(d: State, e: EniId, ip: IP, verified: bool, d': State)
    requires Stamps(d) && Resting(d) && Next(d, CheckCooldown(e, ip, verified), d')
    ensures Stamps(d') && Resting(d')
  {
    OutsideRests(d, d');
  }

  // ----- Shrinking -----

  /** Slots that have rested, or whose release the manager still has in hand, may go. */
  lemma RemoveRests(d: State, d': State)
    requires Stamps(d) && Resting(d) && d.mgr.Admitting? == false && d'.mgr.Admitting? == false
    requires d'.now == d.now && d'.released == d.released && d'.cache == d.cache
    requires SameStamps(d.store, d'.store) && Unrecorded(d.mgr) <= Unrecorded(d'.mgr)
    requires forall ip | InStore(d.store, ip) && !InStore(d'.store, ip) ::
               Cooled(d, ip) || ip in Unrecorded(d'.mgr) || Recorded(d, ip)
    ensures Stamps(d') && Resting(d')
  {
    SameStampsStamps(d, d');
    forall i | i in d'.released
      ensures Cooled(d', i) || Remembered(d', i)
    {
      assert Cooled(d, i) || Remembered(d, i);
    }
  }

  lemma DelIPStamps(s: Store, e: EniId, ip: IP)
    ensures SameStamps(s, DelIP(s, e, ip).0)
    ensures DelIP(s, e, ip).1 != Success ==> DelIP(s, e, ip).0 == s
    ensures forall i | InStore(s, i) && !InStore(DelIP(s, e, ip).0, i) :: i == ip
  {
    var s' := DelIP(s, e, ip).0;
    forall i | InStore(s, i) && i != ip
      ensures InStore(s', i)
    {
      var f :| InPool(s, f, i);
      assert InPool(s', f, i);
    }
  }

  lemma DeleteRests(d: State, d': State)
    requires Stamps(d) && Resting(d) && Next(d, DeleteNext, d')
    ensures Stamps(d') && Resting(d')
  {
    DelIPStamps(d.store, d.mgr.eni, d.mgr.todo[0]);
    RemoveRests(d, d');
  }

  lemma SweepIPRests(d: State, e: EniId, ip: IP, d': State)
    requires Stamps(d) && Resting(d) && Next(d, SweepIP(e, ip), d') && CoolStep(d, SweepIP(e, ip))
    ensures Stamps(d') && Resting(d')
  {
    DelIPStamps(d.store, e, ip);
    RemoveRests(d, d');
  }

  lemma DropStamps(s: Store, e: EniId)
    requires e in s.pools
    ensures SameStamps(s, DropENI(s, e))
    ensures forall i | InStore(s, i) && !InStore(DropENI(s, e), i) :: i in s.pools[e].addresses
  {
    var s' := DropENI(s, e);
    forall i | InStore(s, i) && i !in s.pools[e].addresses
      ensures InStore(s', i)
    {
      var f :| InPool(s, f, i);
      assert InPool(s', f, i);
    }
  }

  lemma SweepENIRests(d: State, e: EniId, d': State)
    requires Stamps(d) && Resting(d) && Next(d, SweepENI(e), d') && CoolStep(d, SweepENI(e))
    ensures Stamps(d') && Resting(d')
  {
    if RemoveENI(d.store, e).1 == Success {
      DropStamps(d.store, e);
      RemoveRests(d, d');
    }
  }

  /** An ENI past its own cooling period carries no address that is still resting. */
  lemma RemovableIsCooled(d: State, target: int, e: EniId)
    requires Stamps(d) && Resting(d) && Deletable(d.store, target, d.now, e)
    ensures forall ip | ip in d.store.pools[e].addresses :: Cooled(d, ip)
  {
    forall ip | ip in d.store.pools[e].addresses
      ensures Cooled(d, ip)
    {
      assert InPool(d.store, e, ip);
      assert ip in d.released ==> Cooled(d, ip) || Remembered(d, ip);
    }
  }

  lemma RemoveUnusedRests(d: State, target: int, e: EniId, d': State)
    requires Stamps(d) && Resting(d) && Next(d, RemoveUnusedENI(target, e), d')
    ensures Stamps(d') && Resting(d')
  {
    if Deletable(d.store, target, d.now, e) && d'.store == DropENI(d.store, e) {
      RemovableIsCooled(d, target, e);
      DropStamps(d.store, e);
      RemoveRests(d, d');
    }
  }

  // ----- Steps outside the store -----

  lemma RecordRests(d: State, d': State)
    requires Stamps(d) && Resting(d) && Next(d, RecordCooldown, d')
    ensures Stamps(d') && Resting(d')
  {
    OutsideRests(d, d');
  }

  lemma LocalRests(d: State, step: Step, d': State)
    requires Stamps(d) && Resting(d) && Next(d, step, d')
    requires step.Tick? || step.Plan? || step.DeallocIPAddresses? || step.FreeENI?
    ensures Stamps(d') && Resting(d')
  {
    assert d'.store == d.store && d'.cache == d.cache && d'.released == d.released && d.now <= d'.now;
    assert Unrecorded(d'.mgr) == Unrecorded(d.mgr);
    OutsideRests(d, d');
  }

  lemma CoolInvStep(d: State, step: Step, d': State)
    requires CoolInv(d) && Next(d, step, d') && CoolStep(d, step)
    ensures CoolInv(d')
  {
    SafeStep(d, step, d');
    match step
    case AddNetwork(k, r) => AddNetworkRests(d, k, r, d');
    case Unassign(k, r) => UnassignRests(d, k, r, d');
    case Recover(pod, r) => RecoverRests(d, pod, r, d');
    case AttachENI(e, device, primary) => AttachRests(d, e, device, primary, d');
    case PoolAdd(e, ip) => PoolAddRests(d, e, ip, d');
    case Admit => AdmitRests(d, d');
    case CheckCooldown(e, ip, verified) => CheckRests(d, e, ip, verified, d');
    case DeleteNext => DeleteRests(d, d');
    case RemoveUnusedENI(target, e) => RemoveUnusedRests(d, target, e, d');
    case SweepIP(e, ip) => SweepIPRests(d, e, ip, d');
    case SweepENI(e) => SweepENIRests(d, e, d');
    case RecordCooldown => RecordRests(d, d');
    case _ => LocalRests(d, step, d');
  }

  lemma {:induction false} CoolInvRun(ds: seq<State>, steps: seq<Step>, i: nat)
    requires CoolRun(ds, steps) && i < |ds|
    ensures CoolInv(ds[i])
  {
    if i > 0 {
      CoolInvRun(ds, steps, i - 1);
      assert CoolStep(ds[i - 1], steps[i - 1]);
      CoolInvStep(ds[i - 1], steps[i - 1], ds[i]);
    } else {
      EmptySound();
    }
  }

  // ----- The theorem -----

  /** The address was last released at `t` or later. */
  predicate ReleasedSince(d: State, ip: IP, t: Time) {
    ip in d.released && d.released[ip] >= t && d.now >= t
  }

  lemma HistoryStep(d: State, step: Step, d': State, ip: IP, t: Time)
    requires Next(d, step, d') && ReleasedSince(d, ip, t)
    ensures ReleasedSince(d', ip, t)
  {
  }

  lemma HistoryNext(ds: seq<State>, steps: seq<Step>, i: nat, ip: IP, t: Time)
    requires Run(ds, steps) && i < |steps| && ReleasedSince(ds[i], ip, t)
    ensures ReleasedSince(ds[i + 1], ip, t)
  {
    HistoryStep(ds[i], steps[i], ds[i + 1], ip, t);
  }

  lemma {:induction false} HistoryRun(ds: seq<State>, steps: seq<Step>, i: nat, j: nat, ip: IP, t: Time)
    requires Run(ds, steps) && i <= j < |ds| && ReleasedSince(ds[i], ip, t)
    ensures ReleasedSince(ds[j], ip, t)
    decreases j - i
  {
    if i < j {
      HistoryRun(ds, steps, i, j - 1, ip, t);
      HistoryNext(ds, steps, j - 1, ip, t);
    }
  }

  /**
   * Over every cool run: an address released at one moment is never granted to an AddNetwork request at or before
   * the end of its cooling period, whether it stayed in the store or left it and came back through reconciliation.
   */
  lemma ReleasedAddressRests(ds: seq<State>, steps: seq<Step>, i: nat, j: nat)
    requires CoolRun(ds, steps) && i < j < |steps|
    requires steps[i].Unassign? && steps[i].reply.Granted?
    requires steps[j].AddNetwork? && steps[j].reply.Granted? && steps[j].reply.ip == steps[i].reply.ip
    ensures ds[j].now > ds[i].now + 30 * SECOND
  {
    var ip := steps[i].reply.ip;
    assert Next(ds[i], steps[i], ds[i + 1]);
    HistoryRun(ds, steps, i + 1, j, ip, ds[i].now);
    CoolInvRun(ds, steps, j);
    assert Next(ds[j], steps[j], ds[j + 1]);
    AddNetworkRests(ds[j], steps[j].key, steps[j].reply, ds[j + 1]);
  }

  // ----- What the code could test -----

  /** The slot has rested by its own stamp, or the cache keeps the address away until then. */
  predicate Kept(d: State, stamp: Time, ip: IP) {
    d.now > stamp + ADDRESS_COOLING_PERIOD || (ip in d.cache && d.cache[ip] > stamp + ADDRESS_COOLING_PERIOD)
  }

  /**
   * Growth asks the cooldown cache, as reconciliation does, and a sweep asks the slot's own stamp before the slot goes.
   * All of it is in the store and the cache, not in the history.
   */
  predicate Tested(d: State, step: Step) {
    match step
    case PoolAdd(e, ip) => ip in d.cache ==> d.cache[ip] <= d.now
    case SweepIP(e, ip) => InPool(d.store, e, ip) ==> Kept(d, d.store.pools[e].addresses[ip].unassignedTime, ip)
    case SweepENI(e) =>
      e in d.store.pools ==>
        forall ip | ip in d.store.pools[e].addresses :: Kept(d, d.store.pools[e].addresses[ip].unassignedTime, ip)
    case _ => true
  }

  /** An address that is still resting and out of the store has a cache entry that has not expired. */
  lemma RestingIsCached(d: State, ip: IP)
    requires Stamps(d) && Resting(d) && d.mgr.Idle? && !InStore(d.store, ip) && !Cooled(d, ip)
    ensures ip in d.cache && d.now < d.cache[ip]
  {
    assert Remembered(d, ip);
  }

  lemma KeptIsCool(d: State, e: EniId, ip: IP)
    requires Resting(d) && InPool(d.store, e, ip) && Kept(d, d.store.pools[e].addresses[ip].unassignedTime, ip)
    ensures Cooled(d, ip) || Recorded(d, ip)
  {
    assert ip in d.released ==> Cooled(d, ip) || Remembered(d, ip);
  }

  /** Passing the tests is enough for a step to be cool. */
  lemma TestedIsCool(d: State, step: Step, d': State)
    requires CoolInv(d) && Next(d, step, d') && Tested(d, step)
    ensures CoolStep(d, step)
  {
    match step
    case PoolAdd(e, ip) =>
      if AddIP(d.store, e, ip).1 == Success && !Cooled(d, ip) {
        RestingIsCached(d, ip);
      }
    case SweepIP(e, ip) =>
      if DelIP(d.store, e, ip).1 == Success {
        KeptIsCool(d, e, ip);
      }
    case SweepENI(e) =>
      if e in d.store.pools {
        forall ip | ip in d.store.pools[e].addresses
          ensures Cooled(d, ip) || Recorded(d, ip)
        {
          assert InPool(d.store, e, ip);
          KeptIsCool(d, e, ip);
        }
      }
    case _ =>
  }

  ghost predicate TestedRun(ds: seq<State>, steps: seq<Step>) {
    Run(ds, steps) && forall i | 0 <= i < |steps| :: Tested(ds[i], steps[i])
  }

  lemma {:induction false} TestedInv(ds: seq<State>, steps: seq<Step>, i: nat)
    requires TestedRun(ds, steps) && i < |ds|
    ensures CoolInv(ds[i])
  {
    if i > 0 {
      TestedInv(ds, steps, i - 1);
      TestedStep(ds, steps, i - 1);
      CoolInvStep(ds[i - 1], steps[i - 1], ds[i]);
    } else {
      EmptySound();
    }
  }

  lemma TestedStep(ds: seq<State>, steps: seq<Step>, i: nat)
    requires TestedRun(ds, steps) && i < |steps| && CoolInv(ds[i])
    ensures CoolStep(ds[i], steps[i])
  {
    TestedIsCool(ds[i], steps[i], ds[i + 1]);
  }

  /**
   * If growth asked the cooldown cache and sweeps the stamps, an address released at one moment would never be
   * granted at or before the end of its cooling period, in any run at all.
   */
  lemma TestedAddressRests(ds: seq<State>, steps: seq<Step>, i: nat, j: nat)
    requires TestedRun(ds, steps) && i < j < |steps|
    requires steps[i].Unassign? && steps[i].reply.Granted?
    requires steps[j].AddNetwork? && steps[j].reply.Granted? && steps[j].reply.ip == steps[i].reply.ip
    ensures ds[j].now > ds[i].now + 30 * SECOND
  {
    forall m: nat | m < |steps|
      ensures CoolStep(ds[m], steps[m])
    {
      TestedInv(ds, steps, m);
      TestedStep(ds, steps, m);
    }
    ReleasedAddressRests(ds, steps, i, j);
  }

  // ----- The condition is exact -----

  /** Once the clock has run for a cooling period, the invariant survives a step exactly when the step is cool. */
  lemma CoolStepIsExact(d: State, step: Step, d': State)
    requires CoolInv(d) && Next(d, step, d') && d.now > ADDRESS_COOLING_PERIOD
    ensures CoolInv(d') <==> CoolStep(d, step)
  {
    if CoolStep(d, step) {
      CoolInvStep(d, step, d');
    } else if step.PoolAdd? {
      UncoolAdd(d, step.eni, step.ip, d');
    } else if step.SweepIP? {
      UncoolSweepIP(d, step.eni, step.ip, d');
    } else {
      UncoolSweepENI(d, step.eni, d');
    }
  }

  lemma UncoolAdd(d: State, e: EniId, ip: IP, d': State)
    requires CoolInv(d) && Next(d, PoolAdd(e, ip), d') && !CoolStep(d, PoolAdd(e, ip))
    requires d.now > ADDRESS_COOLING_PERIOD
    ensures !Resting(d')
  {
    AddIPStamps(d.store, e, ip);
    assert InPool(d'.store, e, ip) && ip in d'.released;
    assert !Cooled(d', ip) && !Remembered(d', ip);
  }

  lemma UncoolRemoval(d: State, ip: IP, d': State)
    requires !Cooled(d, ip) && !Recorded(d, ip) && !InStore(d'.store, ip)
    requires d'.cache == d.cache && d'.released == d.released && d'.now == d.now && d'.mgr == Idle
    ensures !Resting(d')
  {
    assert !Cooled(d', ip) && !Remembered(d', ip);
  }

  lemma UncoolSweepIP(d: State, e: EniId, ip: IP, d': State)
    requires CoolInv(d) && Next(d, SweepIP(e, ip), d') && !CoolStep(d, SweepIP(e, ip))
    ensures !Resting(d')
  {
    DelIPSound(d.store, e, ip);
    UncoolRemoval(d, ip, d');
  }

  lemma UncoolSweepENI(d: State, e: EniId, d': State)
    requires CoolInv(d) && Next(d, SweepENI(e), d') && !CoolStep(d, SweepENI(e))
    ensures !Resting(d')
  {
    var ip :| ip in d.store.pools[e].addresses && !Cooled(d, ip) && !Recorded(d, ip);
    DropENISound(d.store, e);
    UncoolRemoval(d, ip, d');
  }

  /** A free address with a blank stamp can be granted at once. */
  lemma BlankIsGrantable(d: State, e: EniId, ip: IP, k: PodKey) returns (r: Reply, d': State)
    requires Sound(d.store) && d.now > ADDRESS_COOLING_PERIOD && k !in d.store.pods
    requires InPool(d.store, e, ip) && !AssignedAt(d.store, e, ip)
    requires d.store.pools[e].addresses[ip].unassignedTime == ZERO_TIME
    ensures Next(d, AddNetwork(k, r), d') && r.Granted? && r.ip == ip
  {
    EligibleIsFreeAndCooled(d.store, d.now, e, ip);
    assert PoolOk(e, d.store.pools[e]);
    r := Granted(ip, d.store.pools[e].deviceNumber);
    d' := d.(store := Take(d.store, k, e, ip));
    assert GrantedFrom(d.store, PodInfo(k, ""), d.now, d'.store, r, e, ip);
  }

  /**
   * The condition on pool growth is about behaviour, not about the proof: once growth has added an address that is
   * still resting, an AddNetwork request can be granted it at that very instant.
   */
  lemma GrowthBreaksCooling(d: State, e: EniId, ip: IP, d': State, k: PodKey) returns (r: Reply, d'': State)
    requires CoolInv(d) && Next(d, PoolAdd(e, ip), d') && !CoolStep(d, PoolAdd(e, ip))
    requires d.now > ADDRESS_COOLING_PERIOD && k !in d.store.pods
    ensures Next(d', AddNetwork(k, r), d'') && r.Granted? && r.ip == ip
    ensures ip in d.released && d'.now <= d.released[ip] + ADDRESS_COOLING_PERIOD
  {
    AddIPSound(d.store, e, ip);
    AddIPSlots(d.store, e, ip);
    AddIPStamps(d.store, e, ip);
    r, d'' := BlankIsGrantable(d', e, ip, k);
  }
}
