/**
 * The daemon as a transition system: RPC handlers and the pool manager interleave at the store's lock. Each step is
 * one critical section (or one call to EC2) together with the local state the manager carries across it.
 */
module Daemon {
  import opened Types
  import opened AddressStore

  /** How long an address that was given back must wait before reconciliation may add it again. */
  const IP_RECONCILE_COOLDOWN: int := 60 * SECOND

  /** Where the single manager goroutine is, and what it has taken out of the store but not finished with. */
  datatype Manager =
    | Idle
    | Deleting(eni: EniId, todo: seq<IP>, deleted: seq<IP>)
    | Recording(deleted: seq<IP>)
    | Freeing(eni: EniId, ips: set<IP>)
    | Admitting(eni: EniId, ip: IP)

  /** `released` is history: when each address was last handed back by a pod. */
  datatype State = State(
    now: Time,
    store: Store,
    cache: map<IP, Time>,
    mgr: Manager,
    released: map<IP, Time>)

  datatype Step =
    | Tick(later: Time)
      // RPC handlers; DelNetwork is one Unassign, or two when the first key is unknown
    | AddNetwork(key: PodKey, reply: Reply)
    | Unassign(key: PodKey, reply: Reply)
    | Recover(pod: PodInfo, reply: Reply)
      // growing the pool
    | AttachENI(eni: EniId, device: int, primary: bool)
    | PoolAdd(eni: EniId, ip: IP)
      // shrinking the pool
    | Plan(eni: EniId, ips: seq<IP>)
    | DeleteNext
    | DeallocIPAddresses(ok: bool)
    | RecordCooldown
    | RemoveUnusedENI(warmIPTarget: int, eni: EniId)
    | FreeENI(ok: bool)
      // reconciling with the metadata service
    | CheckCooldown(eni: EniId, ip: IP, verified: bool)
    | Admit
    | SweepIP(eni: EniId, ip: IP)
    | SweepENI(eni: EniId)

  predicate Init(d: State) {
    0 <= d.now && d.store == EMPTY_STORE && d.cache == map[] && d.mgr == Idle && d.released == map[]
  }

  /** EC2 gives an address to one ENI only, so one that is new to this ENI is new to the store. */
  ghost predicate Admissible(s: Store, e: EniId, ip: IP) {
    AddIP(s, e, ip).1 == Success ==> ip != "" && !InStore(s, ip)
  }

  function CacheAdd(cache: map<IP, Time>, ips: seq<IP>, expiry: Time): map<IP, Time> {
    map ip | ip in cache.Keys + (set i | i in ips) :: if ip in ips then expiry else cache[ip]
  }

  ghost predicate Next(d: State, step: Step, d': State) {
    match step
    case Tick(later) => d.now <= later && d' == d.(now := later)
    case AddNetwork(k, r) =>
      AssignPod(d.store, PodInfo(k, ""), d.now, d'.store, r) && d' == d.(store := d'.store)
    case Unassign(k, r) =>
      UnassignPod(d.store, k, d.now, d'.store, r)
      && d' == d.(store := d'.store, released := if r.Granted? then d.released[r.ip := d.now] else d.released)
    case Recover(pod, r) =>
      pod.ip != "" && (pod.key !in d.store.pods ==> !HasPod(d.store, pod.ip))
      && AssignPod(d.store, pod, d.now, d'.store, r) && d' == d.(store := d'.store)
    case AttachENI(e, device, primary) =>
      d.mgr.Idle? && d' == d.(store := AddENI(d.store, e, device, primary, d.now).0)
    case PoolAdd(e, ip) =>
      d.mgr.Idle? && Admissible(d.store, e, ip) && d' == d.(store := AddIP(d.store, e, ip).0)
    case Plan(e, ips) =>
      d.mgr.Idle? && d' == d.(mgr := Deleting(e, ips, []))
    case DeleteNext =>
      d.mgr.Deleting? && d.mgr.todo != []
      && var ip := d.mgr.todo[0];
         var (s', st) := DelIP(d.store, d.mgr.eni, ip);
         d' == d.(store := s',
                  mgr := Deleting(d.mgr.eni, d.mgr.todo[1..],
                                  if st == Success then d.mgr.deleted + [ip] else d.mgr.deleted))
    case DeallocIPAddresses(ok) =>
      d.mgr.Deleting? && d.mgr.todo == [] && d' == d.(mgr := Recording(d.mgr.deleted))
    case RecordCooldown =>
      d.mgr.Recording?
      && d' == d.(cache := CacheAdd(d.cache, d.mgr.deleted, d.now + IP_RECONCILE_COOLDOWN), mgr := Idle)
    case RemoveUnusedENI(target, e) =>
      d.mgr.Idle? && RemoveUnused(d.store, target, d.now, d'.store, e)
      && d' == d.(store := d'.store,
                  mgr := if e in d.store.pools && e !in d'.store.pools then Freeing(e, d.store.pools[e].addresses.Keys)
                         else Idle)
    case FreeENI(ok) =>
      d.mgr.Freeing? && d' == d.(mgr := Idle)
    case CheckCooldown(e, ip, verified) =>
      d.mgr.Idle? && (ip in d.cache ==> d.cache[ip] <= d.now && verified)
      && d' == d.(cache := d.cache - {ip}, mgr := Admitting(e, ip))
    case Admit =>
      d.mgr.Admitting? && Admissible(d.store, d.mgr.eni, d.mgr.ip)
      && d' == d.(store := AddIP(d.store, d.mgr.eni, d.mgr.ip).0, mgr := Idle)
    case SweepIP(e, ip) =>
      d.mgr.Idle? && d' == d.(store := DelIP(d.store, e, ip).0)
    case SweepENI(e) =>
      d.mgr.Idle? && d' == d.(store := RemoveENI(d.store, e).0)
  }

  ghost predicate Run(ds: seq<State>, steps: seq<Step>) {
    |ds| == |steps| + 1 && Init(ds[0]) && forall i | 0 <= i < |steps| :: Next(ds[i], steps[i], ds[i + 1])
  }

  // ----- Safety of giving addresses back -----

  /** What the manager has removed from the store and is about to hand to EC2. */
  function Limbo(m: Manager): set<IP> {
    match m
    case Deleting(_, _, deleted) => set ip | ip in deleted
    case Recording(deleted) => set ip | ip in deleted
    case Freeing(_, ips) => ips
    case _ => {}
  }

  ghost predicate Safe(d: State) {
    Sound(d.store) && forall ip | ip in Limbo(d.mgr) :: !InStore(d.store, ip)
  }

  lemma SameSlotsSafe(d: State, d': State)
    requires Safe(d) && Sound(d'.store) && Limbo(d'.mgr) <= Limbo(d.mgr) && SlotsWithin(d'.store, d.store)
    ensures Safe(d')
  {
  }

  lemma OneMoreInLimbo(d: State, d': State, ip: IP)
    requires Safe(d) && Sound(d'.store) && SlotsWithin(d'.store, d.store) && !InStore(d'.store, ip)
    requires Limbo(d'.mgr) <= Limbo(d.mgr) + {ip}
    ensures Safe(d')
  {
  }

  lemma AddNetworkSafe(d: State, k: PodKey, r: Reply, d': State)
    requires Safe(d) && Next(d, AddNetwork(k, r), d')
    ensures Safe(d')
  {
    AssignPodSound(d.store, k, d.now, d'.store, r);
    SameSlotsSafe(d, d');
  }

  lemma UnassignSafe(d: State, k: PodKey, r: Reply, d': State)
    requires Safe(d) && Next(d, Unassign(k, r), d')
    ensures Safe(d')
  {
    UnassignPodSound(d.store, k, d.now, d'.store, r);
    SameSlotsSafe(d, d');
  }

  lemma RecoverSafe(d: State, pod: PodInfo, r: Reply, d': State)
    requires Safe(d) && Next(d, Recover(pod, r), d')
    ensures Safe(d')
  {
    RecoverPodSound(d.store, pod, d.now, d'.store, r);
    SameSlotsSafe(d, d');
  }

  lemma GrowSafe(d: State, step: Step, d': State)
    requires Safe(d) && Next(d, step, d') && (step.AttachENI? || step.PoolAdd? || step.Admit?)
    ensures Safe(d')
  {
    match step
    case AttachENI(e, device, primary) =>
      AddENISound(d.store, e, device, primary, d.now);
    case PoolAdd(e, ip) =>
      AddIPSound(d.store, e, ip);
    case Admit =>
      AddIPSound(d.store, d.mgr.eni, d.mgr.ip);
  }

  lemma DeleteSafe(d: State, d': State)
    requires Safe(d) && Next(d, DeleteNext, d')
    ensures Safe(d')
  {
    var e, ip := d.mgr.eni, d.mgr.todo[0];
    DelIPSound(d.store, e, ip);
    assert Limbo(d'.mgr) <= Limbo(d.mgr) + {ip};
    if DelIP(d.store, e, ip).1 == Success {
      OneMoreInLimbo(d, d', ip);
    } else {
      SameSlotsSafe(d, d');
    }
  }

  lemma SweepSafe(d: State, step: Step, d': State)
    requires Safe(d) && Next(d, step, d') && (step.SweepIP? || step.SweepENI?)
    ensures Safe(d')
  {
    match step
    case SweepIP(e, ip) =>
      DelIPSound(d.store, e, ip);
    case SweepENI(e) =>
      if RemoveENI(d.store, e).1 == Success {
        DropENISound(d.store, e);
      }
  }

  lemma RemoveUnusedSafe(d: State, target: int, e: EniId, d': State)
    requires Safe(d) && Next(d, RemoveUnusedENI(target, e), d')
    ensures Safe(d')
  {
    if Deletable(d.store, target, d.now, e) && d'.store == DropENI(d.store, e) {
      DroppedSafe(d, e, d');
    }
  }

  /** The addresses of an ENI that was dropped are out of the store. */
  lemma DroppedSafe(d: State, e: EniId, d': State)
    requires Sound(d.store) && e in d.store.pools && d.store.pools[e].assignedCount == 0
    requires d'.store == DropENI(d.store, e) && Limbo(d'.mgr) <= d.store.pools[e].addresses.Keys
    ensures Safe(d')
  {
    DropENISound(d.store, e);
  }

  predicate IsRpc(step: Step) {
    step.AddNetwork? || step.Unassign? || step.Recover?
  }

  lemma RpcSafe(d: State, step: Step, d': State)
    requires Safe(d) && Next(d, step, d') && IsRpc(step)
    ensures Safe(d')
  {
    if step.AddNetwork? {
      AddNetworkSafe(d, step.key, step.reply, d');
    } else if step.Unassign? {
      UnassignSafe(d, step.key, step.reply, d');
    } else {
      RecoverSafe(d, step.pod, step.reply, d');
    }
  }

  /** Steps that leave the store alone. */
  lemma LocalStepSafe(d: State, step: Step, d': State)
    requires Safe(d) && Next(d, step, d')
    requires step.Tick? || step.Plan? || step.DeallocIPAddresses? || step.RecordCooldown? || step.FreeENI? || step.CheckCooldown?
    ensures Safe(d')
  {
    LocalStepKeeps(d, step, d');
    SameSlotsSafe(d, d');
  }

  lemma LocalStepKeeps(d: State, step: Step, d': State)
    requires Next(d, step, d')
    requires step.Tick? || step.Plan? || step.DeallocIPAddresses? || step.RecordCooldown? || step.FreeENI? || step.CheckCooldown?
    ensures d'.store == d.store && Limbo(d'.mgr) <= Limbo(d.mgr)
  {
  }

  /** Every step of every thread keeps the store sound and keeps what the manager holds out of the store. */
  lemma SafeStep(d: State, step: Step, d': State)
    requires Safe(d) && Next(d, step, d')
    ensures Safe(d')
  {
    match step
    case AddNetwork(_, _) => RpcSafe(d, step, d');
    case Unassign(_, _) => RpcSafe(d, step, d');
    case Recover(_, _) => RpcSafe(d, step, d');
    case AttachENI(_, _, _) => GrowSafe(d, step, d');
    case PoolAdd(_, _) => GrowSafe(d, step, d');
    case Admit => GrowSafe(d, step, d');
    case DeleteNext => DeleteSafe(d, d');
    case RemoveUnusedENI(target, e) => RemoveUnusedSafe(d, target, e, d');
    case SweepIP(_, _) => SweepSafe(d, step, d');
    case SweepENI(_) => SweepSafe(d, step, d');
    case _ => LocalStepSafe(d, step, d');
  }

  lemma {:induction false} RunSafe(ds: seq<State>, steps: seq<Step>, i: nat)
    requires Run(ds, steps) && i < |ds|
    ensures Safe(ds[i])
  {
    if i > 0 {
      RunSafe(ds, steps, i - 1);
      SafeStep(ds[i - 1], steps[i - 1], ds[i]);
    } else {
      EmptySound();
    }
  }

  /**
   * Over every interleaving: in every state the pod index is a bijection onto the assigned addresses, with counters
   * to match, and whenever addresses or a whole ENI are handed back to EC2, no pod holds any of them.
   */
  lemma NoPodLosesItsAddress(ds: seq<State>, steps: seq<Step>, i: nat)
    requires Run(ds, steps) && i < |steps|
    ensures var s := ds[i].store;
            && PodIPs(s) == AssignedIPs(s)
            && |s.pods| == s.assignedTotal == |AssignedIPs(s)|
            && 0 <= s.assignedTotal <= s.total
            && (forall k, e | k in s.pods && InPool(s, e, s.pods[k].ip) :: Holds(s, e, s.pods[k]))
    ensures steps[i].DeallocIPAddresses? ==>
              ds[i].mgr.Deleting? && forall ip | ip in ds[i].mgr.deleted :: !HasPod(ds[i].store, ip)
    ensures steps[i].FreeENI? ==>
              && ds[i].mgr.Freeing? && ds[i].mgr.eni !in ds[i].store.pools
              && forall ip | ip in ds[i].mgr.ips :: !HasPod(ds[i].store, ip)
  {
    RunSafe(ds, steps, i);
    var d := ds[i];
    IndexIsBijection(d.store);
    CountersBounds(d.store);
    forall ip | ip in Limbo(d.mgr)
      ensures !HasPod(d.store, ip)
    {
      NoPodOutsideStore(d.store, ip);
    }
    assert Next(d, steps[i], ds[i + 1]);
    if steps[i].FreeENI? {
      FreedENIGone(ds, steps, i);
    }
  }

  /** While an ENI is on its way to EC2 the store does not know it. */
  lemma {:induction false} FreedENIGone(ds: seq<State>, steps: seq<Step>, i: nat)
    requires Run(ds, steps) && i < |ds| && ds[i].mgr.Freeing?
    ensures ds[i].mgr.eni !in ds[i].store.pools
  {
    assert i > 0;
    var d := ds[i - 1];
    assert Next(d, steps[i - 1], ds[i]);
    if d.mgr.Freeing? {
      FreedENIGone(ds, steps, i - 1);
      RpcKeepsENIs(d, steps[i - 1], ds[i]);
    }
  }

  lemma RpcKeepsENIs(d: State, step: Step, d': State)
    requires Next(d, step, d') && d.mgr.Freeing? && d'.mgr.Freeing?
    ensures d'.store.pools.Keys == d.store.pools.Keys && d'.mgr == d.mgr
  {
  }

  // ----- A pod keeps its address until it is released -----

  lemma ManagerKeepsPods(d: State, step: Step, d': State)
    requires Next(d, step, d') && !IsRpc(step)
    ensures d'.store.pods == d.store.pods && d'.released == d.released
  {
  }

  lemma RecoverKeepsPods(d: State, pod: PodInfo, r: Reply, d': State)
    requires Sound(d.store) && Next(d, Recover(pod, r), d')
    ensures forall k | k in d.store.pods :: k in d'.store.pods && d'.store.pods[k] == d.store.pods[k]
  {
    RecoverPodSound(d.store, pod, d.now, d'.store, r);
  }

  lemma AddNetworkKeepsPods(d: State, j: PodKey, r: Reply, d': State)
    requires Sound(d.store) && Next(d, AddNetwork(j, r), d')
    ensures forall k | k in d.store.pods :: k in d'.store.pods && d'.store.pods[k] == d.store.pods[k]
  {
    AssignPodSound(d.store, j, d.now, d'.store, r);
  }

  lemma UnassignKeepsPods(d: State, j: PodKey, r: Reply, d': State)
    requires Sound(d.store) && Next(d, Unassign(j, r), d')
    ensures d'.store.pods == d.store.pods - {j}
  {
    UnassignPodSound(d.store, j, d.now, d'.store, r);
  }

  lemma HoldingStep(d: State, step: Step, d': State, k: PodKey)
    requires Sound(d.store) && Next(d, step, d') && k in d.store.pods
    requires step.Unassign? ==> step.key != k
    ensures k in d'.store.pods && d'.store.pods[k] == d.store.pods[k]
  {
    if step.AddNetwork? {
      AddNetworkKeepsPods(d, step.key, step.reply, d');
    } else if step.Unassign? {
      UnassignKeepsPods(d, step.key, step.reply, d');
    } else if step.Recover? {
      RecoverKeepsPods(d, step.pod, step.reply, d');
    } else {
      ManagerKeepsPods(d, step, d');
    }
  }

  lemma {:induction false} HoldingRun(ds: seq<State>, steps: seq<Step>, k: PodKey, i: nat, j: nat)
    requires Run(ds, steps) && i <= j < |ds| && k in ds[i].store.pods
    requires forall n | i <= n < j :: steps[n].Unassign? ==> steps[n].key != k
    ensures k in ds[j].store.pods && ds[j].store.pods[k] == ds[i].store.pods[k]
    decreases j - i
  {
    if i < j {
      HoldingRun(ds, steps, k, i, j - 1);
      RunSafe(ds, steps, j - 1);
      HoldingStep(ds[j - 1], steps[j - 1], ds[j], k);
    }
  }

  /** Whatever other pods and the manager do in between, a release returns exactly what was granted. */
  lemma ReleaseReturnsGrant(ds: seq<State>, steps: seq<Step>, k: PodKey, i: nat, j: nat)
    requires Run(ds, steps) && i < j < |steps|
    requires steps[i].AddNetwork? && steps[i].key == k && steps[i].reply.Granted?
    requires steps[j].Unassign? && steps[j].key == k
    requires forall n | i < n < j :: steps[n].Unassign? ==> steps[n].key != k
    ensures steps[j].reply == steps[i].reply
  {
    GrantHolds(ds, steps, k, i);
    HoldingRun(ds, steps, k, i + 1, j);
    ReleaseTells(ds, steps, k, j);
  }

  lemma GrantHolds(ds: seq<State>, steps: seq<Step>, k: PodKey, i: nat)
    requires Run(ds, steps) && i < |steps| && steps[i].AddNetwork? && steps[i].key == k && steps[i].reply.Granted?
    ensures k in ds[i + 1].store.pods
    ensures ds[i + 1].store.pods[k] == PodIP(steps[i].reply.ip, steps[i].reply.deviceNumber)
  {
    RunSafe(ds, steps, i);
    assert Next(ds[i], steps[i], ds[i + 1]);
    AssignPodSound(ds[i].store, k, ds[i].now, ds[i + 1].store, steps[i].reply);
  }

  lemma ReleaseTells(ds: seq<State>, steps: seq<Step>, k: PodKey, j: nat)
    requires Run(ds, steps) && j < |steps| && steps[j].Unassign? && steps[j].key == k && k in ds[j].store.pods
    ensures steps[j].reply == Granted(ds[j].store.pods[k].ip, ds[j].store.pods[k].deviceNumber)
  {
    RunSafe(ds, steps, j);
    assert Next(ds[j], steps[j], ds[j + 1]);
    UnassignPodSound(ds[j].store, k, ds[j].now, ds[j + 1].store, steps[j].reply);
  }

  // ----- Recovery -----

  /** An address that a pod holds is granted to nobody until that pod is released. */
  lemma HeldIsNotGranted(ds: seq<State>, steps: seq<Step>, k: PodKey, i: nat, j: nat)
    requires Run(ds, steps) && i <= j < |steps| && k in ds[i].store.pods
    requires forall n | i <= n < j :: steps[n].Unassign? ==> steps[n].key != k
    requires steps[j].AddNetwork? && steps[j].reply.Granted?
    ensures steps[j].reply.ip != ds[i].store.pods[k].ip
  {
    HoldingRun(ds, steps, k, i, j);
    GrantIsUnheld(ds, steps, j);
    assert HasPod(ds[j].store, ds[j].store.pods[k].ip);
  }

  lemma GrantIsUnheld(ds: seq<State>, steps: seq<Step>, j: nat)
    requires Run(ds, steps) && j < |steps| && steps[j].AddNetwork? && steps[j].reply.Granted?
    ensures !HasPod(ds[j].store, steps[j].reply.ip)
  {
    RunSafe(ds, steps, j);
    assert Next(ds[j], steps[j], ds[j + 1]);
    AssignPodSound(ds[j].store, steps[j].key, ds[j].now, ds[j + 1].store, steps[j].reply);
  }

  /**
   * Over every run: a pod whose address is in the store when it is recovered gets exactly that address, with the device
   * number of the ENI that has it, and nobody else is granted the address before that pod is released.
   */
  lemma RecoveredKeepsAddress(ds: seq<State>, steps: seq<Step>, i: nat, j: nat)
    requires Run(ds, steps) && i < j < |steps|
    requires steps[i].Recover? && steps[i].pod.key !in ds[i].store.pods && InStore(ds[i].store, steps[i].pod.ip)
    requires forall n | i < n < j :: steps[n].Unassign? ==> steps[n].key != steps[i].pod.key
    ensures steps[i].reply.Granted? && steps[i].reply.ip == steps[i].pod.ip
    ensures forall e | InPool(ds[i].store, e, steps[i].pod.ip) ::
              steps[i].reply.deviceNumber == ds[i].store.pools[e].deviceNumber && AssignedAt(ds[i + 1].store, e, steps[i].pod.ip)
    ensures steps[j].AddNetwork? && steps[j].reply.Granted? ==> steps[j].reply.ip != steps[i].pod.ip
  {
    RecoveredHolds(ds, steps, i);
    if steps[j].AddNetwork? && steps[j].reply.Granted? {
      HeldIsNotGranted(ds, steps, steps[i].pod.key, i + 1, j);
    }
  }

  lemma RecoveredHolds(ds: seq<State>, steps: seq<Step>, i: nat)
    requires Run(ds, steps) && i < |steps|
    requires steps[i].Recover? && steps[i].pod.key !in ds[i].store.pods && InStore(ds[i].store, steps[i].pod.ip)
    ensures var pod := steps[i].pod;
            && steps[i].reply.Granted? && steps[i].reply.ip == pod.ip
            && pod.key in ds[i + 1].store.pods && ds[i + 1].store.pods[pod.key].ip == pod.ip
            && forall e | InPool(ds[i].store, e, pod.ip) ::
                 steps[i].reply.deviceNumber == ds[i].store.pools[e].deviceNumber && AssignedAt(ds[i + 1].store, e, pod.ip)
  {
    RunSafe(ds, steps, i);
    assert Next(ds[i], steps[i], ds[i + 1]);
    RecoveredIff(ds[i].store, steps[i].pod, ds[i].now, ds[i + 1].store, steps[i].reply);
    var e :| InPool(ds[i].store, e, steps[i].pod.ip);
  }

  // ----- ENIs keep their attributes -----

  ghost predicate SameAttributes(s: Store, s': Store, e: EniId) {
    e in s.pools && e in s'.pools ==>
      && s'.pools[e].deviceNumber == s.pools[e].deviceNumber && s'.pools[e].isPrimary == s.pools[e].isPrimary
      && s'.pools[e].createTime == s.pools[e].createTime
  }

  lemma AttributesStep(d: State, step: Step, d': State, e: EniId)
    requires Next(d, step, d')
    ensures SameAttributes(d.store, d'.store, e)
  {
  }

  lemma {:induction false} AttributesRun(ds: seq<State>, steps: seq<Step>, e: EniId, i: nat, j: nat)
    requires Run(ds, steps) && i <= j < |ds| && forall n | i <= n <= j :: e in ds[n].store.pools
    ensures SameAttributes(ds[i].store, ds[j].store, e)
    decreases j - i
  {
    if i < j {
      AttributesRun(ds, steps, e, i, j - 1);
      AttributesStep(ds[j - 1], steps[j - 1], ds[j], e);
    }
  }

  /** A pod granted an address of an ENI is told the device number under which that ENI was attached. */
  lemma GrantTellsAttachment(ds: seq<State>, steps: seq<Step>, e: EniId, i: nat, j: nat)
    requires Run(ds, steps) && i < j < |steps| && steps[i].AttachENI? && steps[i].eni == e && e !in ds[i].store.pools
    requires forall n | i < n <= j :: e in ds[n].store.pools
    requires steps[j].AddNetwork? && steps[j].reply.Granted? && InPool(ds[j].store, e, steps[j].reply.ip)
    ensures steps[j].reply.deviceNumber == steps[i].device
  {
    assert Next(ds[i], steps[i], ds[i + 1]);
    AttributesRun(ds, steps, e, i + 1, j);
    DeviceTold(ds, steps, e, j);
  }

  lemma DeviceTold(ds: seq<State>, steps: seq<Step>, e: EniId, j: nat)
    requires Run(ds, steps) && j < |steps| && steps[j].AddNetwork? && steps[j].reply.Granted?
    requires InPool(ds[j].store, e, steps[j].reply.ip)
    ensures steps[j].reply.deviceNumber == ds[j].store.pools[e].deviceNumber
  {
    RunSafe(ds, steps, j);
    assert Next(ds[j], steps[j], ds[j + 1]);
    GrantTellsDevice(ds[j].store, steps[j].key, ds[j].now, ds[j + 1].store, steps[j].reply, e);
  }
}
