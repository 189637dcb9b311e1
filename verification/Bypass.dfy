/**
 * Runs that the pool manager's own policy allows and in which an address is handed out before it has rested. They show
 * that the condition of the cooling theorem cannot be dropped.
 */
module Bypass {
  import opened Types
  import opened AddressStore
  import opened PoolPolicy
  import opened Daemon
  import opened Cooling

  /** How often the manager looks at the pool. */
  const MONITOR_INTERVAL: int := 5 * SECOND

  /** No pod has been served yet: the daemon is still taking in the ENIs it finds. */
  predicate Starting(d: State) {
    d.store.pods == map[] && d.released == map[]
  }

  /** Growth happens when the pool is too low, on an ENI with room. */
  predicate MayGrow(c: PoolConfig, s: Store, e: EniId) {
    NodeIPPoolTooLow(c, s) && e in s.pools && |s.pools[e].addresses| < c.maxIPsPerENI
  }

  /** What the manager's policy allows: it shrinks by free addresses, no more than the surplus, and grows when too low. */
  predicate Allowed(c: PoolConfig, d: State, step: Step) {
    match step
    case AttachENI(e, _, _) => Starting(d) || NodeIPPoolTooLow(c, d.store)
    case PoolAdd(e, ip) => Starting(d) || MayGrow(c, d.store, e)
    case Plan(e, ips) =>
      && NodeIPPoolTooHigh(c, d.store) && 0 < |ips| <= IPTargetState(c, d.store).1
      && forall i | 0 <= i < |ips| :: FreeAt(d.store, e, ips[i])
    case RemoveUnusedENI(target, _) => target == c.warmIPTarget && ShouldRemoveExtraENIs(c, d.store)
    case _ => true
  }

  ghost predicate PolicyRun(c: PoolConfig, ds: seq<State>, steps: seq<Step>) {
    Run(ds, steps) && forall i | 0 <= i < |steps| :: Allowed(c, ds[i], steps[i])
  }

  // ----- Single steps -----

  /** A slot that a request without an address can be served from. */
  predicate Ready(d: State, e: EniId, ip: IP) {
    FreeAt(d.store, e, ip) && d.now - d.store.pools[e].addresses[ip].unassignedTime > ADDRESS_COOLING_PERIOD
  }

  lemma Grant(d: State, e: EniId, ip: IP, k: PodKey) returns (r: Reply, d': State)
    requires Sound(d.store) && Ready(d, e, ip) && k !in d.store.pods
    ensures Next(d, AddNetwork(k, r), d') && r.Granted? && r.ip == ip && d' == d.(store := d'.store)
    ensures d'.store == Take(d.store, k, e, ip)
  {
    EligibleIsFreeAndCooled(d.store, d.now, e, ip);
    assert PoolOk(e, d.store.pools[e]);
    r := Granted(ip, d.store.pools[e].deviceNumber);
    d' := d.(store := Take(d.store, k, e, ip));
    assert GrantedFrom(d.store, PodInfo(k, ""), d.now, d'.store, r, e, ip);
  }

  lemma TakenStore(s: Store, e: EniId, ip: IP, k: PodKey)
    requires FreeAt(s, e, ip)
    ensures var s' := Take(s, k, e, ip);
            && s'.pools.Keys == s.pools.Keys && Available(s') == Available(s) - 1
            && (forall f | f in s.pools :: |s'.pools[f].addresses| == |s.pools[f].addresses|)
            && (forall f, i | FreeAt(s, f, i) && i != ip :: FreeAt(s', f, i)
                  && s'.pools[f].addresses[i].unassignedTime == s.pools[f].addresses[i].unassignedTime)
  {
    var s' := Take(s, k, e, ip);
    assert s'.pools[e].addresses.Keys == s.pools[e].addresses.Keys;
  }

  lemma Release(d: State, e: EniId, k: PodKey, ip: IP) returns (r: Reply, d': State)
    requires Sound(d.store) && k in d.store.pods && d.store.pods[k].ip == ip && InPool(d.store, e, ip)
    ensures Next(d, Unassign(k, r), d') && r.Granted? && r.ip == ip
    ensures AssignedAt(d.store, e, ip) && d'.store == GiveBack(d.store, k, e, ip, d.now)
    ensures d' == d.(store := d'.store, released := d.released[ip := d.now])
  {
    IndexIsBijection(d.store);
    assert PoolOk(e, d.store.pools[e]);
    r := Granted(ip, d.store.pools[e].deviceNumber);
    d' := d.(store := GiveBack(d.store, k, e, ip, d.now), released := d.released[ip := d.now]);
    assert ReleasedFrom(d.store, k, d.now, d'.store, r, e);
  }

  lemma ReleasedStore(s: Store, e: EniId, k: PodKey, ip: IP, now: Time)
    requires AssignedAt(s, e, ip)
    ensures var s' := GiveBack(s, k, e, ip, now);
            && FreeAt(s', e, ip) && s'.pods == s.pods - {k} && Available(s') == Available(s) + 1
            && |s'.pools[e].addresses| == |s.pools[e].addresses|
            && (forall f, i | FreeAt(s, f, i) :: FreeAt(s', f, i)
                  && s'.pools[f].addresses[i].unassignedTime == s.pools[f].addresses[i].unassignedTime)
  {
    var s' := GiveBack(s, k, e, ip, now);
    assert s'.pools[e].addresses.Keys == s.pools[e].addresses.Keys;
  }

  lemma DeletedStore(s: Store, e: EniId, ip: IP) returns (s': Store)
    requires Sound(s) && FreeAt(s, e, ip)
    ensures DelIP(s, e, ip) == (s', Success) && Sound(s') && s'.pods == s.pods && e in s'.pools && !InStore(s', ip)
    ensures Available(s') == Available(s) - 1 && |s'.pools[e].addresses| == |s.pools[e].addresses| - 1
    ensures forall f, i | FreeAt(s, f, i) && i != ip :: FreeAt(s', f, i)
              && s'.pools[f].addresses[i].unassignedTime == s.pools[f].addresses[i].unassignedTime
  {
    s' := DelIP(s, e, ip).0;
    DelIPSound(s, e, ip);
    DeletedSlots(s, e, ip);
  }

  lemma DeletedSlots(s: Store, e: EniId, ip: IP)
    requires FreeAt(s, e, ip)
    ensures var s' := DelIP(s, e, ip).0;
            && Available(s') == Available(s) - 1 && |s'.pools[e].addresses| == |s.pools[e].addresses| - 1
            && forall f, i | FreeAt(s, f, i) && i != ip :: FreeAt(s', f, i)
                 && s'.pools[f].addresses[i].unassignedTime == s.pools[f].addresses[i].unassignedTime
  {
    var s' := DelIP(s, e, ip).0;
    assert s'.pools[e].addresses.Keys == s.pools[e].addresses.Keys - {ip};
    assert |s'.pools[e].addresses.Keys| == |s.pools[e].addresses.Keys| - 1;
  }

  lemma AddedStore(s: Store, e: EniId, ip: IP) returns (s': Store)
    requires Sound(s) && e in s.pools && !InStore(s, ip) && ip != ""
    ensures AddIP(s, e, ip) == (s', Success) && Sound(s') && s'.pods == s.pods && Available(s') == Available(s) + 1
    ensures FreeAt(s', e, ip) && s'.pools[e].addresses[ip].unassignedTime == ZERO_TIME
    ensures |s'.pools[e].addresses| == |s.pools[e].addresses| + 1
    ensures forall f, i :: InPool(s', f, i) <==> InPool(s, f, i) || (f == e && i == ip)
    ensures forall f, i | FreeAt(s, f, i) :: FreeAt(s', f, i)
              && s'.pools[f].addresses[i].unassignedTime == s.pools[f].addresses[i].unassignedTime
  {
    assert !InPool(s, e, ip);
    s' := AddIP(s, e, ip).0;
    AddIPSound(s, e, ip);
    AddIPSlots(s, e, ip);
  }

  /** Growth finds an address on the ENI, and a pod is granted it at once. */
  lemma GrowAndGrant(d: State, e: EniId, ip: IP, q: PodKey) returns (d1: State, r: Reply, d2: State)
    requires Sound(d.store) && d.mgr == Idle && e in d.store.pools && !InStore(d.store, ip) && ip != ""
    requires d.now > ADDRESS_COOLING_PERIOD && q !in d.store.pods
    ensures Next(d, PoolAdd(e, ip), d1) && d1 == d.(store := d1.store)
    ensures Next(d1, AddNetwork(q, r), d2) && r.Granted? && r.ip == ip
  {
    var s' := AddedStore(d.store, e, ip);
    d1 := d.(store := s');
    r, d2 := Grant(d1, e, ip, q);
  }

  // ----- A sweep and growth -----

  /**
   * An address that is swept while it still rests and is not recorded: once the pool is too low, growth may find it on
   * the ENI at any later time, and a request is granted it there and then, within its cooling period if that time is.
   */
  lemma SweepBreaksCooling(c: PoolConfig, d: State, e: EniId, ip: IP, d': State, later: Time, k: PodKey)
      returns (d1: State, d2: State, r: Reply, d3: State)
    requires Sound(d.store) && Next(d, SweepIP(e, ip), d') && !CoolStep(d, SweepIP(e, ip))
    requires ADDRESS_COOLING_PERIOD < d.now <= later && k !in d.store.pods && MayGrow(c, d'.store, e)
    ensures Next(d', Tick(later), d1) && Allowed(c, d1, PoolAdd(e, ip)) && Next(d1, PoolAdd(e, ip), d2)
    ensures Next(d2, AddNetwork(k, r), d3) && r.Granted? && r.ip == ip && d2.now == later
    ensures ip in d.released && (later <= d.released[ip] + ADDRESS_COOLING_PERIOD ==> !Cooled(d2, ip))
  {
    DelIPSound(d.store, e, ip);
    assert InPool(d.store, e, ip);
    d1 := d'.(now := later);
    d2, r, d3 := GrowAndGrant(d1, e, ip, k);
  }

  // ----- Shrinking and growth -----

  lemma Extend(c: PoolConfig, ds: seq<State>, steps: seq<Step>, step: Step, d: State) returns (ds': seq<State>, steps': seq<Step>)
    requires PolicyRun(c, ds, steps) && Next(ds[|steps|], step, d) && Allowed(c, ds[|steps|], step)
    ensures PolicyRun(c, ds', steps') && ds' == ds + [d] && steps' == steps + [step]
  {
    ds', steps' := ds + [d], steps + [step];
    forall i | 0 <= i < |steps'|
      ensures Next(ds'[i], steps'[i], ds'[i + 1]) && Allowed(c, ds'[i], steps'[i])
    {
      assert i < |steps| ==> Next(ds[i], steps[i], ds[i + 1]) && Allowed(c, ds[i], steps[i]);
    }
  }

  lemma ExtendTwice(c: PoolConfig, ds: seq<State>, steps: seq<Step>, step1: Step, d1: State, step2: Step, d2: State)
      returns (ds': seq<State>, steps': seq<Step>)
    requires PolicyRun(c, ds, steps) && Next(ds[|steps|], step1, d1) && Allowed(c, ds[|steps|], step1)
    requires Next(d1, step2, d2) && Allowed(c, d1, step2)
    ensures PolicyRun(c, ds', steps') && ds' == ds + [d1, d2] && steps' == steps + [step1, step2]
  {
    ds', steps' := Extend(c, ds, steps, step1, d1);
    ds', steps' := Extend(c, ds', steps', step2, d2);
    assert ds + [d1] + [d2] == ds + [d1, d2] && steps + [step1] + [step2] == steps + [step1, step2];
  }

  /** The situation after the release: the address is free again and the pool is one over its target. */
  predicate OneOver(c: PoolConfig, d: State, e: EniId, ip: IP, f: EniId, other: IP) {
    && d.mgr == Idle && c.warmIPTarget >= 1 && Available(d.store) == c.warmIPTarget + 1
    && FreeAt(d.store, e, ip) && Ready(d, f, other) && ip != other && |d.store.pools[e].addresses| <= c.maxIPsPerENI
  }

  lemma OneDeletion(d: State, e: EniId, ip: IP, s': Store)
    requires DelIP(d.store, e, ip) == (s', Success)
    ensures Next(d.(mgr := Deleting(e, [ip], [])), DeleteNext, d.(store := s', mgr := Deleting(e, [], [ip])))
  {
    assert [ip][1..] == [] && [] + [ip] == [ip];
  }

  lemma ShrinkStates(c: PoolConfig, d: State, e: EniId, ip: IP, f: EniId, other: IP) returns (d1: State, d2: State)
    requires Sound(d.store) && OneOver(c, d, e, ip, f, other)
    ensures Next(d, Plan(e, [ip]), d1) && Allowed(c, d, Plan(e, [ip])) && Next(d1, DeleteNext, d2) && d1.now == d.now
    ensures d2 == d.(store := d2.store, mgr := Deleting(e, [], [ip])) && d2.store.pods == d.store.pods
    ensures Sound(d2.store) && e in d2.store.pools && !InStore(d2.store, ip) && Ready(d2, f, other)
    ensures Available(d2.store) == c.warmIPTarget && |d2.store.pools[e].addresses| < c.maxIPsPerENI
  {
    var s' := DeletedStore(d.store, e, ip);
    d1 := d.(mgr := Deleting(e, [ip], []));
    d2 := d.(store := s', mgr := Deleting(e, [], [ip]));
    OneDeletion(d, e, ip, s');
  }

  lemma RecordStates(d: State, e: EniId, ip: IP) returns (d1: State, d2: State)
    requires d.mgr == Deleting(e, [], [ip])
    ensures Next(d, DeallocIPAddresses(false), d1) && Next(d1, RecordCooldown, d2) && d2 == d.(mgr := Idle, cache := d2.cache)
    ensures ip in d2.cache && d2.cache[ip] == d.now + IP_RECONCILE_COOLDOWN
  {
    d1 := d.(mgr := Recording([ip]));
    d2 := d1.(cache := CacheAdd(d.cache, [ip], d.now + IP_RECONCILE_COOLDOWN), mgr := Idle);
  }

  lemma DrainStates(c: PoolConfig, d: State, e: EniId, ip: IP, f: EniId, other: IP, q: PodKey, later: Time)
      returns (r: Reply, d1: State, d2: State)
    requires Sound(d.store) && e in d.store.pools && !InStore(d.store, ip) && Ready(d, f, other)
    requires q !in d.store.pods && d.now <= later && c.warmIPTarget >= 1
    requires Available(d.store) == c.warmIPTarget && |d.store.pools[e].addresses| < c.maxIPsPerENI
    ensures Next(d, AddNetwork(q, r), d1) && Next(d1, Tick(later), d2) && d2 == d.(store := d2.store, now := later)
    ensures Sound(d2.store) && !InStore(d2.store, ip) && d2.store.pods.Keys == d.store.pods.Keys + {q} && MayGrow(c, d2.store, e)
  {
    r, d1 := Grant(d, f, other, q);
    DrainedStore(c, d.store, e, ip, f, other, q);
    d2 := d1.(now := later);
  }

  lemma DrainedStore(c: PoolConfig, s: Store, e: EniId, ip: IP, f: EniId, other: IP, q: PodKey)
    requires Sound(s) && e in s.pools && !InStore(s, ip) && FreeAt(s, f, other) && q !in s.pods
    requires c.warmIPTarget >= 1 && Available(s) == c.warmIPTarget && |s.pools[e].addresses| < c.maxIPsPerENI
    ensures var s' := Take(s, q, f, other);
            Sound(s') && !InStore(s', ip) && s'.pods.Keys == s.pods.Keys + {q} && MayGrow(c, s', e)
  {
    var s' := Take(s, q, f, other);
    TakenStore(s, f, other, q);
    TakeForNewPod(s, q, f, other, s');
    StillOut(s', s, ip);
    BelowTarget(c, s', e);
  }

  lemma StillOut(s': Store, s: Store, ip: IP)
    requires SlotsWithin(s', s) && !InStore(s, ip)
    ensures !InStore(s', ip)
  {
  }

  lemma BelowTarget(c: PoolConfig, s: Store, e: EniId)
    requires c.warmIPTarget >= 1 && Available(s) < c.warmIPTarget && e in s.pools && |s.pools[e].addresses| < c.maxIPsPerENI
    ensures MayGrow(c, s, e)
  {
  }

  /** A piece of a run, given by what it adds. */
  ghost predicate Extended(c: PoolConfig, ds: seq<State>, steps: seq<Step>, ds': seq<State>, steps': seq<Step>,
                           more: seq<State>, moreSteps: seq<Step>) {
    PolicyRun(c, ds', steps') && ds' == ds + more && steps' == steps + moreSteps && |more| == |moreSteps|
  }

  /** After the refusal: the address is out of the store and recorded, and the pool is at its target again. */
  ghost predicate Given(c: PoolConfig, d: State, e: EniId, ip: IP, f: EniId, other: IP) {
    && d.mgr == Idle && Sound(d.store) && e in d.store.pools && !InStore(d.store, ip) && Ready(d, f, other)
    && Available(d.store) == c.warmIPTarget && |d.store.pools[e].addresses| < c.maxIPsPerENI
  }

  lemma FirstStates(c: PoolConfig, d: State, e: EniId, p: PodKey, ip: IP, f: EniId, other: IP)
      returns (r: Reply, d1: State, d2: State, d3: State, d4: State, d5: State)
    requires AtTarget(c, d, e, p, ip, f, other)
    ensures Next(d, Unassign(p, r), d1) && r.Granted? && r.ip == ip && d1.now == d.now
    ensures Allowed(c, d1, Plan(e, [ip])) && Next(d1, Plan(e, [ip]), d2) && Next(d2, DeleteNext, d3)
    ensures Next(d3, DeallocIPAddresses(false), d4) && Next(d4, RecordCooldown, d5)
    ensures Given(c, d5, e, ip, f, other) && d5.now == d.now && d5.store.pods == d.store.pods - {p}
    ensures ip in d5.cache && d5.cache[ip] == d.now + IP_RECONCILE_COOLDOWN
  {
    r, d1 := ReleaseStates(c, d, e, p, ip, f, other);
    d2, d3 := ShrinkStates(c, d1, e, ip, f, other);
    d4, d5 := RecordStates(d3, e, ip);
  }

  /** The release, and the manager shrinking by the address, which EC2 refuses to take back. */
  lemma FirstHalf(c: PoolConfig, ds: seq<State>, steps: seq<Step>, e: EniId, p: PodKey, ip: IP, f: EniId, other: IP)
      returns (ds': seq<State>, steps': seq<Step>, more: seq<State>, r: Reply)
    requires PolicyRun(c, ds, steps) && AtTarget(c, ds[|steps|], e, p, ip, f, other)
    ensures Extended(c, ds, steps, ds', steps', more,
                     [Unassign(p, r), Plan(e, [ip]), DeleteNext, DeallocIPAddresses(false), RecordCooldown])
    ensures r.Granted? && r.ip == ip && more[0].now == ds[|steps|].now
    ensures Given(c, more[4], e, ip, f, other) && more[4].now == ds[|steps|].now
    ensures more[4].store.pods == ds[|steps|].store.pods - {p}
    ensures ip in more[4].cache && more[4].cache[ip] == more[4].now + IP_RECONCILE_COOLDOWN
  {
    var d1, d2, d3, d4, d5;
    r, d1, d2, d3, d4, d5 := FirstStates(c, ds[|steps|], e, p, ip, f, other);
    ds', steps' := FirstSteps(c, ds, steps, e, p, ip, r, d1, d2, d3, d4, d5);
    more := [d1, d2, d3, d4, d5];
  }

  lemma FirstSteps(c: PoolConfig, ds: seq<State>, steps: seq<Step>, e: EniId, p: PodKey, ip: IP, r: Reply,
                   d1: State, d2: State, d3: State, d4: State, d5: State) returns (ds': seq<State>, steps': seq<Step>)
    requires PolicyRun(c, ds, steps) && Next(ds[|steps|], Unassign(p, r), d1)
    requires Allowed(c, d1, Plan(e, [ip])) && Next(d1, Plan(e, [ip]), d2) && Next(d2, DeleteNext, d3)
    requires Next(d3, DeallocIPAddresses(false), d4) && Next(d4, RecordCooldown, d5)
    ensures Extended(c, ds, steps, ds', steps', [d1, d2, d3, d4, d5],
                     [Unassign(p, r), Plan(e, [ip]), DeleteNext, DeallocIPAddresses(false), RecordCooldown])
  {
    ds', steps' := Extend(c, ds, steps, Unassign(p, r), d1);
    ds', steps' := ExtendTwice(c, ds', steps', Plan(e, [ip]), d2, DeleteNext, d3);
    ds', steps' := ExtendTwice(c, ds', steps', DeallocIPAddresses(false), d4, RecordCooldown, d5);
  }

  /** A pod takes the other address, time passes, and growth finds the address again, which is granted. */
  lemma SecondHalf(c: PoolConfig, ds: seq<State>, steps: seq<Step>, e: EniId, ip: IP, f: EniId, other: IP,
                   q1: PodKey, q2: PodKey, later: Time)
      returns (ds': seq<State>, steps': seq<Step>, more: seq<State>, r1: Reply, r2: Reply)
    requires PolicyRun(c, ds, steps) && c.warmIPTarget >= 1 && ip != "" && q1 != q2
    requires var d := ds[|steps|];
             && Given(c, d, e, ip, f, other)
             && q1 !in d.store.pods && q2 !in d.store.pods && ADDRESS_COOLING_PERIOD < d.now <= later
    ensures Extended(c, ds, steps, ds', steps', more, [AddNetwork(q1, r1), Tick(later), PoolAdd(e, ip), AddNetwork(q2, r2)])
    ensures more[1].now == more[2].now == later && more[1].cache == ds[|steps|].cache && r2.Granted? && r2.ip == ip
  {
    var d1, d2, d3, d4;
    r1, d1, d2, d3, r2, d4 := SecondStates(c, ds[|steps|], e, ip, f, other, q1, q2, later);
    ds', steps' := SecondSteps(c, ds, steps, e, ip, q1, r1, later, d1, d2, d3, q2, r2, d4);
    more := [d1, d2, d3, d4];
  }

  lemma SecondSteps(c: PoolConfig, ds: seq<State>, steps: seq<Step>, e: EniId, ip: IP, q1: PodKey, r1: Reply, later: Time,
                    d1: State, d2: State, d3: State, q2: PodKey, r2: Reply, d4: State)
      returns (ds': seq<State>, steps': seq<Step>)
    requires PolicyRun(c, ds, steps) && Next(ds[|steps|], AddNetwork(q1, r1), d1) && Next(d1, Tick(later), d2)
    requires Allowed(c, d2, PoolAdd(e, ip)) && Next(d2, PoolAdd(e, ip), d3) && Next(d3, AddNetwork(q2, r2), d4)
    ensures Extended(c, ds, steps, ds', steps', [d1, d2, d3, d4],
                     [AddNetwork(q1, r1), Tick(later), PoolAdd(e, ip), AddNetwork(q2, r2)])
  {
    ds', steps' := ExtendTwice(c, ds, steps, AddNetwork(q1, r1), d1, Tick(later), d2);
    ds', steps' := ExtendTwice(c, ds', steps', PoolAdd(e, ip), d3, AddNetwork(q2, r2), d4);
  }

  lemma SecondStates(c: PoolConfig, d: State, e: EniId, ip: IP, f: EniId, other: IP, q1: PodKey, q2: PodKey, later: Time)
      returns (r1: Reply, d1: State, d2: State, d3: State, r2: Reply, d4: State)
    requires Given(c, d, e, ip, f, other) && c.warmIPTarget >= 1 && ip != "" && q1 != q2
    requires q1 !in d.store.pods && q2 !in d.store.pods && ADDRESS_COOLING_PERIOD < d.now <= later
    ensures Next(d, AddNetwork(q1, r1), d1) && Next(d1, Tick(later), d2)
    ensures Allowed(c, d2, PoolAdd(e, ip)) && Next(d2, PoolAdd(e, ip), d3)
    ensures Next(d3, AddNetwork(q2, r2), d4) && r2.Granted? && r2.ip == ip
    ensures d2.now == d3.now == later && d2.cache == d.cache
  {
    r1, d1, d2 := DrainStates(c, d, e, ip, f, other, q1, later);
    d3, r2, d4 := GrowAndGrant(d2, e, ip, q2);
  }

  /** The shape of the continuation, from position `i` on. */
  ghost predicate Bypassed(c: PoolConfig, ds: seq<State>, steps: seq<Step>, i: nat, e: EniId, ip: IP, p: PodKey, q: PodKey, later: Time) {
    PolicyRun(c, ds, steps) && Shape(ds, steps, i, e, ip, p, q, later)
  }

  predicate Shape(ds: seq<State>, steps: seq<Step>, i: nat, e: EniId, ip: IP, p: PodKey, q: PodKey, later: Time) {
    && |steps| == i + 9 && |ds| == i + 10
    && steps[i].Unassign? && steps[i].key == p && steps[i].reply.Granted? && steps[i].reply.ip == ip
    && steps[i + 1] == Plan(e, [ip]) && ds[i + 1].now == ds[i].now
    && steps[i + 7] == PoolAdd(e, ip) && ds[i + 7].now == later
    && ip in ds[i + 7].cache && ds[i + 7].cache[ip] == ds[i].now + IP_RECONCILE_COOLDOWN
    && steps[i + 8].AddNetwork? && steps[i + 8].key == q && steps[i + 8].reply.Granted? && steps[i + 8].reply.ip == ip
    && ds[i + 8].now == later
  }

  /** Where the continuation starts: the pool is exactly at its target, and some other address can be granted. */
  ghost predicate AtTarget(c: PoolConfig, d: State, e: EniId, p: PodKey, ip: IP, f: EniId, other: IP) {
    && Sound(d.store) && d.mgr == Idle && d.now > ADDRESS_COOLING_PERIOD
    && c.warmIPTarget >= 1 && Available(d.store) == c.warmIPTarget
    && p in d.store.pods && d.store.pods[p].ip == ip && InPool(d.store, e, ip) && |d.store.pools[e].addresses| <= c.maxIPsPerENI
    && Ready(d, f, other)
  }

  lemma ReleaseStates(c: PoolConfig, d: State, e: EniId, p: PodKey, ip: IP, f: EniId, other: IP) returns (r: Reply, d': State)
    requires AtTarget(c, d, e, p, ip, f, other)
    ensures Next(d, Unassign(p, r), d') && r.Granted? && r.ip == ip
    ensures Sound(d'.store) && OneOver(c, d', e, ip, f, other) && d'.now == d.now && d'.store.pods == d.store.pods - {p}
  {
    r, d' := Release(d, e, p, ip);
    ReleasedStore(d.store, e, p, ip, d.now);
    GiveBackSound(d.store, p, e, d.now);
    NotAssignedToo(d.store, e, ip, f, other);
  }

  lemma NotAssignedToo(s: Store, e: EniId, ip: IP, f: EniId, other: IP)
    requires UniqueIPs(s) && AssignedAt(s, e, ip) && FreeAt(s, f, other)
    ensures ip != other
  {
    assert InPool(s, e, ip) && InPool(s, f, other);
  }

  /**
   * Any run of the policy that has come to a pool exactly at its warm-IP target, with a pod `p` holding an address and
   * another address ready, can go on like this: the address is released and deleted as surplus, EC2 refuses to take it
   * back, pod `q1` takes the other address so that the pool is too low, and growth at any later time finds the address
   * on the ENI again. Pod `q2` gets it at that time, whatever its cooling period and its entry in the cooldown cache say.
   */
  lemma BypassContinues(c: PoolConfig, ds: seq<State>, steps: seq<Step>, e: EniId, p: PodKey, ip: IP,
                        f: EniId, other: IP, q1: PodKey, q2: PodKey, later: Time)
      returns (ds': seq<State>, steps': seq<Step>)
    requires PolicyRun(c, ds, steps) && AtTarget(c, ds[|steps|], e, p, ip, f, other)
    requires q1 != q2 && q1 !in ds[|steps|].store.pods && q2 !in ds[|steps|].store.pods && ds[|steps|].now <= later
    ensures Bypassed(c, ds', steps', |steps|, e, ip, p, q2, later) && ds'[|steps|] == ds[|steps|]
  {
    var i, d := |steps|, ds[|steps|];
    assert ip != "";
    var ds1, steps1, more1, r := FirstHalf(c, ds, steps, e, p, ip, f, other);
    assert ds1[i + 5] == more1[4];
    var more2, r1, r2;
    ds', steps', more2, r1, r2 := SecondHalf(c, ds1, steps1, e, ip, f, other, q1, q2, later);
    Assembled(ds, steps, d, more1, more2, ds', steps', e, ip, p, q1, q2, r, r1, r2, later);
  }

  lemma Assembled(ds: seq<State>, steps: seq<Step>, d: State, more1: seq<State>, more2: seq<State>, ds': seq<State>, steps': seq<Step>,
                  e: EniId, ip: IP, p: PodKey, q1: PodKey, q2: PodKey, r: Reply, r1: Reply, r2: Reply, later: Time)
    requires |ds| == |steps| + 1 && ds[|steps|] == d && |more1| == 5 && |more2| == 4
    requires ds' == ds + more1 + more2
    requires steps' == steps + [Unassign(p, r), Plan(e, [ip]), DeleteNext, DeallocIPAddresses(false), RecordCooldown]
                       + [AddNetwork(q1, r1), Tick(later), PoolAdd(e, ip), AddNetwork(q2, r2)]
    requires r.Granted? && r.ip == ip && r2.Granted? && r2.ip == ip
    requires more1[0].now == d.now && more2[1].now == more2[2].now == later
    requires ip in more2[1].cache && more2[1].cache[ip] == d.now + IP_RECONCILE_COOLDOWN
    ensures Shape(ds', steps', |steps|, e, ip, p, q2, later) && ds'[|steps|] == d
  {
    var i := |steps|;
    assert ds'[i + 1] == more1[0] && ds'[i + 7] == more2[1] && ds'[i + 8] == more2[2];
  }

  // ----- From the very start -----

  /** The daemon starts on an instance with one ENI and two addresses. */
  lemma StartsUp(c: PoolConfig, e: EniId, ip: IP, other: IP) returns (ds: seq<State>, steps: seq<Step>)
    requires ip != "" && other != "" && ip != other
    ensures PolicyRun(c, ds, steps)
    ensures var d := ds[|steps|];
            && Sound(d.store) && d.mgr == Idle && d.now > ADDRESS_COOLING_PERIOD && d.store.pods == map[]
            && Available(d.store) == 2 && Ready(d, e, ip) && Ready(d, e, other) && |d.store.pools[e].addresses| == 2
  {
    var d0 := State(ADDRESS_COOLING_PERIOD + 1, EMPTY_STORE, map[], Idle, map[]);
    var d1 := d0.(store := AddENI(d0.store, e, 0, true, d0.now).0);
    StartedStore(e, d0.now);
    var s2 := AddedStore(d1.store, e, ip);
    assert !InStore(s2, other);
    var s3 := AddedStore(s2, e, other);
    var d2, d3 := d1.(store := s2), d1.(store := s3);
    ds, steps := Extend(c, [d0], [], AttachENI(e, 0, true), d1);
    ds, steps := ExtendTwice(c, ds, steps, PoolAdd(e, ip), d2, PoolAdd(e, other), d3);
  }

  lemma StartedStore(e: EniId, now: Time)
    ensures var s := AddENI(EMPTY_STORE, e, 0, true, now).0;
            && Sound(s) && e in s.pools && s.pods == map[] && Available(s) == 0 && |s.pools[e].addresses| == 0
            && forall f, i :: !InPool(s, f, i)
  {
    EmptySound();
    AddENISound(EMPTY_STORE, e, 0, true, now);
  }

  lemma FirstPod(c: PoolConfig, ds: seq<State>, steps: seq<Step>, e: EniId, ip: IP, other: IP, p: PodKey)
      returns (ds': seq<State>, steps': seq<Step>)
    requires PolicyRun(c, ds, steps) && c.warmIPTarget == 1 && c.maxIPsPerENI >= 2 && ip != other
    requires var d := ds[|steps|];
             && Sound(d.store) && d.mgr == Idle && d.now > ADDRESS_COOLING_PERIOD && d.store.pods == map[]
             && Available(d.store) == 2 && Ready(d, e, ip) && Ready(d, e, other) && |d.store.pools[e].addresses| == 2
    ensures PolicyRun(c, ds', steps') && AtTarget(c, ds'[|steps'|], e, p, ip, e, other)
    ensures ds'[|steps'|].store.pods.Keys == {p}
  {
    var d := ds[|steps|];
    var r, d' := Grant(d, e, ip, p);
    TakenStore(d.store, e, ip, p);
    TakeForNewPod(d.store, p, e, ip, d'.store);
    ds', steps' := Extend(c, ds, steps, AddNetwork(p, r), d');
  }

  /**
   * So the cooling theorem fails without its condition: on an instance with two addresses and a warm-IP target of one,
   * the manager shrinks at the moment of a release, grows one monitor interval later, and hands the address out within
   * its cooling period.
   */
  lemma RestIsNotGuaranteed(c: PoolConfig, e: EniId, ip: IP, other: IP, p: PodKey, q1: PodKey, q2: PodKey)
      returns (ds: seq<State>, steps: seq<Step>, i: nat)
    requires c.warmIPTarget == 1 && c.maxIPsPerENI >= 2
    requires ip != "" && other != "" && ip != other && p != q1 && p != q2 && q1 != q2
    ensures i + 8 < |ds| && Bypassed(c, ds, steps, i, e, ip, p, q2, ds[i].now + MONITOR_INTERVAL)
    ensures ds[i + 8].now <= ds[i].now + 30 * SECOND
  {
    var ds0, steps0 := StartsUp(c, e, ip, other);
    var ds1, steps1 := FirstPod(c, ds0, steps0, e, ip, other, p);
    i := |steps1|;
    ds, steps := BypassContinues(c, ds1, steps1, e, p, ip, e, other, q1, q2, ds1[i].now + MONITOR_INTERVAL);
  }
}
