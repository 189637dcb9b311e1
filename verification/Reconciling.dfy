/** Reconciling the pool with what the instance metadata and EC2 report. */
module Reconciling {
  import opened Types
  import opened AddressStore
  import opened PoolPolicy

  /** One private address of an ENI, as EC2 describes it. */
  datatype Ec2Address = Ec2Address(ip: IP, primary: bool)

  /** An attached ENI, as the instance metadata service reports it. */
  datatype ENIMetadata = ENIMetadata(eni: EniId, deviceNumber: int, localIPv4s: seq<IP>)

  lemma OneLess<T>(all: set<T>, rest: set<T>, x: T)
    requires x in rest && rest <= all
    ensures all - (rest - {x}) == all - rest + {x}
  {
  }

  /** Of the addresses tried so far, the free ones are gone. */
  ghost predicate FreeGone(s: Store, e: EniId, tried: set<IP>, gone: set<IP>) {
    forall ip :: ip in gone <==> ip in tried && FreeAt(s, e, ip)
  }

  lemma SweepDone(s: Store, e: EniId, admitted: set<IP>, unmarked: set<IP>, gone: set<IP>)
    requires e in s.pools && unmarked == s.pools[e].addresses.Keys - admitted && FreeGone(s, e, unmarked, gone)
    ensures ReducePool(ExtendPool(s, e, admitted), e, gone) == ReconcilePool(s, e, admitted)
  {
    MarkAndSweep(s, e, admitted, gone);
  }

  lemma MinusOneMore(a: set<IP>, b: set<IP>, ip: IP)
    ensures a - (b + {ip}) == a - b - {ip}
    ensures ip !in a || ip in b ==> a - (b + {ip}) == a - b
  {
  }

  // ----- What reconciliation amounts to -----

  function PrimaryOf(primaryIP: map<EniId, IP>, e: EniId): IP {
    if e in primaryIP then primaryIP[e] else ""
  }

  predicate HasPrimary(addrs: seq<Ec2Address>) {
    exists i :: 0 <= i < |addrs| && addrs[i].primary
  }

  /** EC2 can describe the ENI, and the description names a primary address. */
  predicate Described(ec2: map<EniId, seq<Ec2Address>>, e: EniId) {
    e in ec2 && HasPrimary(ec2[e])
  }

  function Secondaries(addrs: seq<Ec2Address>): set<IP> {
    set i | 0 <= i < |addrs| && !addrs[i].primary :: addrs[i].ip
  }

  function LastPrimary(addrs: seq<Ec2Address>): IP {
    if addrs == [] then ""
    else if addrs[|addrs| - 1].primary then addrs[|addrs| - 1].ip
    else LastPrimary(addrs[..|addrs| - 1])
  }

  /** The address recorded as primary is one that EC2 marks as primary, hence never among those offered to pods. */
  lemma {:induction false} RecordedPrimaryIsPrimary(addrs: seq<Ec2Address>)
    requires HasPrimary(addrs)
    ensures Ec2Address(LastPrimary(addrs), true) in addrs
  {
    if !addrs[|addrs| - 1].primary {
      var i :| 0 <= i < |addrs| && addrs[i].primary;
      assert addrs[..|addrs| - 1][i].primary;
      RecordedPrimaryIsPrimary(addrs[..|addrs| - 1]);
    } else {
      assert addrs[|addrs| - 1] == Ec2Address(LastPrimary(addrs), true);
    }
  }

  predicate Confirmed(ec2: map<EniId, seq<Ec2Address>>, e: EniId, ip: IP) {
    Described(ec2, e) && exists i :: 0 <= i < |ec2[e]| && ec2[e][i].ip == ip
  }

  /** The cooldown entry of this address has expired and EC2 confirms the address. */
  predicate Expired(cache: map<IP, Time>, now: Time, ec2: map<EniId, seq<Ec2Address>>, e: EniId, ip: IP) {
    ip in cache && cache[ip] <= now && Confirmed(ec2, e, ip)
  }

  predicate Admits(primary: IP, cache: map<IP, Time>, now: Time, ec2: map<EniId, seq<Ec2Address>>, e: EniId, ip: IP) {
    ip != primary && (ip !in cache || Expired(cache, now, ec2, e, ip))
  }

  function Admitted(primary: IP, cache: map<IP, Time>, now: Time, ec2: map<EniId, seq<Ec2Address>>, e: EniId,
                    locals: seq<IP>): set<IP> {
    set ip | ip in locals && Admits(primary, cache, now, ec2, e, ip)
  }

  /** The cooldown entries that reconciliation clears. */
  function Cleared(primary: IP, cache: map<IP, Time>, now: Time, ec2: map<EniId, seq<Ec2Address>>, e: EniId,
                   locals: seq<IP>): set<IP> {
    set ip | ip in locals && ip != primary && Expired(cache, now, ec2, e, ip)
  }

  /** No pod and no assigned address is lost, and no ENI that stays changes its identity or its assigned count. */
  ghost predicate AssignedKept(s: Store, s': Store) {
    s'.pods == s.pods && s'.assignedTotal == s.assignedTotal
    && (forall e, ip | AssignedAt(s, e, ip) ::
          InPool(s', e, ip) && s'.pools[e].addresses[ip] == s.pools[e].addresses[ip])
    && (forall e | e in s.pools && e in s'.pools :: s'.pools[e] == s.pools[e].(addresses := s'.pools[e].addresses))
  }

  lemma ExtendKeeps(s: Store, e: EniId, ips: set<IP>)
    requires e in s.pools
    ensures AssignedKept(s, ExtendPool(s, e, ips)) && ExtendPool(s, e, ips).pools.Keys == s.pools.Keys
  {
  }

  lemma ReconcileKeeps(s: Store, e: EniId, ips: set<IP>)
    requires e in s.pools
    ensures AssignedKept(s, ReconcilePool(s, e, ips)) && ReconcilePool(s, e, ips).pools.Keys == s.pools.Keys
  {
  }

  lemma AddENIKeeps(s: Store, e: EniId, device: int, primary: bool, now: Time)
    ensures AssignedKept(s, AddENI(s, e, device, primary, now).0)
    ensures AddENI(s, e, device, primary, now).0.pools.Keys == s.pools.Keys + {e}
  {
  }

  /** A podless ENI can go without any assigned address going with it. */
  lemma RemoveENIKeeps(s: Store, e: EniId)
    requires Counters(s)
    ensures AssignedKept(s, RemoveENI(s, e).0)
    ensures RemoveENI(s, e).0.pools.Keys == if e in s.pools && !HasPods(s.pools[e]) then s.pools.Keys - {e} else s.pools.Keys
  {
    if e in s.pools && !HasPods(s.pools[e]) {
      assert PoolOk(e, s.pools[e]);
      DropENISlots(s, e);
    }
  }

  lemma KeptTransitive(s: Store, t: Store, u: Store)
    requires AssignedKept(s, t) && AssignedKept(t, u)
    requires forall e | e in s.pools && e in u.pools :: e in t.pools
    ensures AssignedKept(s, u)
  {
    forall e, ip | AssignedAt(s, e, ip)
      ensures InPool(u, e, ip) && u.pools[e].addresses[ip] == s.pools[e].addresses[ip]
    {
      assert AssignedAt(t, e, ip);
    }
  }

  lemma SecondariesNext(addrs: seq<Ec2Address>, i: nat)
    requires i < |addrs|
    ensures Secondaries(addrs[..i + 1]) == Secondaries(addrs[..i]) + if addrs[i].primary then {} else {addrs[i].ip}
    ensures LastPrimary(addrs[..i + 1]) == if addrs[i].primary then addrs[i].ip else LastPrimary(addrs[..i])
  {
    var a, b := addrs[..i], addrs[..i + 1];
    assert b == a + [addrs[i]];
    forall ip | ip in Secondaries(a)
      ensures ip in Secondaries(b)
    {
      var j :| 0 <= j < |a| && !a[j].primary && a[j].ip == ip;
      assert b[j] == a[j];
    }
    assert b[i] == addrs[i];
    forall ip | ip in Secondaries(b)
      ensures ip in Secondaries(a) + if addrs[i].primary then {} else {addrs[i].ip}
    {
      var j :| 0 <= j < |b| && !b[j].primary && b[j].ip == ip;
      assert j == i || a[j] == b[j];
    }
  }

  /** Looking at one more reported address; an entry cleared earlier no longer stands in its way, nor needs to. */
  lemma AdmittedNext(primary: IP, cache: map<IP, Time>, now: Time, ec2: map<EniId, seq<Ec2Address>>, e: EniId,
                     locals: seq<IP>, i: nat)
    requires i < |locals|
    ensures var ip, cur := locals[i], cache - Cleared(primary, cache, now, ec2, e, locals[..i]);
            var adm, adm' := Admitted(primary, cache, now, ec2, e, locals[..i]), Admitted(primary, cache, now, ec2, e, locals[..i + 1]);
            var clr, clr' := Cleared(primary, cache, now, ec2, e, locals[..i]), Cleared(primary, cache, now, ec2, e, locals[..i + 1]);
            if Admits(primary, cur, now, ec2, e, ip) then adm' == adm + {ip} && cache - clr' == cur - {ip}
            else adm' == adm && clr' == clr
  {
    assert locals[..i + 1] == locals[..i] + [locals[i]];
    var ip := locals[i];
    var clr, clr' := Cleared(primary, cache, now, ec2, e, locals[..i]), Cleared(primary, cache, now, ec2, e, locals[..i + 1]);
    assert clr' == clr + if ip != primary && Expired(cache, now, ec2, e, ip) then {ip} else {};
    if Admits(primary, cache - clr, now, ec2, e, ip) {
      assert cache - clr' == cache - clr - {ip};
    }
  }

  /** The store after setting up one ENI. */
  function SetUp(s: Store, meta: ENIMetadata, isPrimary: bool, networkOk: bool, now: Time,
                 ec2: map<EniId, seq<Ec2Address>>): Store {
    if !Described(ec2, meta.eni) then s
    else
      var added := AddENI(s, meta.eni, meta.deviceNumber, isPrimary, now).0;
      if !isPrimary && !networkOk then added else ExtendPool(added, meta.eni, Secondaries(ec2[meta.eni]))
  }

  lemma SetUpKeeps(s: Store, meta: ENIMetadata, isPrimary: bool, networkOk: bool, now: Time,
                   ec2: map<EniId, seq<Ec2Address>>)
    ensures var s' := SetUp(s, meta, isPrimary, networkOk, now, ec2);
            && AssignedKept(s, s')
            && s'.pools.Keys == if Described(ec2, meta.eni) then s.pools.Keys + {meta.eni} else s.pools.Keys
  {
    if Described(ec2, meta.eni) {
      var added := AddENI(s, meta.eni, meta.deviceNumber, isPrimary, now).0;
      AddENIKeeps(s, meta.eni, meta.deviceNumber, isPrimary, now);
      ExtendKeeps(added, meta.eni, Secondaries(ec2[meta.eni]));
      KeptTransitive(s, added, ExtendPool(added, meta.eni, Secondaries(ec2[meta.eni])));
    }
  }

  lemma SecondariesListed(addrs: seq<Ec2Address>, ip: IP)
    ensures ip in Secondaries(addrs) <==> Ec2Address(ip, false) in addrs
  {
    if ip in Secondaries(addrs) {
      var i :| 0 <= i < |addrs| && !addrs[i].primary && addrs[i].ip == ip;
      assert addrs[i] == Ec2Address(ip, false);
    }
    if Ec2Address(ip, false) in addrs {
      var i :| 0 <= i < |addrs| && addrs[i] == Ec2Address(ip, false);
      assert !addrs[i].primary && addrs[i].ip == ip;
    }
  }

  /**
   * How an ENI enters the store: under the device number that the metadata reports, created now, without pods, and, if
   * it could be filled, with exactly the addresses that EC2 lists as secondary, all of them free.
   */
  ghost predicate Entered(p: EniPool, meta: ENIMetadata, isPrimary: bool, now: Time, addrs: seq<Ec2Address>, filled: bool) {
    && p.id == meta.eni && p.deviceNumber == meta.deviceNumber && p.isPrimary == isPrimary
    && p.createTime == now && p.assignedCount == 0
    && (forall ip :: ip in p.addresses <==> filled && Ec2Address(ip, false) in addrs)
    && (forall ip | ip in p.addresses :: p.addresses[ip] == Address(ip, false, ZERO_TIME))
  }

  /** Setting up an ENI that the store does not know: it enters as described, or not at all; no other ENI changes. */
  lemma SetUpEnters(s: Store, meta: ENIMetadata, isPrimary: bool, networkOk: bool, now: Time, ec2: map<EniId, seq<Ec2Address>>)
    requires meta.eni !in s.pools
    ensures var e, s' := meta.eni, SetUp(s, meta, isPrimary, networkOk, now, ec2);
            && (e in s'.pools <==> Described(ec2, e))
            && (e in s'.pools ==> Entered(s'.pools[e], meta, isPrimary, now, ec2[e], isPrimary || networkOk))
            && s'.pools - {e} == s.pools
  {
    var e := meta.eni;
    if Described(ec2, e) {
      var added := AddENI(s, e, meta.deviceNumber, isPrimary, now).0;
      ExtendedBlank(added, e, ec2[e]);
      OnlyThatENI(s.pools, SetUp(s, meta, isPrimary, networkOk, now, ec2).pools, e);
    } else {
      OnlyThatENI(s.pools, s.pools, e);
    }
  }

  lemma OnlyThatENI(before: map<EniId, EniPool>, after: map<EniId, EniPool>, e: EniId)
    requires e !in before && (after == before || (e in after && after == before[e := after[e]]))
    ensures after - {e} == before
  {
  }

  /** An ENI without addresses gets exactly those listed as secondary, all of them free. */
  lemma ExtendedBlank(s: Store, e: EniId, addrs: seq<Ec2Address>)
    requires e in s.pools && s.pools[e].addresses == map[]
    ensures var p := ExtendPool(s, e, Secondaries(addrs)).pools[e];
            && p == s.pools[e].(addresses := p.addresses)
            && (forall ip :: ip in p.addresses <==> Ec2Address(ip, false) in addrs)
            && (forall ip | ip in p.addresses :: p.addresses[ip] == Address(ip, false, ZERO_TIME))
  {
    forall ip
      ensures ip in Secondaries(addrs) <==> Ec2Address(ip, false) in addrs
    {
      SecondariesListed(addrs, ip);
    }
  }

  /** How EC2 answers while the pool is being increased. */
  datatype GrowthAnswers = GrowthAnswers(
    allocAll: bool,
    allocOne: bool,
    eniConfig: bool,
    newENI: Option<EniId>,
    attached: Option<ENIMetadata>,
    networkOk: bool,
    ec2: map<EniId, seq<Ec2Address>>)

  /** An ENI that may get more addresses; with custom networking the primary is passed over. */
  predicate HasRoom(c: PoolConfig, s: Store, skipPrimary: bool, e: EniId) {
    e in s.pools && !(skipPrimary && s.pools[e].isPrimary) && |s.pools[e].addresses| < c.maxIPsPerENI
  }

  /** There is no warm-IP target, or the pool is short of it. */
  predicate WantsMore(c: PoolConfig, s: Store) {
    var (short, _, enabled) := IPTargetState(c, s);
    !enabled || short > 0
  }

  /** Some ENI has room, and EC2 allocates at least one address. */
  ghost predicate CanFill(c: PoolConfig, s: Store, skipPrimary: bool, a: GrowthAnswers) {
    WantsMore(c, s) && (a.allocAll || a.allocOne) && exists e :: HasRoom(c, s, skipPrimary, e)
  }

  /** The store after filling up an ENI: everything EC2 describes for it has come in. */
  function Filled(s: Store, e: EniId, ec2: map<EniId, seq<Ec2Address>>): Store
    requires e in s.pools
  {
    if Described(ec2, e) then ExtendPool(s, e, Secondaries(ec2[e])) else s
  }

  /** The store after attaching another ENI. */
  function Allocated(s: Store, primaryENI: EniId, customNetworking: bool, a: GrowthAnswers, now: Time): Store {
    if (customNetworking && !a.eniConfig) || a.newENI.None? || a.attached.None? then s
    else SetUp(s, a.attached.value, a.attached.value.eni == primaryENI, a.networkOk, now, a.ec2)
  }

  /** The recorded primary addresses after attaching another ENI: the new one only if it was set up to the end. */
  function RecordedAfter(primaryIP: map<EniId, IP>, primaryENI: EniId, customNetworking: bool, a: GrowthAnswers)
      : map<EniId, IP> {
    if (customNetworking && !a.eniConfig) || a.newENI.None? || a.attached.None? then primaryIP
    else
      var e := a.attached.value.eni;
      if Described(a.ec2, e) && (e == primaryENI || a.networkOk) then primaryIP[e := LastPrimary(a.ec2[e])] else primaryIP
  }

  /** Filling up an ENI brings in what is described for it, which is what decides about removal afterwards. */
  lemma FilledIsGrown(c: PoolConfig, s: Store, e: EniId, ec2: map<EniId, seq<Ec2Address>>)
    requires WithinLimit(c, ec2) && e in s.pools
    ensures Increased(c, s, Filled(s, e, ec2))
    ensures Described(ec2, e) ==> Grown(c, s, Filled(s, e, ec2), e, Secondaries(ec2[e]))
  {
    if Described(ec2, e) {
      assert Grown(c, s, Filled(s, e, ec2), e, Secondaries(ec2[e]));
    }
  }

  lemma AllocatedIsIncrease(c: PoolConfig, s: Store, primaryENI: EniId, customNetworking: bool, a: GrowthAnswers, now: Time)
    requires WithinLimit(c, a.ec2)
    ensures Increased(c, s, Allocated(s, primaryENI, customNetworking, a, now))
  {
    if a.attached.Some? {
      SetUpIncreases(c, s, a.attached.value, a.attached.value.eni == primaryENI, a.networkOk, now, a.ec2);
    }
  }

  /** The pool wants more exactly when it has no warm-IP target or has fewer addresses available than that. */
  lemma WantsMoreIff(c: PoolConfig, s: Store)
    ensures WantsMore(c, s) <==> c.warmIPTarget == 0 || Available(s) < c.warmIPTarget
  {
  }

  /** With room on some ENI, being given a single address is enough, and then all that EC2 lists for an ENI is there. */
  lemma OneAddressSuffices(c: PoolConfig, s: Store, skipPrimary: bool, a: GrowthAnswers, e: EniId)
    requires (c.warmIPTarget == 0 || Available(s) < c.warmIPTarget) && HasRoom(c, s, skipPrimary, e)
    ensures CanFill(c, s, skipPrimary, a) <==> a.allocAll || a.allocOne
    ensures Described(a.ec2, e) ==> forall ip | Ec2Address(ip, false) in a.ec2[e] :: InPool(Filled(s, e, a.ec2), e, ip)
    ensures forall ip | InPool(Filled(s, e, a.ec2), e, ip) && !InPool(s, e, ip) :: Ec2Address(ip, false) in a.ec2[e]
  {
    WantsMoreIff(c, s);
    if Described(a.ec2, e) {
      forall ip
        ensures ip in Secondaries(a.ec2[e]) <==> Ec2Address(ip, false) in a.ec2[e]
      {
        SecondariesListed(a.ec2[e], ip);
      }
    }
  }

  /** With EC2 willing and no ENI of that name in the store, the new ENI comes in with all its secondary addresses. */
  lemma NewENIComesIn(s: Store, primaryENI: EniId, customNetworking: bool, a: GrowthAnswers, now: Time)
    requires (customNetworking ==> a.eniConfig) && a.newENI.Some? && a.attached.Some?
    requires a.attached.value.eni !in s.pools && Described(a.ec2, a.attached.value.eni)
    ensures var meta := a.attached.value;
            var e, s' := meta.eni, Allocated(s, primaryENI, customNetworking, a, now);
            && e in s'.pools && s'.pools - {e} == s.pools
            && Entered(s'.pools[e], meta, e == primaryENI, now, a.ec2[e], e == primaryENI || a.networkOk)
  {
    SetUpEnters(s, a.attached.value, a.attached.value.eni == primaryENI, a.networkOk, now, a.ec2);
  }

  /** Whatever EC2 answers, an ENI that an increase brings in is the attached one, as it is described. */
  lemma OnlyAttachedComesIn(s: Store, primaryENI: EniId, customNetworking: bool, a: GrowthAnswers, now: Time, e: EniId)
    requires e !in s.pools && e in Allocated(s, primaryENI, customNetworking, a, now).pools
    ensures a.attached.Some? && a.attached.value.eni == e && e in a.ec2
    ensures Entered(Allocated(s, primaryENI, customNetworking, a, now).pools[e], a.attached.value, e == primaryENI, now,
                    a.ec2[e], e == primaryENI || a.networkOk)
  {
    var meta := a.attached.value;
    if meta.eni in s.pools {
      SetUpKeeps(s, meta, meta.eni == primaryENI, a.networkOk, now, a.ec2);
    } else {
      SetUpEnters(s, meta, meta.eni == primaryENI, a.networkOk, now, a.ec2);
      assert e == meta.eni || e in Allocated(s, primaryENI, customNetworking, a, now).pools - {meta.eni};
    }
  }

  /** An address that EC2 lists as the one primary of an ENI that was set up never comes in by reconciliation. */
  lemma PrimaryStaysOut(v: View, meta: ENIMetadata, later: ENIMetadata, a: Answers, b: Answers, u: View, primary: IP)
    requires meta.eni !in v.store.pools && SetUpOk(meta, a) && later.eni == meta.eni
    requires forall x | x in a.ec2[meta.eni] && x.primary :: x.ip == primary
    requires u.primaryIP == MarkOne(v, meta, a).primaryIP
    ensures primary !in AdmittedBy(u, later, b)
  {
    RecordedPrimaryIsPrimary(a.ec2[meta.eni]);
  }

  /** EC2 never puts more secondary addresses on an ENI than the instance type allows. */
  ghost predicate WithinLimit(c: PoolConfig, ec2: map<EniId, seq<Ec2Address>>) {
    c.maxIPsPerENI >= 0 && forall e | e in ec2 :: |Secondaries(ec2[e])| <= c.maxIPsPerENI
  }

  /** Setting up an ENI increases the pool by no more than that ENI's worth. */
  lemma SetUpIncreases(c: PoolConfig, s: Store, meta: ENIMetadata, isPrimary: bool, networkOk: bool, now: Time,
                       ec2: map<EniId, seq<Ec2Address>>)
    requires WithinLimit(c, ec2)
    ensures Increased(c, s, SetUp(s, meta, isPrimary, networkOk, now, ec2))
  {
    var e := meta.eni;
    var s' := SetUp(s, meta, isPrimary, networkOk, now, ec2);
    if Described(ec2, e) {
      var added := AddENI(s, e, meta.deviceNumber, isPrimary, now).0;
      var ips: set<IP> := if !isPrimary && !networkOk then {} else Secondaries(ec2[e]);
      ExtendByNothing(added, e);
      assert s' == ExtendPool(added, e, ips);
      assert Grown(c, s, s', e, ips);
    }
  }

  function AttachedIds(attached: seq<ENIMetadata>): set<EniId> {
    set i | 0 <= i < |attached| :: attached[i].eni
  }

  /** Which ENIs the store knows after reconciliation. */
  ghost function ReconciledENIs(s: Store, attached: seq<ENIMetadata>, ec2: map<EniId, seq<Ec2Address>>): set<EniId> {
    (set e | e in AttachedIds(attached) && (e in s.pools || Described(ec2, e)))
    + (set e | e in s.pools && HasPods(s.pools[e]))
  }

  /** Having marked the ENIs of `ids`: nothing is lost, and those that could be described have come in. */
  ghost predicate Marked(s0: Store, s: Store, ids: set<EniId>, ec2: map<EniId, seq<Ec2Address>>) {
    AssignedKept(s0, s) && s.pools.Keys == s0.pools.Keys + (set e | e in ids && Described(ec2, e))
  }

  lemma AttachedNext(attached: seq<ENIMetadata>, i: nat)
    requires i < |attached|
    ensures AttachedIds(attached[..i + 1]) == AttachedIds(attached[..i]) + {attached[i].eni}
  {
    var a, b := attached[..i], attached[..i + 1];
    assert b == a + [attached[i]];
    assert forall j | 0 <= j < |a| :: b[j] == a[j];
    assert b[i] == attached[i];
    forall e | e in AttachedIds(a)
      ensures e in AttachedIds(b)
    {
      var j :| 0 <= j < |a| && a[j].eni == e;
      assert b[j].eni == e;
    }
  }

  lemma MarkedKnown(s0: Store, s: Store, ids: set<EniId>, ec2: map<EniId, seq<Ec2Address>>, e: EniId, admitted: set<IP>)
    requires Marked(s0, s, ids, ec2) && e in s.pools
    ensures Marked(s0, ReconcilePool(s, e, admitted), ids + {e}, ec2)
  {
    ReconcileKeeps(s, e, admitted);
    KeptTransitive(s0, s, ReconcilePool(s, e, admitted));
    assert e in s0.pools || (e in ids && Described(ec2, e));
    assert s0.pools.Keys + (set f | f in ids + {e} && Described(ec2, f))
        == s0.pools.Keys + (set f | f in ids && Described(ec2, f));
  }

  lemma MarkedNew(s0: Store, s: Store, ids: set<EniId>, meta: ENIMetadata, isPrimary: bool, networkOk: bool, now: Time,
                  ec2: map<EniId, seq<Ec2Address>>)
    requires Marked(s0, s, ids, ec2) && meta.eni !in s.pools
    ensures Marked(s0, SetUp(s, meta, isPrimary, networkOk, now, ec2), ids + {meta.eni}, ec2)
  {
    var s' := SetUp(s, meta, isPrimary, networkOk, now, ec2);
    SetUpKeeps(s, meta, isPrimary, networkOk, now, ec2);
    KeptTransitive(s0, s, s');
  }

  // ----- The mark phase as a whole -----

  /** What the mark phase works on. */
  datatype View = View(store: Store, cache: map<IP, Time>, primaryIP: map<EniId, IP>)

  /** Everything that answers the mark phase at its instant. */
  datatype Answers = Answers(now: Time, primaryENI: EniId, networkOk: set<EniId>, ec2: map<EniId, seq<Ec2Address>>)

  function AdmittedBy(v: View, meta: ENIMetadata, a: Answers): set<IP> {
    Admitted(PrimaryOf(v.primaryIP, meta.eni), v.cache, a.now, a.ec2, meta.eni, meta.localIPv4s)
  }

  function ClearedBy(v: View, meta: ENIMetadata, a: Answers): set<IP> {
    Cleared(PrimaryOf(v.primaryIP, meta.eni), v.cache, a.now, a.ec2, meta.eni, meta.localIPv4s)
  }

  predicate SetUpOk(meta: ENIMetadata, a: Answers) {
    Described(a.ec2, meta.eni) && (meta.eni == a.primaryENI || meta.eni in a.networkOk)
  }

  /** One attached ENI: reconciled if the store knows it, set up otherwise. */
  function MarkOne(v: View, meta: ENIMetadata, a: Answers): View {
    if meta.eni in v.store.pools then
      View(ReconcilePool(v.store, meta.eni, AdmittedBy(v, meta, a)), v.cache - ClearedBy(v, meta, a), v.primaryIP)
    else
      View(SetUp(v.store, meta, meta.eni == a.primaryENI, meta.eni in a.networkOk, a.now, a.ec2), v.cache,
           if SetUpOk(meta, a) then v.primaryIP[meta.eni := LastPrimary(a.ec2[meta.eni])] else v.primaryIP)
  }

  function MarkAll(v: View, metas: seq<ENIMetadata>, a: Answers): View {
    if metas == [] then v else MarkOne(MarkAll(v, metas[..|metas| - 1], a), metas[|metas| - 1], a)
  }

  lemma {:induction false} MarkAllMarked(v: View, metas: seq<ENIMetadata>, a: Answers)
    ensures Marked(v.store, MarkAll(v, metas, a).store, AttachedIds(metas), a.ec2)
  {
    if metas != [] {
      var n := |metas| - 1;
      var meta, u := metas[n], MarkAll(v, metas[..n], a);
      MarkAllMarked(v, metas[..n], a);
      AttachedNext(metas, n);
      assert metas[..n + 1] == metas;
      if meta.eni in u.store.pools {
        MarkedKnown(v.store, u.store, AttachedIds(metas[..n]), a.ec2, meta.eni, AdmittedBy(u, meta, a));
      } else {
        MarkedNew(v.store, u.store, AttachedIds(metas[..n]), meta, meta.eni == a.primaryENI, meta.eni in a.networkOk, a.now, a.ec2);
      }
    }
  }

  /** Two views that agree on one ENI and on the cache entries of some addresses. */
  ghost predicate AgreeOn(v: View, u: View, e: EniId, locals: seq<IP>) {
    && (e in v.store.pools <==> e in u.store.pools)
    && (e in v.store.pools ==> v.store.pools[e] == u.store.pools[e])
    && PrimaryOf(v.primaryIP, e) == PrimaryOf(u.primaryIP, e)
    && forall ip | ip in locals :: (ip in v.cache <==> ip in u.cache) && (ip in v.cache ==> v.cache[ip] == u.cache[ip])
  }

  /** Marking one ENI leaves another, on which other addresses are reported, alone. */
  lemma MarkOneAway(v: View, meta: ENIMetadata, a: Answers, e: EniId, locals: seq<IP>)
    requires e != meta.eni && forall ip | ip in locals :: ip !in meta.localIPv4s
    ensures AgreeOn(v, MarkOne(v, meta, a), e, locals)
  {
    if meta.eni in v.store.pools {
      assert forall ip | ip in locals :: ip !in ClearedBy(v, meta, a);
    }
  }

  lemma AgreeTransitive(v: View, u: View, w: View, e: EniId, locals: seq<IP>)
    requires AgreeOn(v, u, e, locals) && AgreeOn(u, w, e, locals)
    ensures AgreeOn(v, w, e, locals)
  {
  }

  lemma {:induction false} MarkAllAway(v: View, metas: seq<ENIMetadata>, a: Answers, e: EniId, locals: seq<IP>)
    requires forall j | 0 <= j < |metas| :: metas[j].eni != e && forall ip | ip in locals :: ip !in metas[j].localIPv4s
    ensures AgreeOn(v, MarkAll(v, metas, a), e, locals)
  {
    if metas != [] {
      var n := |metas| - 1;
      MarkAllAway(v, metas[..n], a, e, locals);
      MarkOneAway(MarkAll(v, metas[..n], a), metas[n], a, e, locals);
      AgreeTransitive(v, MarkAll(v, metas[..n], a), MarkAll(v, metas, a), e, locals);
    }
  }

  /** EC2 attaches an ENI once, and gives an address to one ENI only. */
  ghost predicate ReportedOnce(metas: seq<ENIMetadata>) {
    forall i, j | 0 <= i < |metas| && 0 <= j < |metas| && i != j ::
      metas[i].eni != metas[j].eni && forall ip | ip in metas[i].localIPv4s :: ip !in metas[j].localIPv4s
  }

  /**
   * Which addresses a known ENI holds after reconciliation: those it had that are assigned, and those reported that are
   * not its recorded primary and have no cooldown entry, or one that has run out while EC2 lists the address.
   */
  ghost predicate Reconciled(v: View, p: EniPool, meta: ENIMetadata, a: Answers)
    requires meta.eni in v.store.pools
  {
    var e, before := meta.eni, v.store.pools[meta.eni];
    && p == before.(addresses := p.addresses)
    && (forall ip :: ip in p.addresses <==>
          || AssignedAt(v.store, e, ip)
          || (ip in meta.localIPv4s && !(e in v.primaryIP && v.primaryIP[e] == ip) && !(e !in v.primaryIP && ip == "")
              && (ip in v.cache ==>
                    v.cache[ip] <= a.now && Described(a.ec2, e) && exists x :: x in a.ec2[e] && x.ip == ip)))
    && (forall ip | ip in p.addresses ::
          p.addresses[ip] == if ip in before.addresses then before.addresses[ip] else Address(ip, false, ZERO_TIME))
  }

  lemma ReconciledIs(v: View, meta: ENIMetadata, a: Answers)
    requires meta.eni in v.store.pools
    ensures Reconciled(v, ReconcilePool(v.store, meta.eni, AdmittedBy(v, meta, a)).pools[meta.eni], meta, a)
  {
    var e := meta.eni;
    forall ip
      ensures Confirmed(a.ec2, e, ip) <==> Described(a.ec2, e) && exists x :: x in a.ec2[e] && x.ip == ip
    {
      if Described(a.ec2, e) && exists x :: x in a.ec2[e] && x.ip == ip {
        var x :| x in a.ec2[e] && x.ip == ip;
        var i :| 0 <= i < |a.ec2[e]| && a.ec2[e][i] == x;
      }
    }
  }

  /**
   * What the mark phase makes of one attached ENI. A known one is reconciled, judged by the cooldown cache as it was
   * before the phase; a new one enters the store as it is described.
   */
  ghost predicate MarkedAs(v: View, s: Store, meta: ENIMetadata, a: Answers) {
    var e := meta.eni;
    if e in v.store.pools then e in s.pools && Reconciled(v, s.pools[e], meta, a)
    else
      && (e in s.pools <==> Described(a.ec2, e))
      && (e in s.pools ==> Entered(s.pools[e], meta, e == a.primaryENI, a.now, a.ec2[e], e == a.primaryENI || e in a.networkOk))
  }

  lemma MarkOneAs(v: View, u: View, meta: ENIMetadata, a: Answers)
    requires AgreeOn(v, u, meta.eni, meta.localIPv4s)
    ensures MarkedAs(v, MarkOne(u, meta, a).store, meta, a)
  {
    if meta.eni in v.store.pools {
      assert AdmittedBy(v, meta, a) == AdmittedBy(u, meta, a);
      SameReconciled(v.store, u.store, meta.eni, AdmittedBy(v, meta, a));
      ReconciledIs(v, meta, a);
    } else {
      SetUpEnters(u.store, meta, meta.eni == a.primaryENI, meta.eni in a.networkOk, a.now, a.ec2);
    }
  }

  lemma SameReconciled(s: Store, t: Store, e: EniId, admitted: set<IP>)
    requires e in s.pools && e in t.pools && s.pools[e] == t.pools[e]
    ensures ReconcilePool(s, e, admitted).pools[e] == ReconcilePool(t, e, admitted).pools[e]
  {
  }

  /** Every attached ENI comes out as if it had been the only one, when each is reported once. */
  lemma {:induction false} EveryENIMarked(v: View, metas: seq<ENIMetadata>, a: Answers, i: nat)
    requires ReportedOnce(metas) && i < |metas|
    ensures MarkedAs(v, MarkAll(v, metas, a).store, metas[i], a)
  {
    var n := |metas| - 1;
    if i == n {
      LastMarked(v, metas, a);
    } else {
      EveryENIMarked(v, metas[..n], a, i);
      MarkOneAway(MarkAll(v, metas[..n], a), metas[n], a, metas[i].eni, metas[i].localIPv4s);
    }
  }

  lemma LastMarked(v: View, metas: seq<ENIMetadata>, a: Answers)
    requires ReportedOnce(metas) && metas != []
    ensures MarkedAs(v, MarkAll(v, metas, a).store, metas[|metas| - 1], a)
  {
    var n := |metas| - 1;
    MarkAllAway(v, metas[..n], a, metas[n].eni, metas[n].localIPv4s);
    MarkOneAs(v, MarkAll(v, metas[..n], a), metas[n], a);
  }

  ghost function Podless(s: Store, enis: set<EniId>): set<EniId> {
    set e | e in enis && e in s.pools && !HasPods(s.pools[e])
  }

  /** Marking then sweeping what was not marked leaves exactly the ENIs that should be known. */
  lemma ReconciledKeys(s0: Store, attached: seq<ENIMetadata>, ec2: map<EniId, seq<Ec2Address>>, detached: set<EniId>)
    requires detached == s0.pools.Keys - AttachedIds(attached)
    ensures s0.pools.Keys + (set e | e in AttachedIds(attached) && Described(ec2, e)) - Podless(s0, detached)
            == ReconciledENIs(s0, attached, ec2)
  {
  }

  /** Having swept the ENIs of `done`: those of them without pods are gone. */
  ghost predicate Swept(s0: Store, known: set<EniId>, s: Store, done: set<EniId>) {
    AssignedKept(s0, s) && s.pools.Keys == known - Podless(s0, done)
  }

  /** The ENIs that are not to be swept are as the mark phase left them. */
  ghost predicate Unswept(t: Store, s: Store, detached: set<EniId>) {
    forall e | e !in detached :: (e in s.pools <==> e in t.pools) && (e in t.pools ==> s.pools[e] == t.pools[e])
  }

  lemma SweptNext(s0: Store, t: Store, s: Store, done: set<EniId>, e: EniId, detached: set<EniId>)
    requires Counters(s) && e !in done && e in detached && e in s0.pools && s0.pools.Keys <= t.pools.Keys
    requires Swept(s0, t.pools.Keys, s, done) && Unswept(t, s, detached)
    ensures Swept(s0, t.pools.Keys, RemoveENI(s, e).0, done + {e}) && Unswept(t, RemoveENI(s, e).0, detached)
  {
    var s' := RemoveENI(s, e).0;
    assert e in s.pools && HasPods(s.pools[e]) == HasPods(s0.pools[e]);
    RemoveENIKeeps(s, e);
    KeptTransitive(s0, s, s');
    SweptKeys(s0, t.pools.Keys, done, e);
  }

  lemma SweptKeys(s0: Store, known: set<EniId>, done: set<EniId>, e: EniId)
    requires e in s0.pools
    ensures known - Podless(s0, done + {e}) ==
            if HasPods(s0.pools[e]) then known - Podless(s0, done) else known - Podless(s0, done) - {e}
  {
  }

  /** Deleting one more unmarked address succeeds exactly when it is free. */
  lemma SweepNext(s: Store, e: EniId, admitted: set<IP>, gone: set<IP>, ip: IP)
    requires InPool(s, e, ip) && ip !in gone
    ensures var t := ExtendPool(s, e, admitted);
            DelIP(ReducePool(t, e, gone), e, ip) ==
            if FreeAt(s, e, ip) then (ReducePool(t, e, gone + {ip}), Success) else (ReducePool(t, e, gone), IPInUse)
  {
    var t := ExtendPool(s, e, admitted);
    ReduceByOne(t, e, gone, ip);
    assert InPool(t, e, ip) && (AssignedAt(t, e, ip) <==> AssignedAt(s, e, ip));
  }

  lemma MarkAllNext(v: View, enis: seq<ENIMetadata>, i: nat, a: Answers)
    requires i < |enis|
    ensures MarkAll(v, enis[..i + 1], a) == MarkOne(MarkAll(v, enis[..i], a), enis[i], a)
    ensures v.store.pools.Keys - AttachedIds(enis[..i + 1]) ==
            v.store.pools.Keys - AttachedIds(enis[..i])
            - if enis[i].eni in MarkAll(v, enis[..i], a).store.pools then {enis[i].eni} else {}
  {
    assert enis[..i + 1][..i] == enis[..i];
    AttachedNext(enis, i);
    MarkAllMarked(v, enis[..i], a);
  }

  /** The sweep leaves the attached ENIs as the mark phase made them. */
  lemma AllMarked(v: View, metas: seq<ENIMetadata>, a: Answers, t: Store, s: Store, detached: set<EniId>)
    requires t == MarkAll(v, metas, a).store && Unswept(t, s, detached) && detached == v.store.pools.Keys - AttachedIds(metas)
    ensures ReportedOnce(metas) ==> forall i | 0 <= i < |metas| :: MarkedAs(v, s, metas[i], a)
  {
    if ReportedOnce(metas) {
      forall i: nat | i < |metas|
        ensures MarkedAs(v, s, metas[i], a)
      {
        EveryENIMarked(v, metas, a, i);
        assert metas[i].eni in AttachedIds(metas);
      }
    }
  }
}
