/**
 * The manager's procedures are runs of the daemon: what they do to store and cache in one pass, the transition system
 * can do step by step, so everything proved over its runs holds of them.
 */
module Refinement {
  import opened Types
  import opened AddressStore
  import opened PoolPolicy
  import opened Daemon
  import opened Shrinking
  import opened Reconciling

  // ----- Pieces of runs -----

  /** The steps lead from one state to the other. */
  ghost predicate Leads(d: State, steps: seq<Step>, d': State)
    decreases |steps|
  {
    if steps == [] then d' == d
    else exists m :: Next(d, steps[0], m) && Leads(m, steps[1..], d')
  }

  lemma LeadsOne(d: State, step: Step, d': State)
    requires Next(d, step, d')
    ensures Leads(d, [step], d')
  {
    assert [step][1..] == [] && Leads(d', [], d');
  }

  lemma {:induction false} LeadsConcat(d: State, a: seq<Step>, m: State, b: seq<Step>, d': State)
    requires Leads(d, a, m) && Leads(m, b, d')
    ensures Leads(d, a + b, d')
    decreases |a|
  {
    if a == [] {
      assert a + b == b;
    } else {
      var n :| Next(d, a[0], n) && Leads(n, a[1..], m);
      LeadsConcat(n, a[1..], m, b, d');
      assert (a + b)[0] == a[0] && (a + b)[1..] == a[1..] + b;
    }
  }

  lemma LeadsFurther(d: State, steps: seq<Step>, m: State, step: Step, d': State)
    requires Leads(d, steps, m) && Next(m, step, d')
    ensures Leads(d, steps + [step], d')
  {
    LeadsOne(m, step, d');
    LeadsConcat(d, steps, m, [step], d');
  }

  lemma LeadsCons(d: State, step: Step, m: State, rest: seq<Step>, d': State)
    requires Next(d, step, m) && Leads(m, rest, d')
    ensures Leads(d, [step] + rest, d')
  {
    LeadsOne(d, step, m);
    LeadsConcat(d, [step], m, rest, d');
  }

  lemma LeadsTwo(d: State, a: Step, m: State, b: Step, d': State)
    requires Next(d, a, m) && Next(m, b, d')
    ensures Leads(d, [a, b], d')
  {
    LeadsOne(d, a, m);
    LeadsOne(m, b, d');
    LeadsConcat(d, [a], m, [b], d');
    assert [a] + [b] == [a, b];
  }

  /** A run can be continued by steps that lead on from its end. */
  lemma {:induction false} RunContinues(ds: seq<State>, steps: seq<Step>, more: seq<Step>, d': State) returns (ds': seq<State>)
    requires Run(ds, steps) && Leads(ds[|steps|], more, d')
    ensures Run(ds', steps + more) && ds <= ds' && ds'[|steps + more|] == d'
    decreases |more|
  {
    if more == [] {
      ds' := ds;
      assert steps + more == steps;
    } else {
      var m :| Next(ds[|steps|], more[0], m) && Leads(m, more[1..], d');
      RunLonger(ds, steps, more[0], m);
      ds' := RunContinues(ds + [m], steps + [more[0]], more[1..], d');
      assert steps + [more[0]] + more[1..] == steps + more;
    }
  }

  lemma RunLonger(ds: seq<State>, steps: seq<Step>, step: Step, d: State)
    requires Run(ds, steps) && Next(ds[|steps|], step, d)
    ensures Run(ds + [d], steps + [step])
  {
    var ds', steps' := ds + [d], steps + [step];
    forall i | 0 <= i < |steps'|
      ensures Next(ds'[i], steps'[i], ds'[i + 1])
    {
      assert i < |steps| ==> Next(ds[i], steps[i], ds[i + 1]);
    }
  }

  /** EC2 gives an address to one ENI only: what is new to this ENI is new to the store. */
  ghost predicate NewToStore(s: Store, e: EniId, ips: set<IP>) {
    forall ip | ip in ips && !InPool(s, e, ip) :: ip != "" && !InStore(s, ip)
  }

  lemma ExtendAdmissible(s: Store, e: EniId, adm: set<IP>, ip: IP)
    requires e in s.pools && (!InPool(s, e, ip) ==> ip != "" && !InStore(s, ip))
    ensures Admissible(ExtendPool(s, e, adm), e, ip)
  {
    var t := ExtendPool(s, e, adm);
    if AddIP(t, e, ip).1 == Success {
      forall f
        ensures !InPool(t, f, ip)
      {
        assert InPool(t, f, ip) ==> InPool(s, f, ip) || (f == e && ip in adm);
      }
    }
  }

  // ----- Growing -----

  function PoolAdds(e: EniId, ips: seq<IP>): seq<Step> {
    if ips == [] then [] else PoolAdds(e, ips[..|ips| - 1]) + [PoolAdd(e, ips[|ips| - 1])]
  }

  lemma PoolAddNext(d: State, s: Store, e: EniId, adm: set<IP>, ip: IP)
    requires d.mgr == Idle && e in s.pools && d.store == ExtendPool(s, e, adm)
    requires !InPool(s, e, ip) ==> ip != "" && !InStore(s, ip)
    ensures Next(d, PoolAdd(e, ip), d.(store := ExtendPool(s, e, adm + {ip})))
  {
    ExtendByOne(s, e, adm, ip);
    ExtendAdmissible(s, e, adm, ip);
  }

  lemma SeqSetSplit(ips: seq<IP>)
    requires ips != []
    ensures SeqSet(ips) == SeqSet(ips[..|ips| - 1]) + {ips[|ips| - 1]}
  {
    assert ips == ips[..|ips| - 1] + [ips[|ips| - 1]];
  }

  lemma {:induction false} ExtendLeads(d: State, e: EniId, ips: seq<IP>)
    requires d.mgr == Idle && e in d.store.pools && NewToStore(d.store, e, SeqSet(ips))
    ensures Leads(d, PoolAdds(e, ips), d.(store := ExtendPool(d.store, e, SeqSet(ips))))
  {
    if ips == [] {
      ExtendByNothing(d.store, e);
      assert SeqSet(ips) == {};
    } else {
      var before, ip := ips[..|ips| - 1], ips[|ips| - 1];
      SeqSetSplit(ips);
      ExtendLeads(d, e, before);
      var m := d.(store := ExtendPool(d.store, e, SeqSet(before)));
      PoolAddNext(m, d.store, e, SeqSet(before), ip);
      LeadsFurther(d, PoolAdds(e, before), m, PoolAdd(e, ip), d.(store := ExtendPool(d.store, e, SeqSet(ips))));
    }
  }

  lemma {:induction false} PoolAddsShape(e: EniId, ips: seq<IP>)
    ensures forall x | x in PoolAdds(e, ips) :: x.PoolAdd?
  {
    if ips != [] {
      PoolAddsShape(e, ips[..|ips| - 1]);
    }
  }

  /** Setting up an ENI attaches it and then adds its secondary addresses one by one. */
  lemma SetUpLeads(d: State, meta: ENIMetadata, isPrimary: bool, networkOk: bool, ec2: map<EniId, seq<Ec2Address>>, ips: seq<IP>)
      returns (steps: seq<Step>)
    requires d.mgr == Idle && (Described(ec2, meta.eni) ==> SeqSet(ips) == Secondaries(ec2[meta.eni]))
    requires NewToStore(d.store, meta.eni, SeqSet(ips))
    ensures Leads(d, steps, d.(store := SetUp(d.store, meta, isPrimary, networkOk, d.now, ec2)))
    ensures forall x | x in steps :: x.AttachENI? || x.PoolAdd?
  {
    if !Described(ec2, meta.eni) {
      steps := [];
    } else {
      var e, attach := meta.eni, AttachENI(meta.eni, meta.deviceNumber, isPrimary);
      var m := d.(store := AddENI(d.store, e, meta.deviceNumber, isPrimary, d.now).0);
      LeadsOne(d, attach, m);
      steps := [attach];
      if isPrimary || networkOk {
        AddENISlots(d.store, e, meta.deviceNumber, isPrimary, d.now);
        ExtendLeads(m, e, ips);
        PoolAddsShape(e, ips);
        LeadsConcat(d, [attach], m, PoolAdds(e, ips), d.(store := ExtendPool(m.store, e, SeqSet(ips))));
        steps := [attach] + PoolAdds(e, ips);
      }
    }
  }

  // ----- Reconciling -----

  /** For every reported address that passes: the check on the cooldown cache, and the addition. */
  function CheckSteps(primary: IP, cache: map<IP, Time>, now: Time, ec2: map<EniId, seq<Ec2Address>>, e: EniId,
                      locals: seq<IP>): seq<Step> {
    if locals == [] then []
    else
      var before, ip := locals[..|locals| - 1], locals[|locals| - 1];
      CheckSteps(primary, cache, now, ec2, e, before)
      + if Admits(primary, cache - Cleared(primary, cache, now, ec2, e, before), now, ec2, e, ip)
        then [CheckCooldown(e, ip, Confirmed(ec2, e, ip)), Admit]
        else []
  }

  /** One reported address: what passes the manager's test passes the daemon's. */
  lemma AdmitLeads(d: State, e: EniId, s: Store, adm: set<IP>, primary: IP, ec2: map<EniId, seq<Ec2Address>>, ip: IP)
    requires d.mgr == Idle && e in s.pools && d.store == ExtendPool(s, e, adm)
    requires Admits(primary, d.cache, d.now, ec2, e, ip) && (!InPool(s, e, ip) ==> ip != "" && !InStore(s, ip))
    ensures Leads(d, [CheckCooldown(e, ip, Confirmed(ec2, e, ip)), Admit],
                  d.(store := ExtendPool(s, e, adm + {ip}), cache := d.cache - {ip}))
  {
    var m := d.(cache := d.cache - {ip}, mgr := Admitting(e, ip));
    var d' := d.(store := ExtendPool(s, e, adm + {ip}), cache := d.cache - {ip});
    ExtendByOne(s, e, adm, ip);
    ExtendAdmissible(s, e, adm, ip);
    assert Next(d, CheckCooldown(e, ip, Confirmed(ec2, e, ip)), m);
    assert Next(m, Admit, d');
    LeadsTwo(d, CheckCooldown(e, ip, Confirmed(ec2, e, ip)), m, Admit, d');
  }

  lemma {:induction false} CheckLeads(d: State, e: EniId, primary: IP, ec2: map<EniId, seq<Ec2Address>>, locals: seq<IP>)
    requires d.mgr == Idle && e in d.store.pools
    requires NewToStore(d.store, e, Admitted(primary, d.cache, d.now, ec2, e, locals))
    ensures Leads(d, CheckSteps(primary, d.cache, d.now, ec2, e, locals),
                  d.(store := ExtendPool(d.store, e, Admitted(primary, d.cache, d.now, ec2, e, locals)),
                     cache := d.cache - Cleared(primary, d.cache, d.now, ec2, e, locals)))
  {
    if locals == [] {
      ExtendByNothing(d.store, e);
      assert Admitted(primary, d.cache, d.now, ec2, e, locals) == {};
      assert Cleared(primary, d.cache, d.now, ec2, e, locals) == {};
      assert d.cache - {} == d.cache;
    } else {
      var n := |locals| - 1;
      var before, ip := locals[..n], locals[n];
      assert locals[..n + 1] == locals;
      var adm, clr := Admitted(primary, d.cache, d.now, ec2, e, before), Cleared(primary, d.cache, d.now, ec2, e, before);
      assert adm <= Admitted(primary, d.cache, d.now, ec2, e, locals);
      CheckLeads(d, e, primary, ec2, before);
      AdmittedNext(primary, d.cache, d.now, ec2, e, locals, n);
      var m := d.(store := ExtendPool(d.store, e, adm), cache := d.cache - clr);
      if Admits(primary, m.cache, d.now, ec2, e, ip) {
        CheckNext(d, e, primary, ec2, locals, m, adm);
      } else {
        assert CheckSteps(primary, d.cache, d.now, ec2, e, before) + [] == CheckSteps(primary, d.cache, d.now, ec2, e, before);
      }
    }
  }

  lemma CheckNext(d: State, e: EniId, primary: IP, ec2: map<EniId, seq<Ec2Address>>, locals: seq<IP>, m: State, adm: set<IP>)
    requires locals != [] && d.mgr == Idle && e in d.store.pools
    requires NewToStore(d.store, e, Admitted(primary, d.cache, d.now, ec2, e, locals))
    requires var n := |locals| - 1;
             && m == d.(store := ExtendPool(d.store, e, adm), cache := m.cache)
             && m.cache == d.cache - Cleared(primary, d.cache, d.now, ec2, e, locals[..n])
             && Leads(d, CheckSteps(primary, d.cache, d.now, ec2, e, locals[..n]), m)
             && Admits(primary, m.cache, d.now, ec2, e, locals[n])
             && Admitted(primary, d.cache, d.now, ec2, e, locals) == adm + {locals[n]}
             && d.cache - Cleared(primary, d.cache, d.now, ec2, e, locals) == m.cache - {locals[n]}
    ensures Leads(d, CheckSteps(primary, d.cache, d.now, ec2, e, locals),
                  d.(store := ExtendPool(d.store, e, Admitted(primary, d.cache, d.now, ec2, e, locals)),
                     cache := d.cache - Cleared(primary, d.cache, d.now, ec2, e, locals)))
  {
    var n := |locals| - 1;
    var ip := locals[n];
    var d' := d.(store := ExtendPool(d.store, e, adm + {ip}), cache := m.cache - {ip});
    AdmitLeads(m, e, d.store, adm, primary, ec2, ip);
    LeadsConcat(d, CheckSteps(primary, d.cache, d.now, ec2, e, locals[..n]), m,
                [CheckCooldown(e, ip, Confirmed(ec2, e, ip)), Admit], d');
  }

  lemma SweepStep(d: State, s: Store, e: EniId, gone: set<IP>, ip: IP)
    requires d.mgr == Idle && e in s.pools && d.store == ReducePool(s, e, gone) && ip !in gone
    ensures Next(d, SweepIP(e, ip), d.(store := ReducePool(s, e, if FreeAt(s, e, ip) then gone + {ip} else gone)))
  {
    ReduceByOne(s, e, gone, ip);
  }

  lemma FreeGoneNext(s: Store, e: EniId, tried: set<IP>, gone: set<IP>, ip: IP)
    requires ip in tried && FreeGone(s, e, tried - {ip}, gone)
    ensures ip !in gone && FreeGone(s, e, tried, if FreeAt(s, e, ip) then gone + {ip} else gone)
  {
  }

  /** Deleting unmarked addresses one by one, in any order: the free ones go. */
  lemma {:induction false} SweepLeads(d: State, e: EniId, unmarked: set<IP>) returns (steps: seq<Step>, gone: set<IP>)
    requires d.mgr == Idle && e in d.store.pools
    ensures FreeGone(d.store, e, unmarked, gone) && Leads(d, steps, d.(store := ReducePool(d.store, e, gone)))
    ensures forall x | x in steps :: x.SweepIP?
    decreases |unmarked|
  {
    if unmarked == {} {
      steps, gone := [], {};
      ReduceByNothing(d.store, e);
    } else {
      var ip :| ip in unmarked;
      var before, gone0 := SweepLeads(d, e, unmarked - {ip});
      FreeGoneNext(d.store, e, unmarked, gone0, ip);
      gone := if FreeAt(d.store, e, ip) then gone0 + {ip} else gone0;
      var m := d.(store := ReducePool(d.store, e, gone0));
      SweepStep(m, d.store, e, gone0, ip);
      LeadsFurther(d, before, m, SweepIP(e, ip), d.(store := ReducePool(d.store, e, gone)));
      steps := before + [SweepIP(e, ip)];
    }
  }

  /**
   * Reconciling one ENI is a run of the daemon: checks on the cooldown cache, admissions and deletions lead from the
   * store and cache before to exactly those that the pass leaves.
   */
  lemma ReconcileLeads(d: State, v: View, meta: ENIMetadata, a: Answers) returns (steps: seq<Step>)
    requires d.mgr == Idle && v.store == d.store && v.cache == d.cache && a.now == d.now && meta.eni in d.store.pools
    requires NewToStore(d.store, meta.eni, AdmittedBy(v, meta, a))
    ensures Leads(d, steps, d.(store := MarkOne(v, meta, a).store, cache := MarkOne(v, meta, a).cache))
    ensures forall x | x in steps :: x.CheckCooldown? || x.Admit? || x.SweepIP?
  {
    var e, primary := meta.eni, PrimaryOf(v.primaryIP, meta.eni);
    var adm := AdmittedBy(v, meta, a);
    CheckLeads(d, e, primary, a.ec2, meta.localIPv4s);
    CheckStepsShape(primary, d.cache, d.now, a.ec2, e, meta.localIPv4s);
    var checks := CheckSteps(primary, d.cache, d.now, a.ec2, e, meta.localIPv4s);
    var m := d.(store := ExtendPool(d.store, e, adm), cache := d.cache - ClearedBy(v, meta, a));
    var unmarked := d.store.pools[e].addresses.Keys - adm;
    var sweeps, gone := SweepLeads(m, e, unmarked);
    SameFree(d.store, e, adm, unmarked, gone);
    SweepDone(d.store, e, adm, unmarked, gone);
    LeadsConcat(d, checks, m, sweeps, d.(store := MarkOne(v, meta, a).store, cache := MarkOne(v, meta, a).cache));
    steps := checks + sweeps;
  }

  lemma SameFree(s: Store, e: EniId, adm: set<IP>, unmarked: set<IP>, gone: set<IP>)
    requires e in s.pools && unmarked == s.pools[e].addresses.Keys - adm
    requires FreeGone(ExtendPool(s, e, adm), e, unmarked, gone)
    ensures FreeGone(s, e, unmarked, gone)
  {
    assert forall ip | ip in unmarked :: FreeAt(ExtendPool(s, e, adm), e, ip) <==> FreeAt(s, e, ip);
  }

  lemma {:induction false} CheckStepsShape(primary: IP, cache: map<IP, Time>, now: Time, ec2: map<EniId, seq<Ec2Address>>, e: EniId,
                                           locals: seq<IP>)
    ensures forall x | x in CheckSteps(primary, cache, now, ec2, e, locals) :: x.CheckCooldown? || x.Admit?
  {
    if locals != [] {
      CheckStepsShape(primary, cache, now, ec2, e, locals[..|locals| - 1]);
    }
  }

  // ----- Shrinking -----

  /** What is left of a list of deletions: those of its addresses that are free at the time. */
  ghost predicate Deletes(s: Store, e: EniId, todo: seq<IP>, more: seq<IP>) {
    forall ip :: ip in more <==> ip in todo && FreeAt(s, e, ip)
  }

  lemma {:induction false} DeleteLeads(d: State, e: EniId, todo: seq<IP>, deleted: seq<IP>)
      returns (steps: seq<Step>, more: seq<IP>)
    requires d.mgr == Deleting(e, todo, deleted) && e in d.store.pools
    ensures Deletes(d.store, e, todo, more)
    ensures Leads(d, steps, d.(store := ReducePool(d.store, e, SeqSet(more)), mgr := Deleting(e, [], deleted + more)))
    decreases |todo|
  {
    if todo == [] {
      steps, more := [], [];
      ReduceByNothing(d.store, e);
      assert SeqSet(more) == {} && deleted + more == deleted;
    } else {
      var d1, one := DeleteStep(d, e, todo, deleted);
      var rest, more1 := DeleteLeads(d1, e, todo[1..], deleted + one);
      more := one + more1;
      DeletedMore(d.store, e, todo, d1.store, DelIP(d.store, e, todo[0]).1, more1);
      AssocConcat(deleted, one, more1);
      LeadsCons(d, DeleteNext, d1, rest, d.(store := ReducePool(d.store, e, SeqSet(more)), mgr := Deleting(e, [], deleted + more)));
      steps := [DeleteNext] + rest;
    }
  }

  lemma DeleteStep(d: State, e: EniId, todo: seq<IP>, deleted: seq<IP>) returns (d1: State, one: seq<IP>)
    requires d.mgr == Deleting(e, todo, deleted) && e in d.store.pools && todo != []
    ensures one == if DelIP(d.store, e, todo[0]).1 == Success then [todo[0]] else []
    ensures d1 == d.(store := DelIP(d.store, e, todo[0]).0, mgr := Deleting(e, todo[1..], deleted + one))
    ensures Next(d, DeleteNext, d1) && e in d1.store.pools
  {
    one := if DelIP(d.store, e, todo[0]).1 == Success then [todo[0]] else [];
    d1 := d.(store := DelIP(d.store, e, todo[0]).0, mgr := Deleting(e, todo[1..], deleted + one));
    assert deleted + [] == deleted;
  }

  lemma DeletedMore(s: Store, e: EniId, todo: seq<IP>, s1: Store, st: Status, more: seq<IP>)
    requires e in s.pools && todo != [] && (s1, st) == DelIP(s, e, todo[0]) && Deletes(s1, e, todo[1..], more)
    ensures var all := (if st == Success then [todo[0]] else []) + more;
            ReducePool(s1, e, SeqSet(more)) == ReducePool(s, e, SeqSet(all)) && Deletes(s, e, todo, all)
  {
    var ip := todo[0];
    assert todo == [ip] + todo[1..];
    if st == Success {
      DeletedOne(s, e, ip);
      ReduceTwice(s, e, {ip}, SeqSet(more));
      SetOfMore(ip, more);
      DeletesFirst(s, s1, e, ip, todo[1..], more);
    } else {
      NothingBefore(more);
      DeletesSkip(s, e, ip, todo[1..], more);
    }
  }

  lemma SetOfMore(ip: IP, more: seq<IP>)
    ensures SeqSet([ip] + more) == {ip} + SeqSet(more)
  {
  }

  lemma DeletesFirst(s: Store, s1: Store, e: EniId, ip: IP, rest: seq<IP>, more: seq<IP>)
    requires FreeAt(s, e, ip) && forall i :: FreeAt(s1, e, i) <==> FreeAt(s, e, i) && i != ip
    requires Deletes(s1, e, rest, more)
    ensures Deletes(s, e, [ip] + rest, [ip] + more)
  {
    forall i
      ensures i in [ip] + more <==> i in [ip] + rest && FreeAt(s, e, i)
    {
      assert i in more <==> i in rest && FreeAt(s1, e, i);
    }
  }

  lemma DeletesSkip(s: Store, e: EniId, ip: IP, rest: seq<IP>, more: seq<IP>)
    requires !FreeAt(s, e, ip) && Deletes(s, e, rest, more)
    ensures Deletes(s, e, [ip] + rest, more)
  {
    forall i
      ensures i in more <==> i in [ip] + rest && FreeAt(s, e, i)
    {
      assert i in more <==> i in rest && FreeAt(s, e, i);
    }
  }

  lemma DeletedOne(s: Store, e: EniId, ip: IP)
    requires e in s.pools && DelIP(s, e, ip).1 == Success
    ensures DelIP(s, e, ip).0 == ReducePool(s, e, {ip}) && FreeAt(s, e, ip)
    ensures forall i :: FreeAt(ReducePool(s, e, {ip}), e, i) <==> FreeAt(s, e, i) && i != ip
  {
    ReduceByNothing(s, e);
    ReduceByOne(s, e, {}, ip);
    assert {} + {ip} == {ip};
  }

  lemma ReduceTwice(s: Store, e: EniId, a: set<IP>, b: set<IP>)
    requires e in s.pools
    ensures ReducePool(ReducePool(s, e, a), e, b) == ReducePool(s, e, a + b)
  {
    var l, r := ReducePool(ReducePool(s, e, a), e, b), ReducePool(s, e, a + b);
    assert l.pools[e].addresses == r.pools[e].addresses;
    assert l.pools[e] == r.pools[e];
    assert l.pools == r.pools;
  }

  /** Shrinking one ENI is a run of the daemon too, whether or not EC2 takes the addresses back. */
  lemma ShrinkLeads(d: State, e: EniId, ips: seq<IP>, ok: bool) returns (steps: seq<Step>, deleted: seq<IP>)
    requires d.mgr == Idle && e in d.store.pools
    ensures forall ip :: ip in deleted <==> ip in ips && FreeAt(d.store, e, ip)
    ensures Leads(d, steps, d.(store := ReducePool(d.store, e, SeqSet(deleted)),
                               cache := CacheAdd(d.cache, deleted, d.now + IP_RECONCILE_COOLDOWN)))
  {
    var first, second;
    first, deleted := PlanLeads(d, e, ips);
    var d2 := d.(store := ReducePool(d.store, e, SeqSet(deleted)), mgr := Deleting(e, [], deleted));
    var d3 := d.(store := d2.store, cache := CacheAdd(d.cache, deleted, d.now + IP_RECONCILE_COOLDOWN));
    second := RecordLeads(d, d2, e, deleted, ok, d3.cache);
    LeadsConcat(d, first, d2, second, d3);
    steps := first + second;
  }

  lemma PlanLeads(d: State, e: EniId, ips: seq<IP>) returns (steps: seq<Step>, deleted: seq<IP>)
    requires d.mgr == Idle && e in d.store.pools
    ensures Deletes(d.store, e, ips, deleted)
    ensures Leads(d, steps, d.(store := ReducePool(d.store, e, SeqSet(deleted)), mgr := Deleting(e, [], deleted)))
  {
    var d1 := d.(mgr := Deleting(e, ips, []));
    var dels;
    dels, deleted := DeleteLeads(d1, e, ips, []);
    NothingBefore(deleted);
    LeadsCons(d, Plan(e, ips), d1, dels, d.(store := ReducePool(d.store, e, SeqSet(deleted)), mgr := Deleting(e, [], deleted)));
    steps := [Plan(e, ips)] + dels;
  }

  lemma NothingBefore(a: seq<IP>)
    ensures [] + a == a
  {
  }

  lemma AssocConcat(a: seq<IP>, b: seq<IP>, c: seq<IP>)
    ensures a + b + c == a + (b + c)
  {
  }

  lemma RecordLeads(d: State, d2: State, e: EniId, deleted: seq<IP>, ok: bool, cache: map<IP, Time>) returns (steps: seq<Step>)
    requires d.mgr == Idle && d2 == d.(store := d2.store, mgr := Deleting(e, [], deleted))
    requires cache == CacheAdd(d.cache, deleted, d.now + IP_RECONCILE_COOLDOWN)
    ensures Leads(d2, steps, d.(store := d2.store, cache := cache))
  {
    steps := [DeallocIPAddresses(ok), RecordCooldown];
    LeadsTwo(d2, DeallocIPAddresses(ok), d2.(mgr := Recording(deleted)), RecordCooldown, d.(store := d2.store, cache := cache));
  }

  // ----- Shrinking, then reconciling -----

  /**
   * Addresses that shrinking took out at one time are in no pool after a reconciliation within the next minute, whatever
   * is reported, and are back after a later one that reports them while EC2 lists them.
   */
  lemma ShrunkThenReconciled(s0: Store, cache0: map<IP, Time>, v: View, t: Time, e: EniId, ip: IP, meta: ENIMetadata, a: Answers)
    requires UniqueIPs(s0) && OnlyFreeGone(s0, v.store)
    requires GoneAreCached(s0, v.store, cache0, v.cache, t + IP_RECONCILE_COOLDOWN)
    requires InPool(s0, e, ip) && !InPool(v.store, e, ip) && meta.eni in v.store.pools
    ensures a.now < t + 60 * SECOND ==> !InStore(MarkOne(v, meta, a).store, ip)
    ensures a.now >= t + 60 * SECOND && meta.eni == e && ip in meta.localIPv4s && !(e in v.primaryIP && v.primaryIP[e] == ip)
            && ip != "" && Described(a.ec2, e) && (exists x :: x in a.ec2[e] && x.ip == ip)
            ==> InPool(MarkOne(v, meta, a).store, e, ip)
  {
    assert v.cache[ip] == t + IP_RECONCILE_COOLDOWN;
    GoneFromAll(s0, v.store, e, ip);
    CachedThenReconciled(v, ip, meta, a);
  }

  lemma GoneFromAll(s0: Store, s: Store, e: EniId, ip: IP)
    requires UniqueIPs(s0) && OnlyFreeGone(s0, s) && InPool(s0, e, ip) && !InPool(s, e, ip)
    ensures !InStore(s, ip)
  {
    forall f
      ensures !InPool(s, f, ip)
    {
      assert InPool(s, f, ip) ==> InPool(s0, f, ip);
    }
  }

  /** Of an address that is out of the store but cached, the expiry decides. */
  lemma CachedThenReconciled(v: View, ip: IP, meta: ENIMetadata, a: Answers)
    requires !InStore(v.store, ip) && ip in v.cache && meta.eni in v.store.pools
    ensures a.now < v.cache[ip] ==> !InStore(MarkOne(v, meta, a).store, ip)
    ensures var e := meta.eni;
            a.now >= v.cache[ip] && ip in meta.localIPv4s && !(e in v.primaryIP && v.primaryIP[e] == ip) && ip != ""
            && Described(a.ec2, e) && (exists x :: x in a.ec2[e] && x.ip == ip)
            ==> InPool(MarkOne(v, meta, a).store, e, ip)
  {
    var s' := MarkOne(v, meta, a).store;
    ReconciledIs(v, meta, a);
    assert !InPool(v.store, meta.eni, ip);
    forall f | f != meta.eni
      ensures !InPool(s', f, ip)
    {
      assert !InPool(v.store, f, ip);
    }
  }
}
