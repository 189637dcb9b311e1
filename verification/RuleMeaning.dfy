/** What the policy rules of pods do to packets: which routing table decides, for every source and destination. */
module RuleMeaning {
  import opened Types
  import opened Cidrs
  import opened PolicyRules
  import opened Leftovers

  // ----- Looking a packet up -----

  /** Is the address in the network? `addr` reads dotted addresses as 32-bit numbers. */
  predicate InNet(addr: IP -> nat, n: Net, x: nat) {
    Contains(Cidr(addr(n.ip), n.prefixLength), x)
  }

  /** A part that a rule does not name matches every packet. */
  predicate Catches(addr: IP -> nat, r: IpRule, src: nat, dst: nat) {
    (r.src.None? || InNet(addr, r.src.value, src)) && (r.dst.None? || InNet(addr, r.dst.value, dst))
  }

  /** The rule that decides: of those that catch the packet the first with the lowest priority number. */
  function Lookup(addr: IP -> nat, rules: seq<IpRule>, src: nat, dst: nat): Option<IpRule> {
    if rules == [] then None
    else
      var rest := Lookup(addr, rules[1..], src, dst);
      if Catches(addr, rules[0], src, dst) && (rest.None? || rules[0].priority <= rest.value.priority) then Some(rules[0])
      else rest
  }

  lemma {:induction false} LookupIsFirst(addr: IP -> nat, rules: seq<IpRule>, src: nat, dst: nat)
    ensures var l := Lookup(addr, rules, src, dst);
            && (l.Some? ==> l.value in rules && Catches(addr, l.value, src, dst))
            && (forall r | r in rules && Catches(addr, r, src, dst) :: l.Some? && l.value.priority <= r.priority)
  {
    if rules != [] {
      LookupIsFirst(addr, rules[1..], src, dst);
      assert rules == [rules[0]] + rules[1..];
    }
  }

  /** One of the pods' rules decides, not a rule that comes after all of them. */
  predicate DecidedByPods(addr: IP -> nat, rules: seq<IpRule>, src: nat, dst: nat) {
    var l := Lookup(addr, rules, src, dst);
    l.Some? && l.value.priority <= FROM_POD_PRIORITY
  }

  function TableOf(addr: IP -> nat, rules: seq<IpRule>, src: nat, dst: nat): int
    requires DecidedByPods(addr, rules, src, dst)
  {
    Lookup(addr, rules, src, dst).value.table
  }

  // ----- A table of wired pods -----

  datatype Wired = Wired(table: int, cidrs: seq<Option<Net>>, external: bool)

  /** Every wired pod has exactly its rules, and all other rules come after those of pods. */
  ghost predicate Plumbed(rules: seq<IpRule>, pods: map<IP, Wired>) {
    && (forall ip | ip in pods ::
          SameRules(Mine(rules, ip), Installed(ip, pods[ip].table, pods[ip].cidrs, pods[ip].external)))
    && (forall r | r in rules && r.priority <= FROM_POD_PRIORITY :: OfSome(r, pods))
  }

  ghost predicate OfSome(r: IpRule, pods: map<IP, Wired>) {
    exists ip :: ip in pods && IsMine(r, ip)
  }

  /** Different pods have different addresses. */
  ghost predicate Numbered(addr: IP -> nat, pods: map<IP, Wired>) {
    forall a, b | a in pods && b in pods && addr(a) == addr(b) :: a == b
  }

  ghost predicate ToPod(addr: IP -> nat, pods: map<IP, Wired>, dst: nat) {
    exists ip :: ip in pods && addr(ip) == dst
  }

  /** The destination is in one of the CIDRs; one that could not be parsed stands for all destinations. */
  predicate Covered(addr: IP -> nat, cidrs: seq<Option<Net>>, dst: nat) {
    exists i :: 0 <= i < |cidrs| && (cidrs[i].None? || InNet(addr, cidrs[i].value, dst))
  }

  lemma HostIsOne(addr: IP -> nat, ip: IP, x: nat)
    ensures InNet(addr, Host(ip), x) <==> x == addr(ip)
  {
  }

  lemma InstalledIn(ip: IP, w: Wired, r: IpRule)
    ensures r in Installed(ip, w.table, w.cidrs, w.external) <==>
            r == ToPodRule(ip) || (w.table > 0 && r in FromRules(ip, w.table, w.cidrs, w.external))
  {
    AddAllIn([], FromRules(ip, w.table, w.cidrs, w.external), r);
  }

  lemma MineIn(rules: seq<IpRule>, ip: IP, w: Wired, r: IpRule)
    requires SameRules(Mine(rules, ip), Installed(ip, w.table, w.cidrs, w.external))
    ensures r in rules && IsMine(r, ip) <==>
            r == ToPodRule(ip) || (w.table > 0 && r in FromRules(ip, w.table, w.cidrs, w.external))
  {
    FilterIn(rules, x => IsMine(x, ip), r);
    InstalledIn(ip, w, r);
    assert r in Mine(rules, ip) <==> r in multiset(Mine(rules, ip));
    assert r in Installed(ip, w.table, w.cidrs, w.external) <==> r in multiset(Installed(ip, w.table, w.cidrs, w.external));
  }

  /** A rule of a wired pod is its to-pod rule or one of its from-pod rules. */
  lemma PodsRule(rules: seq<IpRule>, pods: map<IP, Wired>, r: IpRule) returns (ip: IP)
    requires Plumbed(rules, pods) && r in rules && r.priority <= FROM_POD_PRIORITY
    ensures ip in pods
    ensures r == ToPodRule(ip)
            || (pods[ip].table > 0 && r in FromRules(ip, pods[ip].table, pods[ip].cidrs, pods[ip].external))
  {
    assert OfSome(r, pods);
    ip :| ip in pods && IsMine(r, ip);
    MineIn(rules, ip, pods[ip], r);
  }

  lemma FromRuleCatches(addr: IP -> nat, ip: IP, w: Wired, r: IpRule, src: nat, dst: nat)
    requires r in FromRules(ip, w.table, w.cidrs, w.external) && Catches(addr, r, src, dst)
    ensures src == addr(ip) && r.table == w.table && r.priority == FROM_POD_PRIORITY
    ensures w.external || Covered(addr, w.cidrs, dst)
  {
    FromRulesShape(ip, w.table, w.cidrs, w.external, r);
    HostIsOne(addr, ip, src);
    if !w.external {
      var i :| 0 <= i < |w.cidrs| && r == FromPodToRule(ip, w.table, w.cidrs[i]);
      assert w.cidrs[i].None? || InNet(addr, w.cidrs[i].value, dst);
    }
  }

  lemma SomeFromRuleCatches(addr: IP -> nat, ip: IP, w: Wired, dst: nat) returns (r: IpRule)
    requires w.external || Covered(addr, w.cidrs, dst)
    ensures r in FromRules(ip, w.table, w.cidrs, w.external) && Catches(addr, r, addr(ip), dst)
  {
    HostIsOne(addr, ip, addr(ip));
    if w.external {
      r := FromPodRule(ip, w.table);
      assert FromRules(ip, w.table, w.cidrs, true)[0] == r;
    } else {
      var i :| 0 <= i < |w.cidrs| && (w.cidrs[i].None? || InNet(addr, w.cidrs[i].value, dst));
      r := FromPodToRule(ip, w.table, w.cidrs[i]);
      assert FromRules(ip, w.table, w.cidrs, false)[i] == r;
    }
  }

  // ----- What the rules mean -----

  /** A packet to a wired pod is decided by the main table, whatever its source. */
  lemma ToPodUsesMain(addr: IP -> nat, rules: seq<IpRule>, pods: map<IP, Wired>, src: nat, dst: nat)
    requires Plumbed(rules, pods) && ToPod(addr, pods, dst)
    ensures DecidedByPods(addr, rules, src, dst) && TableOf(addr, rules, src, dst) == 254
  {
    var ip :| ip in pods && addr(ip) == dst;
    var to := ToPodRule(ip);
    MineIn(rules, ip, pods[ip], to);
    HostIsOne(addr, ip, dst);
    LookupIsFirst(addr, rules, src, dst);
    var r := Lookup(addr, rules, src, dst).value;
    var p := PodsRule(rules, pods, r);
    if r != ToPodRule(p) {
      FromRulesShape(p, pods[p].table, pods[p].cidrs, pods[p].external, r);
    }
  }

  /**
   * A packet from a wired pod to an address of no wired pod is decided by the pod's own table if the pod is on a
   * secondary ENI and SNAT is external or the destination lies in one of its CIDRs; otherwise no pod's rule decides.
   */
  lemma FromPodUsesTableIff(addr: IP -> nat, rules: seq<IpRule>, pods: map<IP, Wired>, ip: IP, dst: nat)
    requires Plumbed(rules, pods) && Numbered(addr, pods) && ip in pods && !ToPod(addr, pods, dst)
    ensures DecidedByPods(addr, rules, addr(ip), dst) <==>
            pods[ip].table > 0 && (pods[ip].external || Covered(addr, pods[ip].cidrs, dst))
    ensures DecidedByPods(addr, rules, addr(ip), dst) ==> TableOf(addr, rules, addr(ip), dst) == pods[ip].table
  {
    var w := pods[ip];
    LookupIsFirst(addr, rules, addr(ip), dst);
    if DecidedByPods(addr, rules, addr(ip), dst) {
      DecidesFor(addr, rules, pods, addr(ip), dst);
    }
    if w.table > 0 && (w.external || Covered(addr, w.cidrs, dst)) {
      var r := SomeFromRuleCatches(addr, ip, w, dst);
      MineIn(rules, ip, w, r);
      FromRulesShape(ip, w.table, w.cidrs, w.external, r);
    }
  }

  /** If a pod's rule decides for a packet to no pod, it is a from-pod rule of the packet's source. */
  lemma DecidesFor(addr: IP -> nat, rules: seq<IpRule>, pods: map<IP, Wired>, src: nat, dst: nat)
    requires Plumbed(rules, pods) && !ToPod(addr, pods, dst) && DecidedByPods(addr, rules, src, dst)
    ensures exists p :: p in pods && addr(p) == src && pods[p].table > 0
              && (pods[p].external || Covered(addr, pods[p].cidrs, dst)) && TableOf(addr, rules, src, dst) == pods[p].table
  {
    LookupIsFirst(addr, rules, src, dst);
    var r := Lookup(addr, rules, src, dst).value;
    var p := PodsRule(rules, pods, r);
    HostIsOne(addr, p, dst);
    assert r != ToPodRule(p);
    FromRuleCatches(addr, p, pods[p], r, src, dst);
  }

  /** A packet neither from nor to a wired pod is decided by no pod's rule. */
  lemma StrangersUnaffected(addr: IP -> nat, rules: seq<IpRule>, pods: map<IP, Wired>, src: nat, dst: nat)
    requires Plumbed(rules, pods) && !ToPod(addr, pods, src) && !ToPod(addr, pods, dst)
    ensures !DecidedByPods(addr, rules, src, dst)
  {
    if DecidedByPods(addr, rules, src, dst) {
      DecidesFor(addr, rules, pods, src, dst);
    }
  }

  // ----- Set-up, tear-down and re-plumbing -----

  lemma PlumbedIsTidy(rules: seq<IpRule>, pods: map<IP, Wired>, i: IP)
    requires Plumbed(rules, pods)
    ensures Tidy(rules, i)
  {
    forall r | r in rules && IsFrom(r, i)
      ensures NotToPod(r.priority)
    {
      if r.priority <= FROM_POD_PRIORITY {
        var p := PodsRule(rules, pods, r);
        FromRulesShape(p, pods[p].table, pods[p].cidrs, pods[p].external, r);
      }
    }
  }

  /** A step on one address that keeps the others' rules and adds none but its own. */
  lemma PlumbedStep(rules: seq<IpRule>, rules': seq<IpRule>, pods: map<IP, Wired>, pods': map<IP, Wired>, ip: IP)
    requires Plumbed(rules, pods) && Contained(rules, rules', ip) && Others(rules', ip) == Others(rules, ip)
    requires pods' - {ip} == pods - {ip}
    requires ip in pods' ==> SameRules(Mine(rules', ip), Installed(ip, pods'[ip].table, pods'[ip].cidrs, pods'[ip].external))
    requires ip !in pods' ==> Mine(rules', ip) == []
    ensures Plumbed(rules', pods')
  {
    forall i | i in pods'
      ensures SameRules(Mine(rules', i), Installed(i, pods'[i].table, pods'[i].cidrs, pods'[i].external))
    {
      if i != ip {
        assert i in pods' - {ip} && i in pods && pods[i] == (pods - {ip})[i] == pods'[i];
        PlumbedIsTidy(rules, pods, i);
      }
    }
    forall r | r in rules' && r.priority <= FROM_POD_PRIORITY
      ensures OfSome(r, pods')
    {
      StillOfSome(rules, rules', pods, pods', ip, r);
    }
  }

  lemma StillOfSome(rules: seq<IpRule>, rules': seq<IpRule>, pods: map<IP, Wired>, pods': map<IP, Wired>, ip: IP, r: IpRule)
    requires Plumbed(rules, pods) && Others(rules', ip) == Others(rules, ip) && pods' - {ip} == pods - {ip}
    requires ip !in pods' ==> Mine(rules', ip) == []
    requires r in rules' && r.priority <= FROM_POD_PRIORITY
    ensures OfSome(r, pods')
  {
    FilterIn(rules', x => IsMine(x, ip), r);
    FilterIn(rules', x => !IsMine(x, ip), r);
    FilterIn(rules, x => !IsMine(x, ip), r);
    if !IsMine(r, ip) {
      assert OfSome(r, pods);
      var p :| p in pods && IsMine(r, p);
      assert p in pods - {ip} && p in pods';
    }
  }

  /** After a set-up on a clean address the rules are those of the pods wired before and of this one. */
  lemma SetupPlumbs(rules: seq<IpRule>, pods: map<IP, Wired>, ip: IP, w: Wired)
    requires Plumbed(rules, pods) && ip !in pods && Mine(rules, ip) == []
    ensures Plumbed(SetupRules(rules, ip, w.table, w.cidrs, w.external), pods[ip := w])
  {
    var rules' := SetupRules(rules, ip, w.table, w.cidrs, w.external);
    SetupIsStage(rules, ip, w.table, w.cidrs, w.external);
    SetupStageContained(rules, rules', ip, w.table, w.cidrs, w.external);
    SetupInstalls(rules, ip, w.table, w.cidrs, w.external);
    SetupInstallsIff(rules, ip, w.table, w.cidrs, w.external);
    PlumbedReplace(rules, rules', pods, ip, w);
  }

  lemma PlumbedReplace(rules: seq<IpRule>, rules': seq<IpRule>, pods: map<IP, Wired>, ip: IP, w: Wired)
    requires Plumbed(rules, pods) && Contained(rules, rules', ip) && Others(rules', ip) == Others(rules, ip)
    requires SameRules(Mine(rules', ip), Installed(ip, w.table, w.cidrs, w.external))
    ensures Plumbed(rules', pods[ip := w])
  {
    SameElsewhere(pods, ip, w);
    PlumbedStep(rules, rules', pods, pods[ip := w], ip);
  }

  lemma SameElsewhere(pods: map<IP, Wired>, ip: IP, w: Wired)
    ensures pods[ip := w] - {ip} == pods - {ip}
  {
  }

  /** After a tear-down they are those of the other pods. */
  lemma TeardownPlumbs(rules: seq<IpRule>, pods: map<IP, Wired>, ip: IP)
    requires Plumbed(rules, pods) && ip in pods
    ensures Plumbed(TeardownRules(rules, ip, pods[ip].table), pods - {ip})
  {
    var w := pods[ip];
    var rules' := TeardownRules(rules, ip, w.table);
    PlumbedIsTidy(rules, pods, ip);
    TeardownIsStage(rules, ip, w.table);
    TeardownStageContained(rules, rules', ip, w.table);
    TeardownOfSame(rules, ip, w.table, w.cidrs, w.external);
    TeardownActsOnMine(rules, ip, w.table);
    PlumbedStep(rules, rules', pods, pods - {ip}, ip);
  }

  lemma FromRulesOfPod(ip: IP, w: Wired)
    ensures forall r | r in FromRules(ip, w.table, w.cidrs, w.external) :: PodRule(r, ip) && IsFrom(r, ip)
  {
    forall r | r in FromRules(ip, w.table, w.cidrs, w.external)
      ensures PodRule(r, ip) && IsFrom(r, ip)
    {
      FromRulesShape(ip, w.table, w.cidrs, w.external, r);
    }
  }

  lemma UpdateContained(rules: seq<IpRule>, listed: seq<IpRule>, ip: IP, cidrs: seq<Option<Net>>, requiresSNAT: bool)
    requires Tidy(rules, ip) && From(listed, ip) == From(rules, ip)
    ensures var updated := UpdateRules(rules, listed, ip, cidrs, requiresSNAT);
            Contained(rules, updated, ip) && Others(updated, ip) == Others(rules, ip)
  {
    var found := From(listed, ip);
    var updated, r1 := UpdateRules(rules, listed, ip, cidrs, requiresSNAT), DelAll(rules, found);
    assert found[..|found|] == found;
    assert DelStage(rules, r1, ip, 1);
    DelStageContained(rules, r1, ip, 1);
    if found != [] {
      var w := Wired(found[|found| - 1].table, cidrs, !requiresSNAT);
      FromRulesOfPod(ip, w);
      AddAllContained(r1, FromRules(ip, w.table, w.cidrs, w.external), ip);
      ContainedTransitive(rules, r1, updated, ip);
    }
    UpdateActsOnSource(rules, listed, ip, cidrs, requiresSNAT);
    FilterTwice(updated, r => !IsFrom(r, ip), r => !IsMine(r, ip));
    FilterTwice(rules, r => !IsFrom(r, ip), r => !IsMine(r, ip));
  }

  lemma InstalledCounts(ip: IP, w: Wired, r: IpRule)
    requires w.table > 0
    ensures multiset(Installed(ip, w.table, w.cidrs, w.external))[r] ==
            if IsFrom(r, ip) then multiset(AddAll([], FromRules(ip, w.table, w.cidrs, w.external)))[r]
            else if r == ToPodRule(ip) then 1 else 0
  {
    var to, from := ToPodRule(ip), AddAll([], FromRules(ip, w.table, w.cidrs, w.external));
    assert multiset([to] + from) == multiset{to} + multiset(from);
    if r in from {
      AddAllIn([], FromRules(ip, w.table, w.cidrs, w.external), r);
      FromRulesOfPod(ip, w);
    }
    assert r in from <==> r in multiset(from);
  }

  /** New from-pod rules beside the same other rules are the rules of the new setting. */
  lemma NewSetting(rules: seq<IpRule>, updated: seq<IpRule>, ip: IP, w: Wired, w': Wired)
    requires SameRules(Mine(rules, ip), Installed(ip, w.table, w.cidrs, w.external)) && w.table > 0 && w'.table > 0
    requires NotFrom(updated, ip) == NotFrom(rules, ip)
    requires From(updated, ip) == AddAll([], FromRules(ip, w'.table, w'.cidrs, w'.external))
    ensures SameRules(Mine(updated, ip), Installed(ip, w'.table, w'.cidrs, w'.external))
  {
    forall r
      ensures multiset(Mine(updated, ip))[r] == multiset(Installed(ip, w'.table, w'.cidrs, w'.external))[r]
    {
      InstalledCounts(ip, w, r);
      InstalledCounts(ip, w', r);
      FilterCounts(updated, x => IsMine(x, ip), r);
      FilterCounts(rules, x => IsMine(x, ip), r);
      FilterCounts(updated, x => IsFrom(x, ip), r);
      FilterCounts(updated, x => !IsFrom(x, ip), r);
      FilterCounts(rules, x => !IsFrom(x, ip), r);
    }
  }

  /** After re-plumbing a pod that has from-pod rules the rules are those of the new setting, for its table. */
  lemma UpdatePlumbs(rules: seq<IpRule>, pods: map<IP, Wired>, listed: seq<IpRule>, ip: IP, cidrs: seq<Option<Net>>, external: bool)
    requires Plumbed(rules, pods) && ip in pods && pods[ip].table > 0 && From(listed, ip) == From(rules, ip)
    requires pods[ip].external || pods[ip].cidrs != []
    requires external || Distinct(cidrs)
    ensures Plumbed(UpdateRules(rules, listed, ip, cidrs, !external), pods[ip := Wired(pods[ip].table, cidrs, external)])
  {
    var w := Wired(pods[ip].table, cidrs, external);
    PlumbedIsTidy(rules, pods, ip);
    UpdateFacts(rules, listed, ip, pods[ip], w);
    PlumbedReplace(rules, UpdateRules(rules, listed, ip, cidrs, !external), pods, ip, w);
  }

  lemma UpdateFacts(rules: seq<IpRule>, listed: seq<IpRule>, ip: IP, w: Wired, w': Wired)
    requires Tidy(rules, ip) && SameRules(Mine(rules, ip), Installed(ip, w.table, w.cidrs, w.external))
    requires w.table > 0 && w'.table == w.table && From(listed, ip) == From(rules, ip)
    requires (w.external || w.cidrs != []) && (w'.external || Distinct(w'.cidrs))
    ensures var updated := UpdateRules(rules, listed, ip, w'.cidrs, !w'.external);
            && Contained(rules, updated, ip) && Others(updated, ip) == Others(rules, ip)
            && SameRules(Mine(updated, ip), Installed(ip, w'.table, w'.cidrs, w'.external))
  {
    UpdateContained(rules, listed, ip, w'.cidrs, !w'.external);
    UpdateTakesSetting(rules, listed, ip, w, w');
    NewSetting(rules, UpdateRules(rules, listed, ip, w'.cidrs, !w'.external), ip, w, w');
  }

  lemma UpdateTakesSetting(rules: seq<IpRule>, listed: seq<IpRule>, ip: IP, w: Wired, w': Wired)
    requires SameRules(Mine(rules, ip), Installed(ip, w.table, w.cidrs, w.external)) && w.table > 0 && w'.table == w.table
    requires From(listed, ip) == From(rules, ip) && (w.external || w.cidrs != []) && (w'.external || Distinct(w'.cidrs))
    ensures var updated := UpdateRules(rules, listed, ip, w'.cidrs, !w'.external);
            && From(updated, ip) == AddAll([], FromRules(ip, w'.table, w'.cidrs, w'.external))
            && NotFrom(updated, ip) == NotFrom(rules, ip)
  {
    var found, wanted := From(rules, ip), FromRules(ip, w'.table, w'.cidrs, w'.external);
    var first := FromRules(ip, w.table, w.cidrs, w.external)[0];
    FromRulesOfPod(ip, w);
    MineIn(rules, ip, w, first);
    FilterIn(rules, x => IsFrom(x, ip), first);
    var last := found[|found| - 1];
    FilterIn(rules, x => IsFrom(x, ip), last);
    MineIn(rules, ip, w, last);
    FromRulesShape(ip, w.table, w.cidrs, w.external, last);
    UpdateActsOnSource(rules, listed, ip, w'.cidrs, !w'.external);
    CurrentListing(rules, ip);
  }

  // ----- For every packet -----

  /** Where a packet of the pod goes, according to its setting alone. */
  ghost predicate Routes(addr: IP -> nat, rules: seq<IpRule>, pods: map<IP, Wired>, ip: IP, w: Wired) {
    && (forall src :: DecidedByPods(addr, rules, src, addr(ip)) && TableOf(addr, rules, src, addr(ip)) == 254)
    && (forall dst | !ToPod(addr, pods, dst) ::
          && (DecidedByPods(addr, rules, addr(ip), dst) <==> w.table > 0 && (w.external || Covered(addr, w.cidrs, dst)))
          && (DecidedByPods(addr, rules, addr(ip), dst) ==> TableOf(addr, rules, addr(ip), dst) == w.table))
  }

  lemma PlumbedRoutes(addr: IP -> nat, rules: seq<IpRule>, pods: map<IP, Wired>, ip: IP)
    requires Plumbed(rules, pods) && Numbered(addr, pods) && ip in pods
    ensures Routes(addr, rules, pods, ip, pods[ip])
  {
    forall src
      ensures DecidedByPods(addr, rules, src, addr(ip)) && TableOf(addr, rules, src, addr(ip)) == 254
    {
      ToPodUsesMain(addr, rules, pods, src, addr(ip));
    }
    forall dst | !ToPod(addr, pods, dst)
      ensures DecidedByPods(addr, rules, addr(ip), dst) <==>
              pods[ip].table > 0 && (pods[ip].external || Covered(addr, pods[ip].cidrs, dst))
      ensures DecidedByPods(addr, rules, addr(ip), dst) ==> TableOf(addr, rules, addr(ip), dst) == pods[ip].table
    {
      FromPodUsesTableIff(addr, rules, pods, ip, dst);
    }
  }

  /**
   * Set-up on a clean address, among the rules of any other wired pods: packets to any wired pod use the main table,
   * and packets from any of them to elsewhere use its own table exactly when its setting says so.
   */
  lemma SetupMeaning(addr: IP -> nat, rules: seq<IpRule>, pods: map<IP, Wired>, ip: IP, w: Wired)
    requires Plumbed(rules, pods) && ip !in pods && Mine(rules, ip) == [] && Numbered(addr, pods[ip := w])
    ensures var rules', pods' := SetupRules(rules, ip, w.table, w.cidrs, w.external), pods[ip := w];
            forall p | p in pods' :: Routes(addr, rules', pods', p, pods'[p])
  {
    SetupPlumbs(rules, pods, ip, w);
    AllRoute(addr, SetupRules(rules, ip, w.table, w.cidrs, w.external), pods[ip := w]);
  }

  lemma AllRoute(addr: IP -> nat, rules: seq<IpRule>, pods: map<IP, Wired>)
    requires Plumbed(rules, pods) && Numbered(addr, pods)
    ensures forall p | p in pods :: Routes(addr, rules, pods, p, pods[p])
  {
    forall p | p in pods
      ensures Routes(addr, rules, pods, p, pods[p])
    {
      PlumbedRoutes(addr, rules, pods, p);
    }
  }

  /** The same after re-plumbing to a new SNAT setting or a new CIDR list. */
  lemma UpdateMeaning(addr: IP -> nat, rules: seq<IpRule>, pods: map<IP, Wired>, listed: seq<IpRule>, ip: IP,
                      cidrs: seq<Option<Net>>, external: bool)
    requires Plumbed(rules, pods) && Numbered(addr, pods) && ip in pods && pods[ip].table > 0
    requires From(listed, ip) == From(rules, ip) && (pods[ip].external || pods[ip].cidrs != []) && (external || Distinct(cidrs))
    ensures var rules', pods' := UpdateRules(rules, listed, ip, cidrs, !external), pods[ip := Wired(pods[ip].table, cidrs, external)];
            forall p | p in pods' :: Routes(addr, rules', pods', p, pods'[p])
  {
    UpdatePlumbs(rules, pods, listed, ip, cidrs, external);
    AllRoute(addr, UpdateRules(rules, listed, ip, cidrs, !external), pods[ip := Wired(pods[ip].table, cidrs, external)]);
  }
}
