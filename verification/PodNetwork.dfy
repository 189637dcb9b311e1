/** The plug-in's driver and the node agent's rule maintenance, acting on the kernel's rules and routes. */
module PodNetwork {
  import opened Types
  import opened PolicyRules
  import opened Leftovers

  datatype Errno = NoError | ENOENT | EEXIST | Other

  /** The kernel tables. Any call may fail with some other error, and then changes nothing. */
  class NetLink {
    var rules: seq<IpRule>
    var routes: map<Net, int>

    method RuleDel(spec: IpRule) returns (err: Errno)
      modifies this`rules
      ensures rules == if err == Other then old(rules) else PolicyRules.RuleDel(old(rules), spec)
      ensures err != EEXIST
    {
      if * { return Other; }
      for i := 0 to |rules|
        invariant rules == old(rules) && forall j | 0 <= j < i :: !Selects(spec, rules[j])
      {
        if Selects(spec, rules[i]) {
          DelAt(rules, spec, i);
          rules := rules[..i] + rules[i + 1..];
          return NoError;
        }
      }
      DelAbsent(rules, spec);
      return ENOENT;
    }

    method RuleAdd(r: IpRule) returns (err: Errno)
      modifies this`rules
      ensures rules == if err == Other then old(rules) else PolicyRules.RuleAdd(old(rules), r)
      ensures err == EEXIST ==> r in old(rules)
      ensures err == NoError ==> r !in old(rules)
      ensures err != ENOENT
    {
      if * { return Other; }
      if r in rules { return EEXIST; }
      rules := rules + [r];
      return NoError;
    }

    method RouteReplace(dst: Net, link: int) returns (err: Errno)
      modifies this`routes
      ensures err == NoError || err == Other
      ensures routes == if err == NoError then old(routes)[dst := link] else old(routes)
    {
      if * { return Other; }
      routes := routes[dst := link];
      return NoError;
    }

    method RouteDel(dst: Net) returns (err: Errno)
      modifies this`routes
      ensures routes == if err == Other then old(routes) else old(routes) - {dst}
    {
      if * { return Other; }
      if dst !in routes { return ENOENT; }
      routes := routes - {dst};
      return NoError;
    }
  }

  lemma {:induction false} DelAt(rules: seq<IpRule>, spec: IpRule, i: nat)
    requires i < |rules| && Selects(spec, rules[i]) && forall j | 0 <= j < i :: !Selects(spec, rules[j])
    ensures RuleDel(rules, spec) == rules[..i] + rules[i + 1..]
  {
    if i > 0 {
      assert forall j | 0 <= j < i - 1 :: rules[1..][j] == rules[j + 1];
      DelAt(rules[1..], spec, i - 1);
      assert [rules[0]] + rules[1..][..i - 1] == rules[..i];
      assert rules[1..][i..] == rules[i + 1..];
    }
  }

  lemma ConcatParts(a: seq<IpRule>, b: seq<IpRule>)
    requires a != []
    ensures a + b != [] && (a + b)[0] == a[0] && (a + b)[1..] == a[1..] + b
  {
  }

  lemma {:induction false} AddAllConcat(rules: seq<IpRule>, a: seq<IpRule>, b: seq<IpRule>)
    ensures AddAll(rules, a + b) == AddAll(AddAll(rules, a), b)
    decreases |a|
  {
    if a == [] {
      assert a + b == b;
    } else {
      ConcatParts(a, b);
      AddAllConcat(RuleAdd(rules, a[0]), a[1..], b);
    }
  }

  lemma AddNext(rules: seq<IpRule>, rs: seq<IpRule>, i: nat)
    requires i < |rs|
    ensures AddAll(rules, rs[..i + 1]) == RuleAdd(AddAll(rules, rs[..i]), rs[i])
  {
    assert rs[..i + 1] == rs[..i] + [rs[i]];
    AddAllConcat(rules, rs[..i], [rs[i]]);
    AddOne(AddAll(rules, rs[..i]), rs[i]);
  }

  /** A from-pod rule that is added changes nothing for other pods or sources. */
  lemma AddKeepsOthers(rules: seq<IpRule>, r: IpRule, ip: IP)
    requires r.src == Some(Host(ip)) && r.priority == FROM_POD_PRIORITY
    ensures Spared(rules, RuleAdd(rules, r), ip) && NotFrom(RuleAdd(rules, r), ip) == NotFrom(rules, ip)
  {
    AddSpares(rules, r, ip);
    AddFiltered(rules, r, x => !IsFrom(x, ip));
  }

  lemma {:induction false} DelAllConcat(rules: seq<IpRule>, a: seq<IpRule>, b: seq<IpRule>)
    ensures DelAll(rules, a + b) == DelAll(DelAll(rules, a), b)
    decreases |a|
  {
    if a == [] {
      assert a + b == b;
    } else {
      ConcatParts(a, b);
      DelAllConcat(RuleDel(rules, a[0]), a[1..], b);
    }
  }

  class Driver {
    const netLink: NetLink

    constructor (netLink: NetLink)
      ensures this.netLink == netLink
    {
      this.netLink := netLink;
    }

    /** Replaces a rule; breaks off before, between or after the two calls. */
    method AddContainerRule(r: IpRule) returns (ok: bool)
      modifies netLink`rules
      ensures ok ==> r !in RuleDel(old(netLink.rules), r) && netLink.rules == PolicyRules.AddContainerRule(old(netLink.rules), r)
      ensures netLink.rules in [old(netLink.rules), RuleDel(old(netLink.rules), r), PolicyRules.AddContainerRule(old(netLink.rules), r)]
    {
      var err := netLink.RuleDel(r);
      if err == Other { return false; }
      err := netLink.RuleAdd(r);
      return err == NoError;
    }

    /**
     * The rule and route part of wiring up a pod; `link` is the index of its host-side interface. Wherever it breaks
     * off, the rules are at a stage of the set-up, so no rule of another pod has changed, and without the route no
     * rule has changed at all.
     */
    method SetupNS(ip: IP, link: int, table: int, cidrs: seq<Option<Net>>, useExternalSNAT: bool) returns (ok: bool)
      modifies netLink
      ensures ok ==> netLink.rules == SetupRules(old(netLink.rules), ip, table, cidrs, useExternalSNAT)
      ensures ok ==> netLink.routes == old(netLink.routes)[Host(ip) := link]
      ensures ok ==> SetupSucceeds(old(netLink.rules), ip, table, useExternalSNAT)
      ensures SetupStage(old(netLink.rules), netLink.rules, ip, table, cidrs, useExternalSNAT)
      ensures Contained(old(netLink.rules), netLink.rules, ip)
      ensures netLink.routes == old(netLink.routes)[Host(ip) := link]
              || (netLink.routes == old(netLink.routes) && netLink.rules == old(netLink.rules))
    {
      ghost var before := netLink.rules;
      ok := false;
      var err := netLink.RouteReplace(Host(ip), link);
      if err == NoError {
        ok := SetupRuleList(ip, table, cidrs, useExternalSNAT);
      }
      SetupStageContained(before, netLink.rules, ip, table, cidrs, useExternalSNAT);
    }

    /** The rules of a set-up, in order. */
    method SetupRuleList(ip: IP, table: int, cidrs: seq<Option<Net>>, useExternalSNAT: bool) returns (ok: bool)
      modifies netLink`rules
      ensures ok ==> netLink.rules == SetupRules(old(netLink.rules), ip, table, cidrs, useExternalSNAT)
      ensures ok ==> SetupSucceeds(old(netLink.rules), ip, table, useExternalSNAT)
      ensures SetupStage(old(netLink.rules), netLink.rules, ip, table, cidrs, useExternalSNAT)
    {
      var added := AddContainerRule(ToPodRule(ip));
      if !added { return false; }
      if table > 0 {
        if useExternalSNAT {
          added := AddContainerRule(FromPodRule(ip, table));
          return added;
        }
        ghost var r1 := netLink.rules;
        var all := FromRules(ip, table, cidrs, false);
        for i := 0 to |cidrs|
          invariant netLink.rules == AddAll(r1, all[..i])
        {
          AddNext(r1, all, i);
          var err := netLink.RuleAdd(FromPodToRule(ip, table, cidrs[i]));
          if err == Other { return false; }
        }
        assert all[..|cidrs|] == all;
      }
      return true;
    }

    /**
     * Tear-down; `clean` says that the kernel raised no error but "no such entry". Wherever it breaks off, the rules
     * are at a stage of the tear-down; only an error in deleting by source is reported, and then the route stays.
     */
    method TeardownNS(ip: IP, table: int) returns (ok: bool, clean: bool)
      modifies netLink
      ensures clean ==> ok && netLink.rules == TeardownRules(old(netLink.rules), ip, table)
      ensures clean ==> netLink.routes == old(netLink.routes) - {Host(ip)}
      ensures TeardownStage(old(netLink.rules), netLink.rules, ip, table)
      ensures Tidy(old(netLink.rules), ip) ==> Contained(old(netLink.rules), netLink.rules, ip)
      ensures netLink.routes == old(netLink.routes) || (ok && netLink.routes == old(netLink.routes) - {Host(ip)})
      ensures ok && table > 0 ==> From(netLink.rules, ip) == []
    {
      ghost var before := netLink.rules;
      var err := netLink.RuleDel(ToPodSpec(ip));
      clean, ok := err != Other, true;
      if table > 0 {
        ghost var r1 := netLink.rules;
        var agent := new RuleAgent(netLink, []);
        ok := agent.DeleteRuleListBySrc(ip);
        NoneFrom(r1, ip);
      }
      if Tidy(before, ip) {
        TeardownStageContained(before, netLink.rules, ip, table);
      }
      if !ok { return false, false; }
      err := netLink.RouteDel(Host(ip));
      clean := clean && err != Other;
    }
  }

  lemma NoneFrom(rules: seq<IpRule>, ip: IP)
    ensures From(NotFrom(rules, ip), ip) == []
  {
    var f, g := (r: IpRule) => IsFrom(r, ip), (r: IpRule) => !IsFrom(r, ip);
    forall r | r in NotFrom(rules, ip)
      ensures g(r)
    {
      FilterIn(rules, g, r);
    }
    FilterAll(NotFrom(rules, ip), g, f);
  }

  /** Deleting some of what any listing shows for a source leaves the rules of all other sources alone. */
  lemma DelListed(rules: seq<IpRule>, listed: seq<IpRule>, rules': seq<IpRule>, ip: IP)
    requires exists i :: 0 <= i <= |From(listed, ip)| && rules' == DelAll(rules, From(listed, ip)[..i])
    ensures NotFrom(rules', ip) == NotFrom(rules, ip)
  {
    var f, g, found := (r: IpRule) => IsFrom(r, ip), (r: IpRule) => !IsFrom(r, ip), From(listed, ip);
    var i :| 0 <= i <= |found| && rules' == DelAll(rules, found[..i]);
    forall r | r in found[..i]
      ensures f(r)
    {
      assert r in found;
      FilterIn(listed, f, r);
    }
    DelAllOutside(rules, found[..i], g);
  }

  /** The node agent's view of the rules: listing, deleting and rewriting them by source address. */
  class RuleAgent {
    const netLink: NetLink
    const excludeSNATCIDRs: seq<Option<Net>>

    constructor (netLink: NetLink, excludeSNATCIDRs: seq<Option<Net>>)
      ensures this.netLink == netLink && this.excludeSNATCIDRs == excludeSNATCIDRs
    {
      this.netLink, this.excludeSNATCIDRs := netLink, excludeSNATCIDRs;
    }

    method GetRuleListBySrc(ruleList: seq<IpRule>, ip: IP) returns (found: seq<IpRule>)
      ensures found == From(ruleList, ip)
    {
      found := [];
      ghost var f := (r: IpRule) => IsFrom(r, ip);
      for i := 0 to |ruleList|
        invariant found == Filter(ruleList[..i], f)
      {
        assert ruleList[..i + 1] == ruleList[..i] + [ruleList[i]];
        FilterConcat(ruleList[..i], [ruleList[i]], f);
        assert [ruleList[i]][1..] == [];
        if ruleList[i].src.Some? && ruleList[i].src.value.ip == ip {
          found := found + [ruleList[i]];
        }
      }
      assert ruleList[..|ruleList|] == ruleList;
    }

    method DeleteRules(found: seq<IpRule>) returns (ok: bool)
      modifies netLink`rules
      ensures ok ==> netLink.rules == DelAll(old(netLink.rules), found)
      ensures exists i :: 0 <= i <= |found| && netLink.rules == DelAll(old(netLink.rules), found[..i])
    {
      for i := 0 to |found|
        invariant netLink.rules == DelAll(old(netLink.rules), found[..i])
      {
        assert found[..i + 1] == found[..i] + [found[i]];
        DelAllConcat(old(netLink.rules), found[..i], [found[i]]);
        assert [found[i]][1..] == [];
        var err := netLink.RuleDel(found[i]);
        if err == Other { return false; }
      }
      assert found[..|found|] == found;
      return true;
    }

    /** Every rule of the source goes, and no other, although a listed rule without destination selects any. */
    method DeleteRuleListBySrc(ip: IP) returns (ok: bool)
      modifies netLink`rules
      ensures ok ==> netLink.rules == DelAll(old(netLink.rules), From(old(netLink.rules), ip))
      ensures ok ==> netLink.rules == NotFrom(old(netLink.rules), ip)
      ensures DelStage(old(netLink.rules), netLink.rules, ip, 1)
      ensures Tidy(old(netLink.rules), ip) ==> Contained(old(netLink.rules), netLink.rules, ip)
    {
      if * { return false; }
      ghost var before := netLink.rules;
      var found := GetRuleListBySrc(netLink.rules, ip);
      DelSource(netLink.rules, ip);
      ok := DeleteRules(found);
      if Tidy(before, ip) {
        DelStageContained(before, netLink.rules, ip, 1);
      }
    }

    /** Rewrite the source's rules; a destination that is named twice makes the addition fail. */
    method UpdateRuleListBySrc(ruleList: seq<IpRule>, ip: IP, toCIDRs: seq<Option<Net>>, requiresSNAT: bool)
        returns (ok: bool)
      modifies netLink`rules
      ensures ok ==> netLink.rules == UpdateRules(old(netLink.rules), ruleList, ip, toCIDRs + excludeSNATCIDRs, requiresSNAT)
      ensures Tidy(old(netLink.rules), ip) && From(ruleList, ip) == From(old(netLink.rules), ip) ==>
                Spared(old(netLink.rules), netLink.rules, ip)
      ensures NotFrom(netLink.rules, ip) == NotFrom(old(netLink.rules), ip)
    {
      ghost var before := netLink.rules;
      var found := GetRuleListBySrc(ruleList, ip);
      ok := DeleteRules(found);
      DelListed(before, ruleList, netLink.rules, ip);
      if Tidy(before, ip) && found == From(before, ip) {
        DelStageContained(before, netLink.rules, ip, 1);
      }
      if !ok || |found| == 0 { return; }
      var table := found[|found| - 1].table;
      if requiresSNAT {
        var all := toCIDRs + excludeSNATCIDRs;
        ok := AddFromPodRules(ip, table, all);
      } else {
        AddOne(netLink.rules, FromPodRule(ip, table));
        AddKeepsOthers(netLink.rules, FromPodRule(ip, table), ip);
        var err := netLink.RuleAdd(FromPodRule(ip, table));
        ok := err == NoError;
      }
    }

    method AddFromPodRules(ip: IP, table: int, cidrs: seq<Option<Net>>) returns (ok: bool)
      modifies netLink`rules
      ensures ok ==> netLink.rules == AddAll(old(netLink.rules), FromRules(ip, table, cidrs, false))
      ensures ok ==> Distinct(cidrs)
      ensures Spared(old(netLink.rules), netLink.rules, ip)
      ensures NotFrom(netLink.rules, ip) == NotFrom(old(netLink.rules), ip)
    {
      ghost var r1 := netLink.rules;
      var all := FromRules(ip, table, cidrs, false);
      for i := 0 to |cidrs|
        invariant netLink.rules == AddAll(r1, all[..i]) && Distinct(cidrs[..i])
        invariant Spared(r1, netLink.rules, ip) && NotFrom(netLink.rules, ip) == NotFrom(r1, ip)
      {
        AddKeepsOthers(netLink.rules, all[i], ip);
        AddNext(r1, all, i);
        var err := netLink.RuleAdd(FromPodToRule(ip, table, cidrs[i]));
        if err != NoError { return false; }
        NewDestination(r1, ip, table, cidrs, i);
      }
      assert all[..|cidrs|] == all && cidrs[..|cidrs|] == cidrs;
      return true;
    }
  }

  lemma AddOne(rules: seq<IpRule>, r: IpRule)
    ensures AddAll(rules, [r]) == RuleAdd(rules, r)
  {
    assert [r][1..] == [];
  }

  /** A rule that could be added names a destination that was not named before. */
  lemma NewDestination(rules: seq<IpRule>, ip: IP, table: int, cidrs: seq<Option<Net>>, i: nat)
    requires i < |cidrs| && Distinct(cidrs[..i])
    requires FromPodToRule(ip, table, cidrs[i]) !in AddAll(rules, FromRules(ip, table, cidrs, false)[..i])
    ensures Distinct(cidrs[..i + 1])
  {
    var all := FromRules(ip, table, cidrs, false);
    AllAdded(rules, all, i);
    forall j | 0 <= j < i
      ensures cidrs[j] != cidrs[i]
    {
      assert all[j] in AddAll(rules, all[..i]);
      assert all[j] == FromPodToRule(ip, table, cidrs[j]);
    }
  }

  /** What has been added is there. */
  lemma AllAdded(rules: seq<IpRule>, rs: seq<IpRule>, i: nat)
    requires i <= |rs|
    ensures forall j | 0 <= j < i :: rs[j] in AddAll(rules, rs[..i])
  {
    forall j | 0 <= j < i
      ensures rs[j] in AddAll(rules, rs[..i])
    {
      assert rs[..i][j] == rs[j];
      AddAllIn(rules, rs[..i], rs[j]);
    }
  }
}
