/**
 * Set-up, tear-down and re-plumbing over whatever rules are there already: what is left behind by an add that broke
 * off, or a listing that is out of date. Each operation acts on the pod's own rules alone, and the exact condition
 * under which it ends as it would from a clean start is one on those rules.
 */
module Leftovers {
  import opened Types
  import opened PolicyRules

  // ----- Operations act within a filter -----

  lemma {:induction false} AddAllInside(rules: seq<IpRule>, rs: seq<IpRule>, f: IpRule -> bool)
    requires forall r | r in rs :: f(r)
    ensures Filter(AddAll(rules, rs), f) == AddAll(Filter(rules, f), rs)
    decreases |rs|
  {
    if rs != [] {
      AddFiltered(rules, rs[0], f);
      AddAllInside(RuleAdd(rules, rs[0]), rs[1..], f);
    }
  }

  lemma {:induction false} DelAllInside(rules: seq<IpRule>, k: seq<IpRule>, f: IpRule -> bool)
    requires forall r, x | r in k && Selects(r, x) :: f(x)
    ensures Filter(DelAll(rules, k), f) == DelAll(Filter(rules, f), k)
    decreases |k|
  {
    if k != [] {
      assert k[0] in k;
      DelInside(rules, k[0], f);
      DelAllInside(RuleDel(rules, k[0]), k[1..], f);
    }
  }

  lemma {:induction false} FilterCommutes(rules: seq<IpRule>, f: IpRule -> bool, g: IpRule -> bool)
    ensures Filter(Filter(rules, f), g) == Filter(Filter(rules, g), f)
  {
    if rules != [] {
      FilterCommutes(rules[1..], f, g);
      if f(rules[0]) {
        assert Filter(rules, f)[1..] == Filter(rules[1..], f);
      }
      if g(rules[0]) {
        assert Filter(rules, g)[1..] == Filter(rules[1..], g);
      }
    }
  }

  lemma {:induction false} DelKeepsOther(rules: seq<IpRule>, spec: IpRule, r: IpRule)
    requires r in rules && !Selects(spec, r)
    ensures r in RuleDel(rules, spec)
  {
    if !Selects(spec, rules[0]) && rules[0] != r {
      DelKeepsOther(rules[1..], spec, r);
    }
  }

  lemma {:induction false} DelBefore(a: seq<IpRule>, x: IpRule, spec: IpRule)
    requires !Selects(spec, x)
    ensures RuleDel(a + [x], spec) == RuleDel(a, spec) + [x]
  {
    if a != [] {
      assert (a + [x])[0] == a[0] && (a + [x])[1..] == a[1..] + [x];
      DelBefore(a[1..], x, spec);
    } else {
      assert (a + [x])[1..] == [];
    }
  }

  // ----- Set-up -----

  /** No rule that set-up adds with its own deletion before is still there after that deletion. */
  predicate SetupSucceeds(rules: seq<IpRule>, ip: IP, table: int, external: bool) {
    ToPodRule(ip) !in RuleDel(rules, ToPodRule(ip))
    && (table > 0 && external ==>
          FromPodRule(ip, table) !in RuleDel(AddContainerRule(rules, ToPodRule(ip)), FromPodRule(ip, table)))
  }

  /** The pod has these rules, each as often; the kernel keeps them by priority, so the order says nothing more. */
  predicate SameRules(a: seq<IpRule>, b: seq<IpRule>) {
    multiset(a) == multiset(b)
  }

  /** What set-up's own deletions leave of the pod's rules. */
  function Cleared(mine: seq<IpRule>, ip: IP, table: int, external: bool): seq<IpRule> {
    var rest := RuleDel(mine, ToPodRule(ip));
    if table > 0 && external then RuleDel(rest, FromPodRule(ip, table)) else rest
  }

  /**
   * The leftovers that set-up can absorb. With internal SNAT these are, beside what it deletes, from-pod rules that it
   * would add anyway, each once, because a rule that exists is no error there; otherwise only what it deletes.
   */
  predicate Absorbed(mine: seq<IpRule>, ip: IP, table: int, cidrs: seq<Option<Net>>, external: bool) {
    var rest := Cleared(mine, ip, table, external);
    if table > 0 && !external then
      ToPodRule(ip) !in rest && forall r | r in rest :: r in FromRules(ip, table, cidrs, false) && multiset(rest)[r] == 1
    else rest == []
  }

  lemma ReplaceActsOnMine(rules: seq<IpRule>, r: IpRule, ip: IP)
    requires forall x | Selects(r, x) :: IsMine(x, ip)
    requires IsMine(r, ip)
    ensures Mine(RuleDel(rules, r), ip) == RuleDel(Mine(rules, ip), r)
    ensures Mine(AddContainerRule(rules, r), ip) == AddContainerRule(Mine(rules, ip), r)
    ensures Others(AddContainerRule(rules, r), ip) == Others(rules, ip)
  {
    var f, g := (x: IpRule) => IsMine(x, ip), (x: IpRule) => !IsMine(x, ip);
    DelInside(rules, r, f);
    DelOutside(rules, r, g);
    AddFiltered(RuleDel(rules, r), r, f);
    AddFiltered(RuleDel(rules, r), r, g);
  }

  /** Set-up acts on the pod's own rules alone, whatever is there. */
  lemma SetupActsOnMine(rules: seq<IpRule>, ip: IP, table: int, cidrs: seq<Option<Net>>, external: bool)
    ensures Mine(SetupRules(rules, ip, table, cidrs, external), ip) == SetupRules(Mine(rules, ip), ip, table, cidrs, external)
    ensures Others(SetupRules(rules, ip, table, cidrs, external), ip) == Others(rules, ip)
  {
    var to := ToPodRule(ip);
    ReplaceActsOnMine(rules, to, ip);
    var r1 := AddContainerRule(rules, to);
    if table > 0 {
      if external {
        ReplaceActsOnMine(r1, FromPodRule(ip, table), ip);
      } else {
        FromRulesInside(r1, ip, table, cidrs);
      }
    }
  }

  lemma FromRulesInside(rules: seq<IpRule>, ip: IP, table: int, cidrs: seq<Option<Net>>)
    ensures var from := FromRules(ip, table, cidrs, false);
            && Mine(AddAll(rules, from), ip) == AddAll(Mine(rules, ip), from)
            && Others(AddAll(rules, from), ip) == Others(rules, ip)
  {
    var from := FromRules(ip, table, cidrs, false);
    forall r | r in from
      ensures IsMine(r, ip)
    {
      FromRulesShape(ip, table, cidrs, false, r);
    }
    AddAllInside(rules, from, r => IsMine(r, ip));
    AddAllOutside(rules, from, r => !IsMine(r, ip));
  }

  lemma SucceedsOnMine(rules: seq<IpRule>, ip: IP, table: int, external: bool)
    ensures SetupSucceeds(rules, ip, table, external) <==> SetupSucceeds(Mine(rules, ip), ip, table, external)
  {
    var f, to, from := (x: IpRule) => IsMine(x, ip), ToPodRule(ip), FromPodRule(ip, table);
    ReplaceActsOnMine(rules, to, ip);
    FilterIn(RuleDel(rules, to), f, to);
    var r1 := AddContainerRule(rules, to);
    ReplaceActsOnMine(r1, from, ip);
    FilterIn(RuleDel(r1, from), f, from);
  }

  lemma ClearedHasTo(mine: seq<IpRule>, ip: IP, table: int, external: bool)
    requires ToPodRule(ip) in RuleDel(mine, ToPodRule(ip))
    ensures Cleared(mine, ip, table, external) != []
  {
    if table > 0 && external {
      DelKeepsOther(RuleDel(mine, ToPodRule(ip)), FromPodRule(ip, table), ToPodRule(ip));
    }
  }

  lemma OneOnTop(ip: IP, table: int)
    ensures AddAll([], [FromPodRule(ip, table)]) == [FromPodRule(ip, table)]
  {
    assert [FromPodRule(ip, table)][1..] == [];
  }

  lemma OverLeftoversExternal(mine: seq<IpRule>, ip: IP, table: int, cidrs: seq<Option<Net>>)
    requires table > 0 && ToPodRule(ip) !in RuleDel(mine, ToPodRule(ip))
    ensures SetupSucceeds(mine, ip, table, true)
            && SameRules(SetupRules(mine, ip, table, cidrs, true), Installed(ip, table, cidrs, true))
            <==> Cleared(mine, ip, table, true) == []
  {
    var to, from := ToPodRule(ip), FromPodRule(ip, table);
    var rest := RuleDel(mine, to);
    DelBefore(rest, to, from);
    var left := RuleDel(rest, from);
    assert RuleDel(AddContainerRule(mine, to), from) == left + [to];
    OneOnTop(ip, table);
    assert Installed(ip, table, cidrs, true) == [to, from];
    if from !in left + [to] {
      assert SetupRules(mine, ip, table, cidrs, true) == left + [to, from];
      PrefixAddsIff(left, [to, from]);
    }
  }

  lemma PrefixAddsIff(a: seq<IpRule>, b: seq<IpRule>)
    ensures SameRules(a + b, b) <==> a == []
  {
    assert multiset(a + b) == multiset(a) + multiset(b);
    assert |multiset(a + b)| == |multiset(a)| + |multiset(b)|;
    assert a == [] ==> a + b == b;
  }

  /** Adding rules that may exist: those that do stay as often as they are, the others are there once. */
  lemma {:induction false} AddAllCounts(a: seq<IpRule>, rs: seq<IpRule>, r: IpRule)
    ensures multiset(AddAll(a, rs))[r] == if r in a then multiset(a)[r] else if r in rs then 1 else 0
    decreases |rs|
  {
    if rs != [] {
      AddAllCounts(RuleAdd(a, rs[0]), rs[1..], r);
      RuleAddCounts(a, rs[0], r);
      InHeadOrTail(rs, r);
    }
  }

  lemma RuleAddCounts(a: seq<IpRule>, x: IpRule, r: IpRule)
    ensures r in RuleAdd(a, x) <==> r in a || r == x
    ensures multiset(RuleAdd(a, x))[r] == if r in a then multiset(a)[r] else if r == x then 1 else 0
  {
    assert multiset(a + [x]) == multiset(a) + multiset{x};
    assert r in a <==> r in multiset(a);
  }

  lemma InHeadOrTail(rs: seq<IpRule>, r: IpRule)
    requires rs != []
    ensures r in rs <==> r == rs[0] || r in rs[1..]
  {
  }

  lemma InternalCounts(rest: seq<IpRule>, ip: IP, table: int, cidrs: seq<Option<Net>>, r: IpRule)
    requires ToPodRule(ip) !in rest && table > 0
    ensures var to, from := ToPodRule(ip), FromRules(ip, table, cidrs, false);
            && to !in from
            && multiset(AddAll(rest + [to], from))[r] ==
               (if r == to then 1 else if r in rest then multiset(rest)[r] else if r in from then 1 else 0)
            && multiset(Installed(ip, table, cidrs, false))[r] == (if r == to || r in from then 1 else 0)
  {
    var to, from := ToPodRule(ip), FromRules(ip, table, cidrs, false);
    if to in from {
      FromRulesShape(ip, table, cidrs, false, to);
    }
    AddAllCounts(rest + [to], from, r);
    AddAllCounts([], from, r);
    assert multiset(rest + [to]) == multiset(rest) + multiset{to};
    assert multiset([to] + AddAll([], from)) == multiset{to} + multiset(AddAll([], from));
  }

  lemma OverLeftoversInternal(mine: seq<IpRule>, ip: IP, table: int, cidrs: seq<Option<Net>>)
    requires table > 0 && ToPodRule(ip) !in RuleDel(mine, ToPodRule(ip))
    ensures SameRules(SetupRules(mine, ip, table, cidrs, false), Installed(ip, table, cidrs, false))
            <==> Absorbed(mine, ip, table, cidrs, false)
  {
    var to, from := ToPodRule(ip), FromRules(ip, table, cidrs, false);
    var rest := RuleDel(mine, to);
    var after, wanted := SetupRules(mine, ip, table, cidrs, false), Installed(ip, table, cidrs, false);
    forall r
      ensures multiset(after)[r] == (if r == to then 1 else if r in rest then multiset(rest)[r] else if r in from then 1 else 0)
      ensures multiset(wanted)[r] == (if r == to || r in from then 1 else 0)
    {
      InternalCounts(rest, ip, table, cidrs, r);
    }
    if Absorbed(mine, ip, table, cidrs, false) {
      assert forall r :: multiset(after)[r] == multiset(wanted)[r];
    } else {
      var r :| r in rest && !(r in from && multiset(rest)[r] == 1);
      assert multiset(after)[r] == multiset(rest)[r] >= 1;
      assert multiset(after)[r] != multiset(wanted)[r];
    }
  }

  /**
   * Set-up succeeds and leaves the pod exactly its rules if and only if it can absorb the pod's leftovers. It never
   * touches other rules.
   */
  lemma SetupInstallsIff(rules: seq<IpRule>, ip: IP, table: int, cidrs: seq<Option<Net>>, external: bool)
    ensures SetupSucceeds(rules, ip, table, external)
            && SameRules(Mine(SetupRules(rules, ip, table, cidrs, external), ip), Installed(ip, table, cidrs, external))
            <==> Absorbed(Mine(rules, ip), ip, table, cidrs, external)
    ensures Others(SetupRules(rules, ip, table, cidrs, external), ip) == Others(rules, ip)
  {
    var mine := Mine(rules, ip);
    SetupActsOnMine(rules, ip, table, cidrs, external);
    SucceedsOnMine(rules, ip, table, external);
    if ToPodRule(ip) in RuleDel(mine, ToPodRule(ip)) {
      ClearedHasTo(mine, ip, table, external);
    } else if table > 0 {
      if external {
        OverLeftoversExternal(mine, ip, table, cidrs);
      } else {
        OverLeftoversInternal(mine, ip, table, cidrs);
      }
    } else {
      PrefixAddsIff(RuleDel(mine, ToPodRule(ip)), [ToPodRule(ip)]);
    }
  }

  /** From a clean start the rules are there in the order in which they are added. */
  lemma SetupInstalls(rules: seq<IpRule>, ip: IP, table: int, cidrs: seq<Option<Net>>, external: bool)
    requires Mine(rules, ip) == []
    ensures Mine(SetupRules(rules, ip, table, cidrs, external), ip) == Installed(ip, table, cidrs, external)
    ensures Absorbed(Mine(rules, ip), ip, table, cidrs, external)
  {
    SetupActsOnMine(rules, ip, table, cidrs, external);
    var to, from := ToPodRule(ip), FromRules(ip, table, cidrs, external);
    assert AddContainerRule([], to) == [to];
    if table > 0 {
      if external {
        OneOnTop(ip, table);
        assert RuleDel([to], from[0]) == [to];
        assert SetupRules([], ip, table, cidrs, external) == [to] + [from[0]];
      } else {
        forall r | r in from
          ensures r !in [to]
        {
          FromRulesShape(ip, table, cidrs, false, r);
        }
        AddAllPrefix([to], [], from);
        assert [to] + [] == [to] == AddContainerRule([], to);
        assert SetupRules([], ip, table, cidrs, external) == AddAll([to], from);
      }
    }
  }

  /**
   * An internal set-up that broke off after any number of its from-pod rules is completed by another one with the same
   * setting; one that was complete is repeated without a trace.
   */
  lemma RetryRecovers(ip: IP, table: int, cidrs: seq<Option<Net>>, i: nat)
    requires table > 0 && i <= |cidrs|
    ensures var left := AddAll([ToPodRule(ip)], FromRules(ip, table, cidrs, false)[..i]);
            SetupStage([], left, ip, table, cidrs, false) && Absorbed(left, ip, table, cidrs, false)
  {
    var to, from := ToPodRule(ip), FromRules(ip, table, cidrs, false);
    var some := from[..i];
    forall r | r in some
      ensures r != to && r in from
    {
      FromRulesShape(ip, table, cidrs, false, r);
    }
    AddAllPrefix([to], [], some);
    assert [to] + [] == [to];
    var left := AddAll([to], some);
    assert RuleDel(left, to) == AddAll([], some);
    forall r | r in AddAll([], some)
      ensures r in some && multiset(AddAll([], some))[r] == 1
    {
      AddAllIn([], some, r);
      AddAllCounts([], some, r);
    }
    assert to !in AddAll([], some);
    assert AddContainerRule([], to) == [to];
  }

  /** A from-pod rule for another table, as a change of ENI leaves it behind, is not absorbed. */
  lemma OtherTableStays(mine: seq<IpRule>, ip: IP, table: int, cidrs: seq<Option<Net>>, external: bool, r: IpRule)
    requires r in Cleared(mine, ip, table, external) && r.table != table
    ensures !Absorbed(mine, ip, table, cidrs, external)
  {
    if r in FromRules(ip, table, cidrs, false) {
      FromRulesShape(ip, table, cidrs, false, r);
    }
  }

  /** The rules at some point of a set-up: where it ends, or where it may break off. */
  predicate SetupStage(before: seq<IpRule>, after: seq<IpRule>, ip: IP, table: int, cidrs: seq<Option<Net>>, external: bool) {
    var to, from := ToPodRule(ip), FromPodRule(ip, table);
    var r1 := AddContainerRule(before, to);
    || after == before
    || after == RuleDel(before, to)
    || after == r1
    || (table > 0 && external && (after == RuleDel(r1, from) || after == AddContainerRule(r1, from)))
    || (table > 0 && !external
        && exists i :: 0 <= i <= |cidrs| && after == AddAll(r1, FromRules(ip, table, cidrs, false)[..i]))
  }

  lemma SetupIsStage(rules: seq<IpRule>, ip: IP, table: int, cidrs: seq<Option<Net>>, external: bool)
    ensures SetupStage(rules, SetupRules(rules, ip, table, cidrs, external), ip, table, cidrs, external)
  {
    var all := FromRules(ip, table, cidrs, false);
    assert all[..|cidrs|] == all;
  }

  /** Nothing of another pod has changed, and this pod's rules are no less tidy. */
  ghost predicate Contained(before: seq<IpRule>, after: seq<IpRule>, ip: IP) {
    Spared(before, after, ip) && (Tidy(before, ip) ==> Tidy(after, ip))
  }

  lemma ContainedTransitive(a: seq<IpRule>, b: seq<IpRule>, c: seq<IpRule>, ip: IP)
    requires Contained(a, b, ip) && Contained(b, c, ip)
    ensures Contained(a, c, ip)
  {
    SparedTransitive(a, b, c, ip);
  }

  lemma DelContained(rules: seq<IpRule>, spec: IpRule, ip: IP)
    requires AimedAt(spec, ip)
    ensures Contained(rules, RuleDel(rules, spec), ip)
  {
    DelSpares(rules, spec, ip);
    forall r | r in RuleDel(rules, spec)
      ensures r in rules
    {
      DelKeepsIn(rules, spec, r);
    }
  }

  lemma AddContained(rules: seq<IpRule>, r: IpRule, ip: IP)
    requires PodRule(r, ip)
    ensures Contained(rules, RuleAdd(rules, r), ip)
  {
    AddSpares(rules, r, ip);
  }

  lemma {:induction false} AddAllContained(rules: seq<IpRule>, rs: seq<IpRule>, ip: IP)
    requires forall r | r in rs :: PodRule(r, ip)
    ensures Contained(rules, AddAll(rules, rs), ip)
    decreases |rs|
  {
    if rs != [] {
      AddContained(rules, rs[0], ip);
      AddAllContained(RuleAdd(rules, rs[0]), rs[1..], ip);
      ContainedTransitive(rules, RuleAdd(rules, rs[0]), AddAll(rules, rs), ip);
    }
  }

  lemma ReplaceContained(rules: seq<IpRule>, r: IpRule, ip: IP)
    requires PodRule(r, ip)
    ensures Contained(rules, RuleDel(rules, r), ip) && Contained(rules, AddContainerRule(rules, r), ip)
  {
    DelContained(rules, r, ip);
    AddContained(RuleDel(rules, r), r, ip);
    ContainedTransitive(rules, RuleDel(rules, r), AddContainerRule(rules, r), ip);
  }

  /** Wherever set-up breaks off, only the pod's own rules have changed. */
  lemma SetupStageContained(before: seq<IpRule>, after: seq<IpRule>, ip: IP, table: int, cidrs: seq<Option<Net>>, external: bool)
    requires SetupStage(before, after, ip, table, cidrs, external)
    ensures Contained(before, after, ip)
  {
    var to, from := ToPodRule(ip), FromPodRule(ip, table);
    var r1, all := AddContainerRule(before, to), FromRules(ip, table, cidrs, false);
    assert PodRule(to, ip) && PodRule(from, ip);
    ReplaceContained(before, to, ip);
    ReplaceContained(r1, from, ip);
    if after == RuleDel(r1, from) || after == AddContainerRule(r1, from) {
      ContainedTransitive(before, r1, after, ip);
    } else if exists i :: 0 <= i <= |cidrs| && after == AddAll(r1, all[..i]) {
      var i :| 0 <= i <= |cidrs| && after == AddAll(r1, all[..i]);
      forall r | r in all[..i]
        ensures PodRule(r, ip)
      {
        FromRulesShape(ip, table, cidrs, false, r);
      }
      AddAllContained(r1, all[..i], ip);
      ContainedTransitive(before, r1, after, ip);
    }
  }

  // ----- Tear-down -----

  /** Tear-down acts on the pod's own rules alone, whatever is there. */
  lemma TeardownActsOnMine(rules: seq<IpRule>, ip: IP, table: int)
    ensures Mine(TeardownRules(rules, ip, table), ip) == TeardownRules(Mine(rules, ip), ip, table)
    ensures Others(TeardownRules(rules, ip, table), ip) == Others(rules, ip)
  {
    var f, g, h := (r: IpRule) => IsMine(r, ip), (r: IpRule) => !IsMine(r, ip), (r: IpRule) => !IsFrom(r, ip);
    var spec := ToPodSpec(ip);
    var r1 := RuleDel(rules, spec);
    DelInside(rules, spec, f);
    DelOutside(rules, spec, g);
    if table > 0 {
      DelSource(r1, ip);
      DelSource(Filter(r1, f), ip);
      FilterCommutes(r1, h, f);
      FilterTwice(r1, h, g);
    }
  }

  lemma {:induction false} DropsFirst(mine: seq<IpRule>, spec: IpRule, g: IpRule -> bool)
    requires forall r | r in mine :: Selects(spec, r) <==> g(r)
    ensures Filter(RuleDel(mine, spec), g) == if Filter(mine, g) == [] then [] else Filter(mine, g)[1..]
  {
    if mine != [] && !Selects(spec, mine[0]) {
      DropsFirst(mine[1..], spec, g);
      assert RuleDel(mine, spec)[1..] == RuleDel(mine[1..], spec);
    }
  }

  /** Among a tidy pod's rules, those not from it are those to it. */
  lemma ToOrFrom(rules: seq<IpRule>, ip: IP)
    requires Tidy(rules, ip)
    ensures forall r | r in Mine(rules, ip) :: Selects(ToPodSpec(ip), r) <==> !IsFrom(r, ip)
  {
    forall r | r in Mine(rules, ip)
      ensures Selects(ToPodSpec(ip), r) <==> !IsFrom(r, ip)
    {
      FilterIn(rules, x => IsMine(x, ip), r);
    }
  }

  lemma {:induction false} EmptyIff(rules: seq<IpRule>, ip: IP)
    ensures rules == [] <==> From(rules, ip) == [] && NotFrom(rules, ip) == []
  {
  }

  /** At most one of the rules is not a from-pod rule and, on the main ENI, there are no from-pod rules. */
  predicate Clears(mine: seq<IpRule>, ip: IP, table: int) {
    |NotFrom(mine, ip)| <= 1 && (table > 0 || From(mine, ip) == [])
  }

  /** That is exactly when tear-down leaves nothing of the pod. */
  lemma TeardownClearsIff(rules: seq<IpRule>, ip: IP, table: int)
    requires Tidy(rules, ip)
    ensures Mine(TeardownRules(rules, ip, table), ip) == [] <==> Clears(Mine(rules, ip), ip, table)
  {
    var mine, spec := Mine(rules, ip), ToPodSpec(ip);
    var from, notFrom := (r: IpRule) => IsFrom(r, ip), (r: IpRule) => !IsFrom(r, ip);
    TeardownActsOnMine(rules, ip, table);
    ToOrFrom(rules, ip);
    var r1 := RuleDel(mine, spec);
    DropsFirst(mine, spec, notFrom);
    if table > 0 {
      DelSource(r1, ip);
    } else {
      DelOutside(mine, spec, from);
      EmptyIff(r1, ip);
    }
  }

  lemma {:induction false} FilterCounts(rules: seq<IpRule>, f: IpRule -> bool, r: IpRule)
    ensures multiset(Filter(rules, f))[r] == if f(r) then multiset(rules)[r] else 0
  {
    if rules != [] {
      FilterCounts(rules[1..], f, r);
      assert rules == [rules[0]] + rules[1..];
    }
  }

  lemma SameFiltered(a: seq<IpRule>, b: seq<IpRule>, f: IpRule -> bool)
    requires SameRules(a, b)
    ensures |Filter(a, f)| == |Filter(b, f)|
  {
    forall r
      ensures multiset(Filter(a, f))[r] == multiset(Filter(b, f))[r]
    {
      FilterCounts(a, f, r);
      FilterCounts(b, f, r);
    }
    assert multiset(Filter(a, f)) == multiset(Filter(b, f));
    assert |multiset(Filter(a, f))| == |Filter(a, f)| && |multiset(Filter(b, f))| == |Filter(b, f)|;
  }

  lemma InstalledClears(ip: IP, table: int, cidrs: seq<Option<Net>>, external: bool)
    ensures Clears(Installed(ip, table, cidrs, external), ip, table)
  {
    var f, g := (r: IpRule) => IsFrom(r, ip), (r: IpRule) => !IsFrom(r, ip);
    var to, from := ToPodRule(ip), AddAll([], FromRules(ip, table, cidrs, external));
    assert [to][1..] == [];
    if table > 0 {
      FilterConcat([to], from, g);
      forall r | r in from
        ensures f(r)
      {
        AddAllIn([], FromRules(ip, table, cidrs, external), r);
        FromRulesShape(ip, table, cidrs, external, r);
      }
      FilterAll(from, f, g);
    } else {
      assert Installed(ip, table, cidrs, external) == [to];
      FilterAll([to], g, f);
    }
  }

  /** Tear-down of a pod that has exactly the installed rules, in whatever order, removes them and nothing else. */
  lemma TeardownOfSame(rules: seq<IpRule>, ip: IP, table: int, cidrs: seq<Option<Net>>, external: bool)
    requires Tidy(rules, ip) && SameRules(Mine(rules, ip), Installed(ip, table, cidrs, external))
    ensures Clears(Mine(rules, ip), ip, table)
    ensures Mine(TeardownRules(rules, ip, table), ip) == [] && TeardownRules(rules, ip, table) == Others(rules, ip)
  {
    var mine, wanted := Mine(rules, ip), Installed(ip, table, cidrs, external);
    InstalledClears(ip, table, cidrs, external);
    SameFiltered(mine, wanted, r => !IsFrom(r, ip));
    SameFiltered(mine, wanted, r => IsFrom(r, ip));
    TeardownClearsIff(rules, ip, table);
    TeardownActsOnMine(rules, ip, table);
    FilterNone(TeardownRules(rules, ip, table), r => IsMine(r, ip), r => !IsMine(r, ip));
  }

  /** The rules at some point of a tear-down: where it ends, or where it may break off. */
  predicate TeardownStage(before: seq<IpRule>, after: seq<IpRule>, ip: IP, table: int) {
    DelStage(before, after, ip, table) || DelStage(RuleDel(before, ToPodSpec(ip)), after, ip, table)
  }

  /** Some of the from-pod rules are gone, in the order in which they are listed. */
  predicate DelStage(before: seq<IpRule>, after: seq<IpRule>, ip: IP, table: int) {
    after == before
    || (table > 0 && exists i :: 0 <= i <= |From(before, ip)| && after == DelAll(before, From(before, ip)[..i]))
  }

  lemma TeardownIsStage(rules: seq<IpRule>, ip: IP, table: int)
    ensures TeardownStage(rules, TeardownRules(rules, ip, table), ip, table)
  {
    var r1 := RuleDel(rules, ToPodSpec(ip));
    assert From(r1, ip)[..|From(r1, ip)|] == From(r1, ip);
  }

  lemma {:induction false} DelAllContained(rules: seq<IpRule>, k: seq<IpRule>, ip: IP)
    requires forall r | r in k :: AimedAt(r, ip)
    ensures Contained(rules, DelAll(rules, k), ip)
    decreases |k|
  {
    if k != [] {
      DelContained(rules, k[0], ip);
      DelAllContained(RuleDel(rules, k[0]), k[1..], ip);
      ContainedTransitive(rules, RuleDel(rules, k[0]), DelAll(rules, k), ip);
    }
  }

  lemma DelStageContained(before: seq<IpRule>, after: seq<IpRule>, ip: IP, table: int)
    requires Tidy(before, ip) && DelStage(before, after, ip, table)
    ensures Contained(before, after, ip)
  {
    if after != before {
      var found := From(before, ip);
      var i :| 0 <= i <= |found| && after == DelAll(before, found[..i]);
      forall r | r in found[..i]
        ensures AimedAt(r, ip)
      {
        assert r in found;
        FilterIn(before, x => IsFrom(x, ip), r);
      }
      DelAllContained(before, found[..i], ip);
    }
  }

  /** Wherever tear-down breaks off, only the pod's own rules have changed. */
  lemma TeardownStageContained(before: seq<IpRule>, after: seq<IpRule>, ip: IP, table: int)
    requires Tidy(before, ip) && TeardownStage(before, after, ip, table)
    ensures Contained(before, after, ip)
  {
    var r1 := RuleDel(before, ToPodSpec(ip));
    DelContained(before, ToPodSpec(ip), ip);
    if DelStage(before, after, ip, table) {
      DelStageContained(before, after, ip, table);
    } else {
      DelStageContained(r1, after, ip, table);
      ContainedTransitive(before, r1, after, ip);
    }
  }

  // ----- Re-plumbing from any listing -----

  /**
   * An update from any listing touches no rule of another source. The rules of this source that the listing does not
   * lead to stay; a listing without rules for the source changes nothing.
   */
  lemma UpdateActsOnSource(rules: seq<IpRule>, listed: seq<IpRule>, ip: IP, cidrs: seq<Option<Net>>, requiresSNAT: bool)
    ensures var updated, found := UpdateRules(rules, listed, ip, cidrs, requiresSNAT), From(listed, ip);
            && NotFrom(updated, ip) == NotFrom(rules, ip)
            && (found == [] ==> updated == rules)
            && (found != [] ==>
                  From(updated, ip) ==
                  AddAll(DelAll(From(rules, ip), found), FromRules(ip, found[|found| - 1].table, cidrs, !requiresSNAT)))
  {
    var f, g := (r: IpRule) => IsFrom(r, ip), (r: IpRule) => !IsFrom(r, ip);
    var found := From(listed, ip);
    forall r | r in found
      ensures IsFrom(r, ip)
    {
      FilterIn(listed, f, r);
    }
    DelAllInside(rules, found, f);
    DelAllOutside(rules, found, g);
    if found != [] {
      var added := FromRules(ip, found[|found| - 1].table, cidrs, !requiresSNAT);
      forall r | r in added
        ensures f(r)
      {
        FromRulesShape(ip, found[|found| - 1].table, cidrs, !requiresSNAT, r);
      }
      AddAllInside(DelAll(rules, found), added, f);
      AddAllOutside(DelAll(rules, found), added, g);
    }
  }

  /** Every rule the update adds is new. */
  predicate UpdateSucceeds(rest: seq<IpRule>, added: seq<IpRule>) {
    (forall i, j | 0 <= i < j < |added| :: added[i] != added[j]) && forall r | r in added :: r !in rest
  }

  /**
   * An update succeeds and leaves the source exactly the rules of the new setting if and only if deleting what is
   * listed leaves none of the source's rules, and no destination is named twice.
   */
  lemma UpdateReplacesIff(rules: seq<IpRule>, listed: seq<IpRule>, ip: IP, cidrs: seq<Option<Net>>, requiresSNAT: bool)
    requires From(listed, ip) != []
    ensures var updated, found := UpdateRules(rules, listed, ip, cidrs, requiresSNAT), From(listed, ip);
            var rest, wanted := DelAll(From(rules, ip), found), FromRules(ip, found[|found| - 1].table, cidrs, !requiresSNAT);
            UpdateSucceeds(rest, wanted) && From(updated, ip) == wanted <==>
            rest == [] && (requiresSNAT ==> Distinct(cidrs))
  {
    var found := From(listed, ip);
    var table, rest := found[|found| - 1].table, DelAll(From(rules, ip), found);
    UpdateActsOnSource(rules, listed, ip, cidrs, requiresSNAT);
    AddsExactlyIff(rest, ip, table, cidrs, !requiresSNAT);
  }

  lemma AddsExactlyIff(rest: seq<IpRule>, ip: IP, table: int, cidrs: seq<Option<Net>>, external: bool)
    ensures var wanted := FromRules(ip, table, cidrs, external);
            UpdateSucceeds(rest, wanted) && AddAll(rest, wanted) == wanted <==> rest == [] && (external || Distinct(cidrs))
  {
    var wanted := FromRules(ip, table, cidrs, external);
    WantedDistinctIff(ip, table, cidrs, external);
    if UpdateSucceeds(rest, wanted) {
      AddDistinct(rest, wanted);
      AppendsNothingIff(rest, wanted);
    } else {
      assert rest == [] ==> !(external || Distinct(cidrs));
    }
  }

  lemma AppendsNothingIff(a: seq<IpRule>, b: seq<IpRule>)
    ensures a + b == b <==> a == []
  {
    assert a != [] ==> |a + b| != |b|;
    assert a == [] ==> a + b == b;
  }

  lemma WantedDistinctIff(ip: IP, table: int, cidrs: seq<Option<Net>>, external: bool)
    ensures external || Distinct(cidrs) <==> UpdateSucceeds([], FromRules(ip, table, cidrs, external))
  {
    var wanted := FromRules(ip, table, cidrs, external);
    if UpdateSucceeds([], wanted) && !external {
      assert forall i | 0 <= i < |cidrs| :: wanted[i].dst == cidrs[i];
    }
  }

  /** A listing that is current for the source leads to all of its rules. */
  lemma CurrentListing(rules: seq<IpRule>, ip: IP)
    ensures DelAll(From(rules, ip), From(rules, ip)) == []
  {
    var f := (r: IpRule) => IsFrom(r, ip);
    DelSource(From(rules, ip), ip);
    forall r | r in From(rules, ip)
      ensures f(r)
    {
      FilterIn(rules, f, r);
    }
    FilterAll(From(rules, ip), f, r => !IsFrom(r, ip));
  }

  /**
   * Re-plumbing agrees with fresh plumbing. For a pod on a secondary ENI whose rules came from set-up, an update to a
   * new setting yields the from-pod rules that set-up under the new setting would install for that table, exactly
   * when the pod has some from-pod rule to start with or the new setting asks for none.
   */
  lemma UpdateAgreesWithSetupIff(rules: seq<IpRule>, listed: seq<IpRule>, ip: IP, table: int,
                                 cidrs: seq<Option<Net>>, external: bool, cidrs': seq<Option<Net>>, external': bool)
    requires table > 0 && Mine(rules, ip) == Installed(ip, table, cidrs, external)
    requires From(listed, ip) == From(rules, ip) && (external' || Distinct(cidrs'))
    ensures From(UpdateRules(rules, listed, ip, cidrs', !external'), ip) == AddAll([], FromRules(ip, table, cidrs', external'))
            <==> external || cidrs != [] || FromRules(ip, table, cidrs', external') == []
    ensures NotFrom(UpdateRules(rules, listed, ip, cidrs', !external'), ip) == NotFrom(rules, ip)
  {
    UpdateActsOnSource(rules, listed, ip, cidrs', !external');
    CurrentListing(rules, ip);
    var before, wanted := AddAll([], FromRules(ip, table, cidrs, external)), FromRules(ip, table, cidrs', external');
    FromRulesDistinct(ip, table, cidrs', external');
    AddDistinct([], wanted);
    assert [] + wanted == wanted;
    InstalledFrom(rules, ip, table, cidrs, external);
    if before != [] {
      var r := before[|before| - 1];
      AddAllIn([], FromRules(ip, table, cidrs, external), r);
      FromRulesShape(ip, table, cidrs, external, r);
    }
    SomeFrom(ip, table, cidrs, external);
  }

  lemma SomeFrom(ip: IP, table: int, cidrs: seq<Option<Net>>, external: bool)
    ensures AddAll([], FromRules(ip, table, cidrs, external)) == [] <==> !external && cidrs == []
  {
    var rs := FromRules(ip, table, cidrs, external);
    if rs != [] {
      AddAllIn([], rs, rs[0]);
    }
  }

  /** The from-pod rules among those installed. */
  lemma InstalledFrom(rules: seq<IpRule>, ip: IP, table: int, cidrs: seq<Option<Net>>, external: bool)
    requires table > 0 && Mine(rules, ip) == Installed(ip, table, cidrs, external)
    ensures From(rules, ip) == AddAll([], FromRules(ip, table, cidrs, external))
  {
    var f, m := (r: IpRule) => IsFrom(r, ip), (r: IpRule) => IsMine(r, ip);
    var from := AddAll([], FromRules(ip, table, cidrs, external));
    FilterTwice(rules, m, f);
    FilterConcat([ToPodRule(ip)], from, f);
    assert [ToPodRule(ip)][1..] == [];
    forall r | r in from
      ensures f(r)
    {
      AddAllIn([], FromRules(ip, table, cidrs, external), r);
      FromRulesShape(ip, table, cidrs, external, r);
    }
    FilterAll(from, f, r => !f(r));
  }
}
