/** The kernel's policy rules as far as pods are concerned: what is installed, rewritten and torn down for one pod. */
module PolicyRules {

  import opened Types

  datatype Net = Net(ip: IP, prefixLength: nat)

  /** An IP rule; as an argument of a deletion, `None`, table 0 and priority -1 stand for any value. */
  datatype IpRule = IpRule(src: Option<Net>, dst: Option<Net>, table: int, priority: int)

  const TO_POD_PRIORITY := 512
  const FROM_POD_PRIORITY := 1536
  const MAIN_TABLE := 254

  function Host(ip: IP): Net { Net(ip, 32) }

  // ----- Kernel operations -----

  predicate Selects(spec: IpRule, r: IpRule) {
    (spec.src.None? || r.src == spec.src)
    && (spec.dst.None? || r.dst == spec.dst)
    && (spec.table == 0 || r.table == spec.table)
    && (spec.priority == -1 || r.priority == spec.priority)
  }

  /** The kernel deletes the first rule selected. */
  function RuleDel(rules: seq<IpRule>, spec: IpRule): seq<IpRule> {
    if rules == [] then []
    else if Selects(spec, rules[0]) then rules[1..]
    else [rules[0]] + RuleDel(rules[1..], spec)
  }

  /** A rule that is already there is not added again. */
  function RuleAdd(rules: seq<IpRule>, r: IpRule): seq<IpRule> {
    if r in rules then rules else rules + [r]
  }

  function AddAll(rules: seq<IpRule>, rs: seq<IpRule>): seq<IpRule>
    decreases |rs|
  {
    if rs == [] then rules else AddAll(RuleAdd(rules, rs[0]), rs[1..])
  }

  /** Deletions one after the other, each aimed by the fields of a listed rule. */
  function DelAll(rules: seq<IpRule>, rs: seq<IpRule>): seq<IpRule>
    decreases |rs|
  {
    if rs == [] then rules else DelAll(RuleDel(rules, rs[0]), rs[1..])
  }

  // ----- The rules of one pod -----

  function ToPodRule(ip: IP): IpRule { IpRule(None, Some(Host(ip)), MAIN_TABLE, TO_POD_PRIORITY) }

  /** How tear-down names the to-pod rule: without a table. */
  function ToPodSpec(ip: IP): IpRule { IpRule(None, Some(Host(ip)), 0, TO_POD_PRIORITY) }

  function FromPodRule(ip: IP, table: int): IpRule { IpRule(Some(Host(ip)), None, table, FROM_POD_PRIORITY) }

  function FromPodToRule(ip: IP, table: int, cidr: Option<Net>): IpRule {
    IpRule(Some(Host(ip)), cidr, table, FROM_POD_PRIORITY)
  }

  function FromRules(ip: IP, table: int, cidrs: seq<Option<Net>>, external: bool): seq<IpRule> {
    if external then [FromPodRule(ip, table)]
    else seq(|cidrs|, i requires 0 <= i < |cidrs| => FromPodToRule(ip, table, cidrs[i]))
  }

  /** Source rules are found by address alone. */
  predicate IsFrom(r: IpRule, ip: IP) {
    r.src.Some? && r.src.value.ip == ip
  }

  predicate IsTo(r: IpRule, ip: IP) {
    r.dst == Some(Host(ip)) && r.priority == TO_POD_PRIORITY
  }

  predicate IsMine(r: IpRule, ip: IP) {
    IsFrom(r, ip) || IsTo(r, ip)
  }

  function Filter(rules: seq<IpRule>, f: IpRule -> bool): seq<IpRule> {
    if rules == [] then []
    else if f(rules[0]) then [rules[0]] + Filter(rules[1..], f)
    else Filter(rules[1..], f)
  }

  function From(rules: seq<IpRule>, ip: IP): seq<IpRule> { Filter(rules, r => IsFrom(r, ip)) }

  function NotFrom(rules: seq<IpRule>, ip: IP): seq<IpRule> { Filter(rules, r => !IsFrom(r, ip)) }

  function Mine(rules: seq<IpRule>, ip: IP): seq<IpRule> { Filter(rules, r => IsMine(r, ip)) }

  function Others(rules: seq<IpRule>, ip: IP): seq<IpRule> { Filter(rules, r => !IsMine(r, ip)) }

  // ----- Filtering -----

  lemma {:induction false} FilterConcat(a: seq<IpRule>, b: seq<IpRule>, f: IpRule -> bool)
    ensures Filter(a + b, f) == Filter(a, f) + Filter(b, f)
  {
    if a == [] {
      assert a + b == b;
    } else {
      FilterConcat(a[1..], b, f);
      assert (a + b)[0] == a[0] && (a + b)[1..] == a[1..] + b;
      AssocConcat([a[0]], Filter(a[1..], f), Filter(b, f));
    }
  }

  lemma AssocConcat(a: seq<IpRule>, b: seq<IpRule>, c: seq<IpRule>)
    ensures a + (b + c) == a + b + c
  {
  }

  lemma {:induction false} FilterIn(rules: seq<IpRule>, f: IpRule -> bool, r: IpRule)
    ensures r in Filter(rules, f) <==> r in rules && f(r)
  {
    if rules != [] {
      FilterIn(rules[1..], f, r);
      assert rules == [rules[0]] + rules[1..];
    }
  }

  /** Deleting by a specification that selects nothing kept by the filter leaves the filtered rules alone. */
  lemma {:induction false} DelOutside(rules: seq<IpRule>, spec: IpRule, f: IpRule -> bool)
    requires forall r | r in rules && Selects(spec, r) :: !f(r)
    ensures Filter(RuleDel(rules, spec), f) == Filter(rules, f)
  {
    if rules != [] && !Selects(spec, rules[0]) {
      DelOutside(rules[1..], spec, f);
      assert RuleDel(rules, spec)[1..] == RuleDel(rules[1..], spec);
    }
  }

  /** Deleting by a specification that selects only rules kept by the filter acts on the filtered rules alone. */
  lemma {:induction false} DelInside(rules: seq<IpRule>, spec: IpRule, f: IpRule -> bool)
    requires forall r | Selects(spec, r) :: f(r)
    ensures Filter(RuleDel(rules, spec), f) == RuleDel(Filter(rules, f), spec)
  {
    if rules != [] {
      if !Selects(spec, rules[0]) {
        DelInside(rules[1..], spec, f);
        assert RuleDel(rules, spec)[1..] == RuleDel(rules[1..], spec);
        if f(rules[0]) {
          assert Filter(rules, f)[1..] == Filter(rules[1..], f);
        }
      } else {
        assert Filter(rules, f)[1..] == Filter(rules[1..], f);
      }
    }
  }

  lemma {:induction false} FilterNone(rules: seq<IpRule>, f: IpRule -> bool, g: IpRule -> bool)
    requires Filter(rules, f) == [] && forall r :: g(r) <==> !f(r)
    ensures Filter(rules, g) == rules
  {
    if rules != [] {
      FilterNone(rules[1..], f, g);
    }
  }

  /** Adding a rule shows in a filter that keeps it, and only there. */
  lemma AddFiltered(rules: seq<IpRule>, r: IpRule, f: IpRule -> bool)
    ensures Filter(RuleAdd(rules, r), f) == if f(r) then RuleAdd(Filter(rules, f), r) else Filter(rules, f)
  {
    FilterIn(rules, f, r);
    FilterConcat(rules, [r], f);
    assert [r][1..] == [];
  }

  lemma {:induction false} AddAllOutside(rules: seq<IpRule>, rs: seq<IpRule>, f: IpRule -> bool)
    requires forall r | r in rs :: !f(r)
    ensures Filter(AddAll(rules, rs), f) == Filter(rules, f)
    decreases |rs|
  {
    if rs != [] {
      AddFiltered(rules, rs[0], f);
      AddAllOutside(RuleAdd(rules, rs[0]), rs[1..], f);
    }
  }

  // ----- Deleting listed rules -----

  /** Deleting the listed rules of a filter one by one deletes exactly those, if each selects within the filter. */
  lemma {:induction false} DelAllExact(rules: seq<IpRule>, k: seq<IpRule>, f: IpRule -> bool, g: IpRule -> bool)
    requires Filter(rules, f) == k && forall r :: g(r) <==> !f(r)
    requires forall r, x | r in k && Selects(r, x) :: f(x)
    ensures DelAll(rules, k) == Filter(rules, g)
    decreases |k|
  {
    if k == [] {
      FilterNone(rules, f, g);
    } else {
      DelInside(rules, k[0], f);
      DelOutside(rules, k[0], g);
      assert RuleDel(k, k[0]) == k[1..];
      DelAllExact(RuleDel(rules, k[0]), k[1..], f, g);
    }
  }

  lemma DelSource(rules: seq<IpRule>, ip: IP)
    ensures DelAll(rules, From(rules, ip)) == NotFrom(rules, ip)
  {
    var f, g := (r: IpRule) => IsFrom(r, ip), (r: IpRule) => !IsFrom(r, ip);
    forall r, x | r in From(rules, ip) && Selects(r, x)
      ensures f(x)
    {
      FilterIn(rules, f, r);
    }
    DelAllExact(rules, From(rules, ip), f, g);
  }

  // ----- Setting up, rewriting and tearing down -----

  /** A rule of the same kind is deleted first; the new one must not be there already. */
  function AddContainerRule(rules: seq<IpRule>, r: IpRule): seq<IpRule> {
    RuleAdd(RuleDel(rules, r), r)
  }

  function SetupRules(rules: seq<IpRule>, ip: IP, table: int, cidrs: seq<Option<Net>>, external: bool): seq<IpRule> {
    var r1 := AddContainerRule(rules, ToPodRule(ip));
    if table <= 0 then r1
    else if external then AddContainerRule(r1, FromPodRule(ip, table))
    else AddAll(r1, FromRules(ip, table, cidrs, false))
  }

  function TeardownRules(rules: seq<IpRule>, ip: IP, table: int): seq<IpRule> {
    var r1 := RuleDel(rules, ToPodSpec(ip));
    if table > 0 then DelAll(r1, From(r1, ip)) else r1
  }

  /** Re-plumbing from a listing of the rules; the table is that of the last rule found for the source. */
  function UpdateRules(rules: seq<IpRule>, listed: seq<IpRule>, ip: IP, cidrs: seq<Option<Net>>, requiresSNAT: bool): seq<IpRule> {
    var found := From(listed, ip);
    var r1 := DelAll(rules, found);
    if found == [] then r1
    else AddAll(r1, FromRules(ip, found[|found| - 1].table, cidrs, !requiresSNAT))
  }

  /** What setting up a pod from scratch leaves behind for it. */
  function Installed(ip: IP, table: int, cidrs: seq<Option<Net>>, external: bool): seq<IpRule> {
    [ToPodRule(ip)] + if table > 0 then AddAll([], FromRules(ip, table, cidrs, external)) else []
  }

  lemma {:induction false} AddAllPrefix(a: seq<IpRule>, b: seq<IpRule>, rs: seq<IpRule>)
    requires forall r | r in rs :: r !in a
    ensures AddAll(a + b, rs) == a + AddAll(b, rs)
    decreases |rs|
  {
    if rs != [] {
      assert rs[0] in a + b <==> rs[0] in b;
      assert (a + b) + [rs[0]] == a + (b + [rs[0]]);
      AddAllPrefix(a, RuleAdd(b, rs[0]), rs[1..]);
    }
  }

  lemma {:induction false} DelAbsent(rules: seq<IpRule>, spec: IpRule)
    requires forall r | r in rules :: !Selects(spec, r)
    ensures RuleDel(rules, spec) == rules
  {
    if rules != [] {
      DelAbsent(rules[1..], spec);
    }
  }

  lemma {:induction false} AddAllIn(rules: seq<IpRule>, rs: seq<IpRule>, r: IpRule)
    ensures r in AddAll(rules, rs) <==> r in rules || r in rs
    decreases |rs|
  {
    if rs != [] {
      AddAllIn(RuleAdd(rules, rs[0]), rs[1..], r);
      assert rs == [rs[0]] + rs[1..];
    }
  }

  lemma FromRulesShape(ip: IP, table: int, cidrs: seq<Option<Net>>, external: bool, r: IpRule)
    requires r in FromRules(ip, table, cidrs, external)
    ensures r.src == Some(Host(ip)) && r.table == table && r.priority == FROM_POD_PRIORITY
  {
  }

  lemma {:induction false} FilterAll(rules: seq<IpRule>, f: IpRule -> bool, g: IpRule -> bool)
    requires (forall r | r in rules :: f(r)) && forall r :: g(r) <==> !f(r)
    ensures Filter(rules, f) == rules && Filter(rules, g) == []
  {
    if rules != [] {
      FilterAll(rules[1..], f, g);
    }
  }

  lemma {:induction false} FilterAgree(rules: seq<IpRule>, f: IpRule -> bool, g: IpRule -> bool)
    requires forall r | r in rules :: f(r) <==> g(r)
    ensures Filter(rules, f) == Filter(rules, g)
  {
    if rules != [] {
      FilterAgree(rules[1..], f, g);
    }
  }

  /** Tear-down of a pod whose rules are those installed, among any rules of others, removes exactly its rules. */
  lemma TeardownRemoves(rules: seq<IpRule>, ip: IP, table: int, cidrs: seq<Option<Net>>, external: bool)
    requires Mine(rules, ip) == Installed(ip, table, cidrs, external)
    ensures TeardownRules(rules, ip, table) == Others(rules, ip)
  {
    var f, g := (r: IpRule) => IsMine(r, ip), (r: IpRule) => !IsMine(r, ip);
    var spec := ToPodSpec(ip);
    var r1 := RuleDel(rules, spec);
    DelInside(rules, spec, f);
    DelOutside(rules, spec, g);
    var mine := Installed(ip, table, cidrs, external);
    var from := mine[1..];
    assert Filter(r1, f) == from;
    if table > 0 {
      forall r | r in from
        ensures IsFrom(r, ip)
      {
        AddAllIn([], FromRules(ip, table, cidrs, external), r);
        FromRulesShape(ip, table, cidrs, external, r);
      }
      forall r | r in r1
        ensures IsFrom(r, ip) <==> f(r)
      {
        FilterIn(r1, f, r);
      }
      FilterAgree(r1, r => IsFrom(r, ip), f);
      DelAllExact(r1, from, f, g);
    } else {
      FilterNone(r1, f, g);
    }
  }

  /** A priority that kernel rules can have and that to-pod rules do not have. */
  predicate NotToPod(priority: int) {
    0 <= priority && priority != TO_POD_PRIORITY
  }

  /** No rule for this source has the priority of to-pod rules. */
  predicate Tidy(rules: seq<IpRule>, ip: IP) {
    forall r | r in rules && IsFrom(r, ip) :: NotToPod(r.priority)
  }

  /** Setting up another pod leaves this pod's rules alone. */
  lemma OtherSetupKeeps(rules: seq<IpRule>, ip: IP, other: IP, table: int, cidrs: seq<Option<Net>>, external: bool)
    requires other != ip && Tidy(rules, ip)
    ensures Mine(SetupRules(rules, other, table, cidrs, external), ip) == Mine(rules, ip)
  {
    var f := (r: IpRule) => IsMine(r, ip);
    var to, from := ToPodRule(other), FromPodRule(other, table);
    var r1 := AddContainerRule(rules, to);
    DelOutside(rules, to, f);
    AddFiltered(RuleDel(rules, to), to, f);
    if table > 0 {
      if external {
        DelOutside(r1, from, f);
        AddFiltered(RuleDel(r1, from), from, f);
      } else {
        forall r | r in FromRules(other, table, cidrs, false)
          ensures !f(r)
        {
          FromRulesShape(other, table, cidrs, false, r);
        }
        AddAllOutside(r1, FromRules(other, table, cidrs, false), f);
      }
    }
  }

  /** So does tearing another pod down. */
  lemma OtherTeardownKeeps(rules: seq<IpRule>, ip: IP, other: IP, table: int)
    requires other != ip && Tidy(rules, ip) && Tidy(rules, other)
    ensures Mine(TeardownRules(rules, other, table), ip) == Mine(rules, ip)
  {
    var f := (r: IpRule) => IsMine(r, ip);
    var r1 := RuleDel(rules, ToPodSpec(other));
    DelOutside(rules, ToPodSpec(other), f);
    if table > 0 {
      forall r | r in From(r1, other)
        ensures r in rules && IsFrom(r, other)
      {
        FilterIn(r1, x => IsFrom(x, other), r);
        DelKeepsIn(rules, ToPodSpec(other), r);
      }
      DelAllOutside(r1, From(r1, other), f);
    }
  }

  lemma {:induction false} DelKeepsIn(rules: seq<IpRule>, spec: IpRule, r: IpRule)
    requires r in RuleDel(rules, spec)
    ensures r in rules
  {
    if !Selects(spec, rules[0]) && r != rules[0] {
      DelKeepsIn(rules[1..], spec, r);
    }
  }

  lemma {:induction false} DelAllOutside(rules: seq<IpRule>, k: seq<IpRule>, f: IpRule -> bool)
    requires forall r, x | r in k && Selects(r, x) :: !f(x)
    ensures Filter(DelAll(rules, k), f) == Filter(rules, f)
    decreases |k|
  {
    if k != [] {
      assert k[0] in k;
      DelOutside(rules, k[0], f);
      DelAllOutside(RuleDel(rules, k[0]), k[1..], f);
    }
  }

  // ----- Work that breaks off -----

  /** Nothing that belongs to any other pod has changed. */
  ghost predicate Spared(before: seq<IpRule>, after: seq<IpRule>, ip: IP) {
    forall i | i != ip && Tidy(before, i) :: Tidy(after, i) && Mine(after, i) == Mine(before, i)
  }

  lemma SparedTransitive(a: seq<IpRule>, b: seq<IpRule>, c: seq<IpRule>, ip: IP)
    requires Spared(a, b, ip) && Spared(b, c, ip)
    ensures Spared(a, c, ip)
  {
  }

  lemma AddSpares(rules: seq<IpRule>, r: IpRule, ip: IP)
    requires forall i | i != ip :: !IsMine(r, i)
    ensures Spared(rules, RuleAdd(rules, r), ip)
  {
    forall i | i != ip && Tidy(rules, i)
      ensures Tidy(RuleAdd(rules, r), i) && Mine(RuleAdd(rules, r), i) == Mine(rules, i)
    {
      AddFiltered(rules, r, x => IsMine(x, i));
    }
  }

  /** A deletion aimed at a to-pod rule of this pod, or at from-pod rules of this source. */
  predicate AimedAt(spec: IpRule, ip: IP) {
    (spec.dst == Some(Host(ip)) && spec.priority == TO_POD_PRIORITY)
    || (IsFrom(spec, ip) && NotToPod(spec.priority))
  }

  /** A rule that set-up or an update writes for this pod. */
  ghost predicate PodRule(r: IpRule, ip: IP) {
    AimedAt(r, ip) && (IsFrom(r, ip) ==> NotToPod(r.priority)) && forall i | i != ip :: !IsMine(r, i)
  }

  lemma DelSpares(rules: seq<IpRule>, spec: IpRule, ip: IP)
    requires AimedAt(spec, ip)
    ensures Spared(rules, RuleDel(rules, spec), ip)
  {
    forall i | i != ip && Tidy(rules, i)
      ensures Tidy(RuleDel(rules, spec), i) && Mine(RuleDel(rules, spec), i) == Mine(rules, i)
    {
      DelOutside(rules, spec, x => IsMine(x, i));
      forall r | r in RuleDel(rules, spec) && IsFrom(r, i)
        ensures NotToPod(r.priority)
      {
        DelKeepsIn(rules, spec, r);
      }
    }
  }

  // ----- Re-plumbing -----

  predicate Distinct(cidrs: seq<Option<Net>>) {
    forall i, j | 0 <= i < j < |cidrs| :: cidrs[i] != cidrs[j]
  }

  lemma {:induction false} AddDistinct(rules: seq<IpRule>, rs: seq<IpRule>)
    requires (forall i, j | 0 <= i < j < |rs| :: rs[i] != rs[j]) && forall r | r in rs :: r !in rules
    ensures AddAll(rules, rs) == rules + rs
    decreases |rs|
  {
    if rs != [] {
      assert forall i | 0 <= i < |rs[1..]| :: rs[1..][i] == rs[i + 1];
      forall r | r in rs[1..]
        ensures r !in rules + [rs[0]]
      {
        var i :| 0 <= i < |rs[1..]| && rs[1..][i] == r;
        assert rs[i + 1] == r;
      }
      AddDistinct(rules + [rs[0]], rs[1..]);
      assert rules + [rs[0]] + rs[1..] == rules + rs;
    } else {
      assert rules + rs == rules;
    }
  }

  lemma FromRulesDistinct(ip: IP, table: int, cidrs: seq<Option<Net>>, external: bool)
    requires external || Distinct(cidrs)
    ensures forall i, j | 0 <= i < j < |FromRules(ip, table, cidrs, external)| ::
              FromRules(ip, table, cidrs, external)[i] != FromRules(ip, table, cidrs, external)[j]
  {
  }

  lemma {:induction false} FilterTwice(rules: seq<IpRule>, m: IpRule -> bool, f: IpRule -> bool)
    requires forall r | f(r) :: m(r)
    ensures Filter(Filter(rules, m), f) == Filter(rules, f)
  {
    if rules != [] {
      FilterTwice(rules[1..], m, f);
      if m(rules[0]) {
        assert Filter(rules, m)[1..] == Filter(rules[1..], m);
      }
    }
  }
}
