/** What the synchronised chains contain, and what they do to a packet. */
module SnatMeaning {
  import opened Cidrs
  import opened Snat

  // ----- One chain at a time -----

  function OnChain(es: seq<Entry>, c: string): seq<Entry> {
    if es == [] then []
    else (if es[0].chain == c then [es[0]] else []) + OnChain(es[1..], c)
  }

  function ApplyChain(s: seq<Rule>, es: seq<Entry>): seq<Rule>
    decreases |es|
  {
    if es == [] then s else ApplyChain(ApplyToChain(s, es[0]), es[1..])
  }

  /** Running all entries over the table acts on each chain as its own entries do. */
  lemma {:induction false} Projection(t: Table, es: seq<Entry>, c: string)
    ensures ChainOf(ApplyAll(t, es), c) == ApplyChain(ChainOf(t, c), OnChain(es, c))
    decreases |es|
  {
    if es != [] {
      Projection(Apply(t, es[0]), es[1..], c);
      if es[0].chain == c {
        assert OnChain(es, c) == [es[0]] + OnChain(es[1..], c);
        assert ([es[0]] + OnChain(es[1..], c))[1..] == OnChain(es[1..], c);
      } else {
        assert OnChain(es, c) == OnChain(es[1..], c);
      }
    }
  }

  lemma AssocConcat(a: seq<Entry>, b: seq<Entry>, c: seq<Entry>)
    ensures a + (b + c) == a + b + c
  {
  }

  lemma {:induction false} OnChainConcat(a: seq<Entry>, b: seq<Entry>, c: string)
    ensures OnChain(a + b, c) == OnChain(a, c) + OnChain(b, c)
  {
    if a == [] {
      assert a + b == b;
    } else {
      OnChainConcat(a[1..], b, c);
      var first := if a[0].chain == c then [a[0]] else [];
      assert (a + b)[0] == a[0] && (a + b)[1..] == a[1..] + b;
      AssocConcat(first, OnChain(a[1..], c), OnChain(b, c));
    }
  }

  lemma {:induction false} ApplyChainConcat(s: seq<Rule>, a: seq<Entry>, b: seq<Entry>)
    ensures ApplyChain(s, a + b) == ApplyChain(ApplyChain(s, a), b)
    decreases |a|
  {
    if a == [] {
      assert a + b == b;
    } else {
      ConcatParts(a, b);
      ApplyChainConcat(ApplyToChain(s, a[0]), a[1..], b);
    }
  }

  lemma ConcatParts(a: seq<Entry>, b: seq<Entry>)
    requires a != []
    ensures a + b != [] && (a + b)[0] == a[0] && (a + b)[1..] == a[1..] + b
  {
  }

  // ----- The entries of each chain -----

  lemma ChainEntriesParts(c: SnatConfig, k: nat)
    requires k <= |AllCIDRs(c)|
    ensures ChainEntries(c, k) != [] && ChainEntries(c, k)[0] == EntryOf(c, k)
    ensures ChainEntries(c, k)[1..] == ChainEntries(c, k + 1)
  {
  }

  lemma {:induction false} ChainEntriesOn(c: SnatConfig, k: nat, i: nat)
    requires k <= |AllCIDRs(c)| + 1 && i <= |AllCIDRs(c)|
    ensures OnChain(ChainEntries(c, k), ChainName(i)) ==
            if k <= i then [EntryOf(c, i)] else []
    decreases |AllCIDRs(c)| + 1 - k
  {
    if k <= |AllCIDRs(c)| {
      ChainEntriesOn(c, k + 1, i);
      ChainNames(k, i);
      ChainEntriesParts(c, k);
    }
  }

  lemma {:induction false} ChainEntriesOff(c: SnatConfig, k: nat, chain: string)
    requires k <= |AllCIDRs(c)| + 1
    requires forall i | 0 <= i <= |AllCIDRs(c)| :: chain != ChainName(i)
    ensures OnChain(ChainEntries(c, k), chain) == []
    decreases |AllCIDRs(c)| + 1 - k
  {
    if k <= |AllCIDRs(c)| {
      ChainEntriesOff(c, k + 1, chain);
      ChainEntriesParts(c, k);
    }
  }

  lemma DesiredOn(c: SnatConfig, i: nat)
    requires i <= |AllCIDRs(c)|
    ensures OnChain(Desired(c), ChainName(i)) == [EntryOf(c, i)]
  {
    ChainNames(i, i);
    ChainEntriesOn(c, 0, i);
    assert Desired(c)[1..] == ChainEntries(c, 0);
  }

  predicate Numbered(c: SnatConfig, chain: string) {
    exists i :: 0 <= i <= |AllCIDRs(c)| && chain == ChainName(i)
  }

  lemma DesiredOff(c: SnatConfig, chain: string)
    requires !Numbered(c, chain) && chain != POSTROUTING
    ensures OnChain(Desired(c), chain) == []
  {
    ChainEntriesOff(c, 0, chain);
    assert Desired(c)[1..] == ChainEntries(c, 0);
  }

  lemma DesiredPostrouting(c: SnatConfig)
    ensures OnChain(Desired(c), POSTROUTING) == [Entry(!c.useExternalSNAT, POSTROUTING, JumpRule())]
  {
    forall i: nat | i <= |AllCIDRs(c)|
      ensures POSTROUTING != ChainName(i)
    {
      ChainNames(i, i);
    }
    ChainEntriesOff(c, 0, POSTROUTING);
    assert Desired(c)[1..] == ChainEntries(c, 0);
  }

  /** Whether a rule is wanted on a chain depends on that chain's entries only. */
  lemma {:induction false} WantedIsOnChain(es: seq<Entry>, chain: string, r: Rule)
    ensures Wanted(es, chain, r) <==> Wanted(OnChain(es, chain), chain, r)
  {
    if es != [] {
      WantedIsOnChain(es[1..], chain, r);
      var on := OnChain(es, chain);
      if es[0].chain == chain {
        assert on[1..] == OnChain(es[1..], chain);
      } else {
        assert on == OnChain(es[1..], chain);
      }
    }
  }

  lemma WantedOnNumbered(c: SnatConfig, i: nat, r: Rule)
    requires i <= |AllCIDRs(c)|
    ensures Wanted(Desired(c), ChainName(i), r) <==> r == RuleOf(c, i)
  {
    WantedIsOnChain(Desired(c), ChainName(i), r);
    DesiredOn(c, i);
    var on := OnChain(Desired(c), ChainName(i));
    assert on[1..] == [];
  }

  lemma WantedElsewhere(c: SnatConfig, chain: string, r: Rule)
    requires !Numbered(c, chain) && chain != POSTROUTING
    ensures !Wanted(Desired(c), chain, r)
  {
    WantedIsOnChain(Desired(c), chain, r);
    DesiredOff(c, chain);
  }

  // ----- The stale entries of each chain -----

  lemma {:induction false} StaleOnSame(c: SnatConfig, chain: string, rules: seq<Rule>)
    ensures OnChain(StaleOn(c, chain, rules), chain) == StaleOn(c, chain, rules)
    ensures forall other | other != chain :: OnChain(StaleOn(c, chain, rules), other) == []
  {
    if rules != [] {
      StaleOnSame(c, chain, rules[1..]);
      if !Wanted(Desired(c), chain, rules[0]) {
        assert StaleOn(c, chain, rules)[1..] == StaleOn(c, chain, rules[1..]);
      } else {
        assert StaleOn(c, chain, rules) == StaleOn(c, chain, rules[1..]);
      }
    }
  }

  lemma {:induction false} StaleOnChain(c: SnatConfig, t: Table, chains: seq<string>, chain: string)
    requires forall i, j | 0 <= i < j < |chains| :: chains[i] != chains[j]
    ensures OnChain(Stale(c, t, chains), chain) ==
            if chain in chains && IsSnatChain(chain) then StaleOn(c, chain, ChainOf(t, chain)) else []
  {
    if chains != [] {
      var head := if IsSnatChain(chains[0]) then StaleOn(c, chains[0], ChainOf(t, chains[0])) else [];
      StaleOnChain(c, t, chains[1..], chain);
      StaleOnSame(c, chains[0], ChainOf(t, chains[0]));
      OnChainConcat(head, Stale(c, t, chains[1..]), chain);
      assert chain in chains <==> chain == chains[0] || chain in chains[1..];
      assert chain == chains[0] ==> chain !in chains[1..];
    }
  }

  // ----- Deleting what is stale -----

  lemma {:induction false} DeleteFirstCounts(s: seq<Rule>, r: Rule)
    requires r in s
    ensures multiset(DeleteFirst(s, r)) == multiset(s) - multiset{r}
  {
    if s[0] == r {
      assert s == [s[0]] + s[1..];
    } else {
      DeleteFirstCounts(s[1..], r);
      assert s == [s[0]] + s[1..];
    }
  }

  /** How many rules of `s` are stale on the chain, as a multiset. */
  lemma {:induction false} StaleCounts(c: SnatConfig, chain: string, s: seq<Rule>)
    ensures forall r :: multiset(Rules(StaleOn(c, chain, s)))[r] == if Wanted(Desired(c), chain, r) then 0 else multiset(s)[r]
    ensures forall e | e in StaleOn(c, chain, s) :: !e.shouldExist
  {
    if s != [] {
      StaleCounts(c, chain, s[1..]);
      assert s == [s[0]] + s[1..];
      var rest := StaleOn(c, chain, s[1..]);
      if Wanted(Desired(c), chain, s[0]) {
        assert StaleOn(c, chain, s) == rest;
      } else {
        var e := Entry(false, chain, s[0]);
        assert StaleOn(c, chain, s) == [e] + rest;
        assert Rules([e] + rest) == [s[0]] + Rules(rest);
      }
    }
  }

  function Rules(es: seq<Entry>): seq<Rule> {
    seq(|es|, i requires 0 <= i < |es| => es[i].rule)
  }

  lemma {:induction false} DeleteAllCounts(s: seq<Rule>, es: seq<Entry>)
    requires (forall e | e in es :: !e.shouldExist) && multiset(Rules(es)) <= multiset(s)
    ensures multiset(ApplyChain(s, es)) == multiset(s) - multiset(Rules(es))
    decreases |es|
  {
    if es != [] {
      var r := es[0].rule;
      assert Rules(es) == [r] + Rules(es[1..]);
      assert r in multiset(Rules(es));
      assert r in multiset(s);
      DeleteFirstCounts(s, r);
      DeleteAllCounts(DeleteFirst(s, r), es[1..]);
    } else {
      assert Rules(es) == [];
    }
  }

  // ----- What the chains contain afterwards -----

  /** Chain content after a run: its own entries, then the stale ones, then (on POSTROUTING) the pre-1.3 rule. */
  lemma SynchronisedChain(c: SnatConfig, t: Table, chains: seq<string>, chain: string)
    requires Lists(chains, t)
    ensures var stale := if IsSnatChain(chain) then StaleOn(c, chain, ChainOf(t, chain)) else [];
            ChainOf(Synchronised(c, t, chains), chain) ==
            ApplyChain(ApplyChain(ApplyChain(ChainOf(t, chain), OnChain(Desired(c), chain)), stale),
                       if chain == POSTROUTING then [Entry(false, POSTROUTING, OldSnatRule(c))] else [])
  {
    var t1 := WithChains(t, |AllCIDRs(c)| + 1);
    var pre := Entry(false, POSTROUTING, OldSnatRule(c));
    var stale := Stale(c, t, chains);
    WithChainsKeeps(t, |AllCIDRs(c)| + 1, chain);
    Projection(t1, Entries(c, t, chains), chain);
    OnChainConcat(Desired(c) + stale, [pre], chain);
    OnChainConcat(Desired(c), stale, chain);
    StaleOnChain(c, t, chains, chain);
    assert OnChain([pre], chain) == if chain == POSTROUTING then [pre] else [];
    ApplyChainConcat(ChainOf(t, chain), OnChain(Desired(c), chain) + OnChain(stale, chain), OnChain([pre], chain));
    ApplyChainConcat(ChainOf(t, chain), OnChain(Desired(c), chain), OnChain(stale, chain));
  }

  lemma {:induction false} WithChainsKeeps(t: Table, n: nat, chain: string)
    ensures ChainOf(WithChains(t, n), chain) == ChainOf(t, chain)
    ensures chain in WithChains(t, n) <==> chain in t || exists i :: 0 <= i < n && chain == ChainName(i)
  {
    if n > 0 {
      WithChainsKeeps(t, n - 1, chain);
    }
  }

  /** `s` consists of exactly `n` copies of one rule. */
  ghost predicate Copies(s: seq<Rule>, r: Rule, n: nat) {
    |s| == n && forall i | 0 <= i < |s| :: s[i] == r
  }

  lemma {:induction false} OnlyCopies(s: seq<Rule>, r: Rule, n: nat)
    requires forall x :: multiset(s)[x] == if x == r then n else 0
    ensures Copies(s, r, n)
  {
    forall i | 0 <= i < |s|
      ensures s[i] == r
    {
      assert s[i] in multiset(s);
    }
    CopiesCount(s, r);
  }

  lemma {:induction false} CopiesCount(s: seq<Rule>, r: Rule)
    requires forall i | 0 <= i < |s| :: s[i] == r
    ensures multiset(s)[r] == |s|
  {
    if s != [] {
      CopiesCount(s[1..], r);
      assert s == [s[0]] + s[1..];
    }
  }

  /** Deleting what was stale on a numbered chain leaves the copies of its own rule. */
  lemma StaleGoes(c: SnatConfig, i: nat, s: seq<Rule>, s1: seq<Rule>)
    requires i <= |AllCIDRs(c)| && forall x | x != RuleOf(c, i) :: multiset(s1)[x] == multiset(s)[x]
    ensures Copies(ApplyChain(s1, StaleOn(c, ChainName(i), s)), RuleOf(c, i), multiset(s1)[RuleOf(c, i)])
  {
    var r, stale := RuleOf(c, i), StaleOn(c, ChainName(i), s);
    StaleCounts(c, ChainName(i), s);
    forall x
      ensures multiset(Rules(stale))[x] == if x == r then 0 else multiset(s1)[x]
    {
      WantedOnNumbered(c, i, x);
    }
    DeleteAllCounts(s1, stale);
    OnlyCopies(ApplyChain(s1, stale), r, multiset(s1)[r]);
  }

  /** After a run with internal SNAT, a numbered chain holds its one rule, at least once, and nothing else. */
  lemma InternalChain(c: SnatConfig, t: Table, chains: seq<string>, i: nat)
    requires Lists(chains, t) && !c.useExternalSNAT && i <= |AllCIDRs(c)|
    ensures var before := multiset(ChainOf(t, ChainName(i)))[RuleOf(c, i)];
            Copies(ChainOf(Synchronised(c, t, chains), ChainName(i)), RuleOf(c, i), if before == 0 then 1 else before)
  {
    var s, r := ChainOf(t, ChainName(i)), RuleOf(c, i);
    NumberedChain(c, t, chains, i);
    var s1 := ApplyToChain(s, Entry(true, ChainName(i), r));
    assert multiset(s1) == multiset(s) + if r in s then multiset{} else multiset{r};
    StaleGoes(c, i, s, s1);
  }

  /** A numbered chain has one entry of its own; then its stale rules go. */
  lemma NumberedChain(c: SnatConfig, t: Table, chains: seq<string>, i: nat)
    requires Lists(chains, t) && i <= |AllCIDRs(c)|
    ensures var s, e := ChainOf(t, ChainName(i)), Entry(!c.useExternalSNAT, ChainName(i), RuleOf(c, i));
            ChainOf(Synchronised(c, t, chains), ChainName(i)) == ApplyChain(ApplyToChain(s, e), StaleOn(c, ChainName(i), s))
  {
    ChainNames(i, i);
    SynchronisedChain(c, t, chains, ChainName(i));
    DesiredOn(c, i);
    OneEntry(ChainOf(t, ChainName(i)), Entry(!c.useExternalSNAT, ChainName(i), RuleOf(c, i)));
  }

  lemma OneEntry(s: seq<Rule>, e: Entry)
    ensures ApplyChain(s, [e]) == ApplyToChain(s, e)
  {
    assert [e][1..] == [];
  }

  /** After a run with external SNAT, a numbered chain keeps only surplus copies of its own rule. */
  lemma ExternalChain(c: SnatConfig, t: Table, chains: seq<string>, i: nat)
    requires Lists(chains, t) && c.useExternalSNAT && i <= |AllCIDRs(c)|
    ensures var before := multiset(ChainOf(t, ChainName(i)))[RuleOf(c, i)];
            Copies(ChainOf(Synchronised(c, t, chains), ChainName(i)), RuleOf(c, i), if before == 0 then 0 else before - 1)
  {
    var s, r := ChainOf(t, ChainName(i)), RuleOf(c, i);
    NumberedChain(c, t, chains, i);
    var s1 := ApplyToChain(s, Entry(false, ChainName(i), r));
    OneFewer(s, Entry(false, ChainName(i), r));
    StaleGoes(c, i, s, s1);
  }

  lemma OneFewer(s: seq<Rule>, e: Entry)
    requires !e.shouldExist
    ensures multiset(ApplyToChain(s, e)) == multiset(s) - multiset{e.rule}
  {
    if e.rule in s {
      DeleteFirstCounts(s, e.rule);
    }
  }

  /** SNAT chains beyond the numbered ones are emptied, whatever the mode. */
  lemma SurplusChain(c: SnatConfig, t: Table, chains: seq<string>, chain: string)
    requires Lists(chains, t) && "AWS-SNAT-CHAIN" <= chain && !Numbered(c, chain)
    ensures ChainOf(Synchronised(c, t, chains), chain) == []
  {
    ChainNames(0, 0);
    var s := ChainOf(t, chain);
    SynchronisedChain(c, t, chains, chain);
    DesiredOff(c, chain);
    AllStaleGoes(c, chain, s);
  }

  lemma AllStaleGoes(c: SnatConfig, chain: string, s: seq<Rule>)
    requires !Numbered(c, chain) && chain != POSTROUTING
    ensures ApplyChain(s, StaleOn(c, chain, s)) == []
  {
    var stale := StaleOn(c, chain, s);
    StaleCounts(c, chain, s);
    forall x
      ensures multiset(Rules(stale))[x] == multiset(s)[x]
    {
      WantedElsewhere(c, chain, x);
    }
    assert multiset(Rules(stale)) == multiset(s);
    DeleteAllCounts(s, stale);
    var r := ApplyChain(s, stale);
    assert multiset(r) == multiset{};
    assert |r| == |multiset(r)|;
  }

  /** Chains that are neither SNAT chains nor POSTROUTING are not touched. */
  lemma UnrelatedChain(c: SnatConfig, t: Table, chains: seq<string>, chain: string)
    requires Lists(chains, t) && !("AWS-SNAT-CHAIN" <= chain) && chain != "POSTROUTING"
    ensures ChainOf(Synchronised(c, t, chains), chain) == ChainOf(t, chain)
  {
    forall i: nat | i <= |AllCIDRs(c)|
      ensures chain != ChainName(i)
    {
      ChainNames(i, i);
    }
    SynchronisedChain(c, t, chains, chain);
    DesiredOff(c, chain);
  }

  /** No entry of a run is about such a chain. */
  lemma NoEntries(c: SnatConfig, t: Table, chains: seq<string>, chain: string)
    requires Lists(chains, t) && !IsSnatChain(chain) && chain != POSTROUTING
    ensures OnChain(Entries(c, t, chains), chain) == []
  {
    forall i: nat | i <= |AllCIDRs(c)|
      ensures chain != ChainName(i)
    {
      ChainNames(i, i);
    }
    var pre := Entry(false, POSTROUTING, OldSnatRule(c));
    DesiredOff(c, chain);
    StaleOnChain(c, t, chains, chain);
    OnChainConcat(Desired(c) + Stale(c, t, chains), [pre], chain);
    OnChainConcat(Desired(c), Stale(c, t, chains), chain);
    assert OnChain([pre], chain) == [];
  }

  /** POSTROUTING gains or loses the jump into the first chain, and loses one pre-1.3 rule. */
  lemma Postrouting(c: SnatConfig, t: Table, chains: seq<string>)
    requires Lists(chains, t)
    ensures var jump := Entry(!c.useExternalSNAT, POSTROUTING, JumpRule());
            ChainOf(Synchronised(c, t, chains), POSTROUTING) ==
            ApplyToChain(ApplyToChain(ChainOf(t, POSTROUTING), jump), Entry(false, POSTROUTING, OldSnatRule(c)))
  {
    ChainNames(0, 0);
    SynchronisedChain(c, t, chains, POSTROUTING);
    DesiredPostrouting(c);
    var s := ChainOf(t, POSTROUTING);
    var jump := Entry(!c.useExternalSNAT, POSTROUTING, JumpRule());
    OneEntry(s, jump);
    OneEntry(ApplyToChain(s, jump), Entry(false, POSTROUTING, OldSnatRule(c)));
  }

  // ----- What the chains mean -----

  /** Several copies of a rule do what one does. */
  lemma {:induction false} CopiesEval(t: Table, s: seq<Rule>, r: Rule, n: nat, p: Packet, fuel: nat)
    requires n > 0 && Copies(s, r, n)
    ensures Eval(t, s, p, fuel) == Eval(t, [r], p, fuel)
  {
    assert [r][1..] == [];
    if n > 1 {
      CopiesEval(t, s[1..], r, n - 1, p, fuel);
    } else {
      assert s == [r];
    }
  }

  predicate OutsideFrom(c: SnatConfig, i: nat, p: Packet) {
    forall j | i <= j < |AllCIDRs(c)| :: !Contains(AllCIDRs(c)[j].cidr, p.dst)
  }

  /** Every numbered chain holds its one rule, at least once. */
  ghost predicate Ready(c: SnatConfig, t: Table) {
    forall j | 0 <= j <= |AllCIDRs(c)| :: ChainReady(c, t, j)
  }

  ghost predicate ChainReady(c: SnatConfig, t: Table, j: nat)
    requires j <= |AllCIDRs(c)|
  {
    exists n :: n > 0 && Copies(ChainOf(t, ChainName(j)), RuleOf(c, j), n)
  }

  lemma ReadyEval(c: SnatConfig, t: Table, i: nat, p: Packet, fuel: nat)
    requires i <= |AllCIDRs(c)| && ChainReady(c, t, i)
    ensures Eval(t, ChainOf(t, ChainName(i)), p, fuel) == Eval(t, [RuleOf(c, i)], p, fuel)
  {
    var n :| n > 0 && Copies(ChainOf(t, ChainName(i)), RuleOf(c, i), n);
    CopiesEval(t, ChainOf(t, ChainName(i)), RuleOf(c, i), n, p, fuel);
  }

  /** A rule on its own that tests one thing and jumps. */
  lemma JumpEval(t: Table, m: Match, comment: string, next: string, p: Packet, fuel: nat)
    requires fuel > 0
    ensures Eval(t, [Rule([m], comment, Jump(next))], p, fuel) ==
            if Matches(m, p) then Eval(t, ChainOf(t, next), p, fuel - 1) else FellThrough
  {
    var r := Rule([m], comment, Jump(next));
    assert [r][1..] == [];
    assert AllMatch([m], p) <==> Matches([m][0], p);
  }

  lemma SnatEval(c: SnatConfig, t: Table, p: Packet, fuel: nat)
    ensures Eval(t, [SnatRule(c)], p, fuel) == if p.local then FellThrough else Translated(c.primaryAddr, RandomFlag(c))
  {
    assert [SnatRule(c)][1..] == [];
    assert AllMatch([NotLocal], p) <==> Matches([NotLocal][0], p);
  }

  /** From chain `i` on, a packet is translated exactly when it is non-local and outside the remaining CIDRs. */
  lemma {:induction false} EvalFrom(c: SnatConfig, t: Table, i: nat, p: Packet, fuel: nat)
    requires i <= |AllCIDRs(c)| && fuel >= |AllCIDRs(c)| - i && Ready(c, t)
    ensures Eval(t, ChainOf(t, ChainName(i)), p, fuel) ==
            if !p.local && OutsideFrom(c, i, p) then Translated(c.primaryAddr, RandomFlag(c)) else FellThrough
    decreases |AllCIDRs(c)| - i
  {
    assert ChainReady(c, t, i);
    ReadyEval(c, t, i, p, fuel);
    if i < |AllCIDRs(c)| {
      var x := AllCIDRs(c)[i];
      JumpEval(t, NotTo(x.cidr), CidrRule(x, i).comment, ChainName(i + 1), p, fuel);
      EvalFrom(c, t, i + 1, p, fuel - 1);
      assert OutsideFrom(c, i, p) <==> !Contains(x.cidr, p.dst) && OutsideFrom(c, i + 1, p);
    } else {
      SnatEval(c, t, p, fuel);
    }
  }

  /** Outside every VPC CIDR and every excluded CIDR. */
  ghost predicate Outside(c: SnatConfig, p: Packet) {
    (forall i | 0 <= i < |c.vpcCIDRs| :: !Contains(c.vpcCIDRs[i], p.dst))
    && forall i | 0 <= i < |c.excludeSNATCIDRs| :: !Contains(c.excludeSNATCIDRs[i], p.dst)
  }

  lemma OutsideAll(c: SnatConfig, p: Packet)
    ensures OutsideFrom(c, 0, p) <==> Outside(c, p)
  {
    var all, n := AllCIDRs(c), |c.vpcCIDRs|;
    if OutsideFrom(c, 0, p) {
      forall i | 0 <= i < n
        ensures !Contains(c.vpcCIDRs[i], p.dst)
      {
        assert all[i].cidr == c.vpcCIDRs[i];
      }
      forall i | 0 <= i < |c.excludeSNATCIDRs|
        ensures !Contains(c.excludeSNATCIDRs[i], p.dst)
      {
        assert all[n + i].cidr == c.excludeSNATCIDRs[i];
      }
    }
  }

  /**
   * From any prior nat table, whatever the order in which its chains are listed: after a run with internal SNAT the
   * evaluation of the first chain terminates, and translates a packet exactly when its destination is non-local and
   * lies outside every VPC CIDR and every excluded CIDR. POSTROUTING leads there.
   */
  lemma InternalSnatMeaning(c: SnatConfig, t: Table, chains: seq<string>, p: Packet, fuel: nat)
    requires Lists(chains, t) && !c.useExternalSNAT && fuel >= |AllCIDRs(c)|
    ensures var t' := Synchronised(c, t, chains);
            && Eval(t', ChainOf(t', ChainName(0)), p, fuel) ==
               (if !p.local && Outside(c, p) then Translated(c.primaryAddr, RandomFlag(c)) else FellThrough)
            && JumpRule() in ChainOf(t', POSTROUTING)
  {
    var t' := Synchronised(c, t, chains);
    InternalReady(c, t, chains);
    EvalFrom(c, t', 0, p, fuel);
    OutsideAll(c, p);
    InternalJump(c, t, chains);
  }

  lemma InternalReady(c: SnatConfig, t: Table, chains: seq<string>)
    requires Lists(chains, t) && !c.useExternalSNAT
    ensures Ready(c, Synchronised(c, t, chains))
  {
    forall j: nat | j <= |AllCIDRs(c)|
      ensures ChainReady(c, Synchronised(c, t, chains), j)
    {
      InternalChain(c, t, chains, j);
    }
  }

  lemma InternalJump(c: SnatConfig, t: Table, chains: seq<string>)
    requires Lists(chains, t) && !c.useExternalSNAT
    ensures JumpRule() in ChainOf(Synchronised(c, t, chains), POSTROUTING)
  {
    Postrouting(c, t, chains);
    JumpStays(ApplyToChain(ChainOf(t, POSTROUTING), Entry(true, POSTROUTING, JumpRule())), JumpRule(), OldSnatRule(c));
  }

  lemma {:induction false} JumpStays(s: seq<Rule>, r: Rule, x: Rule)
    requires r in s && r != x
    ensures r in DeleteFirst(s, x)
  {
    if s[0] != x && s[0] != r {
      JumpStays(s[1..], r, x);
    }
  }

  // ----- History does not matter -----

  /** How often the rule that belongs on chain `i` was there before. */
  function Before(c: SnatConfig, t: Table, i: nat): nat
    requires i <= |AllCIDRs(c)|
  {
    multiset(ChainOf(t, ChainName(i)))[RuleOf(c, i)]
  }

  /** The content the configuration alone asks for. */
  function Content(c: SnatConfig, i: nat): seq<Rule>
    requires i <= |AllCIDRs(c)|
  {
    if c.useExternalSNAT then [] else [RuleOf(c, i)]
  }

  /**
   * The numbered chains end up as the configuration alone asks (one rule each with internal SNAT, none with external)
   * exactly when no chain held more than one copy of its own rule before.
   */
  lemma HistoryFreeIff(c: SnatConfig, t: Table, chains: seq<string>)
    requires Lists(chains, t)
    ensures (forall i | 0 <= i <= |AllCIDRs(c)| :: ChainOf(Synchronised(c, t, chains), ChainName(i)) == Content(c, i))
            <==> forall i | 0 <= i <= |AllCIDRs(c)| :: Before(c, t, i) <= 1
  {
    forall i: nat | i <= |AllCIDRs(c)|
      ensures ChainOf(Synchronised(c, t, chains), ChainName(i)) == Content(c, i) <==> Before(c, t, i) <= 1
    {
      if c.useExternalSNAT {
        ExternalChain(c, t, chains, i);
      } else {
        InternalChain(c, t, chains, i);
      }
    }
  }

  /** With external SNAT the jump into the chains is gone exactly when POSTROUTING held at most one. */
  lemma ExternalJumpGoneIff(c: SnatConfig, t: Table, chains: seq<string>)
    requires Lists(chains, t) && c.useExternalSNAT
    ensures JumpRule() !in ChainOf(Synchronised(c, t, chains), POSTROUTING)
            <==> multiset(ChainOf(t, POSTROUTING))[JumpRule()] <= 1
  {
    PostroutingCounts(c, t, chains);
    var s := ChainOf(Synchronised(c, t, chains), POSTROUTING);
    assert JumpRule() in s <==> JumpRule() in multiset(s);
  }

  /** How often the two rules that a run manages in POSTROUTING are there afterwards. */
  lemma PostroutingCounts(c: SnatConfig, t: Table, chains: seq<string>)
    requires Lists(chains, t)
    ensures var before, after := multiset(ChainOf(t, POSTROUTING)), multiset(ChainOf(Synchronised(c, t, chains), POSTROUTING));
            && after[JumpRule()] == OneOff(before[JumpRule()], !c.useExternalSNAT)
            && after[OldSnatRule(c)] == OneOff(before[OldSnatRule(c)], false)
  {
    Postrouting(c, t, chains);
    var jump, pre := Entry(!c.useExternalSNAT, POSTROUTING, JumpRule()), Entry(false, POSTROUTING, OldSnatRule(c));
    var s1 := ApplyToChain(ChainOf(t, POSTROUTING), jump);
    EntryCounts(ChainOf(t, POSTROUTING), jump, JumpRule());
    EntryCounts(ChainOf(t, POSTROUTING), jump, OldSnatRule(c));
    EntryCounts(s1, pre, JumpRule());
    EntryCounts(s1, pre, OldSnatRule(c));
  }

  /** An entry brings its rule in if it is missing, or takes one copy away. */
  function OneOff(n: nat, shouldExist: bool): nat {
    if shouldExist then (if n == 0 then 1 else n) else if n == 0 then 0 else n - 1
  }

  lemma EntryCounts(s: seq<Rule>, e: Entry, r: Rule)
    ensures multiset(ApplyToChain(s, e))[r] == if r == e.rule then OneOff(multiset(s)[r], e.shouldExist) else multiset(s)[r]
  {
    if e.rule in s {
      DeleteFirstCounts(s, e.rule);
    }
  }

  predicate Satisfied(t: Table, e: Entry) {
    (e.rule in ChainOf(t, e.chain)) == e.shouldExist
  }

  lemma {:induction false} ApplySatisfied(t: Table, es: seq<Entry>)
    requires forall i | 0 <= i < |es| :: Satisfied(t, es[i])
    ensures ApplyAll(t, es) == t
    decreases |es|
  {
    if es != [] {
      assert Satisfied(t, es[0]);
      assert forall i | 0 <= i < |es[1..]| :: es[1..][i] == es[i + 1];
      ApplySatisfied(t, es[1..]);
    }
  }

  /** Every chain is present, holds what it should and nothing stale. */
  ghost predicate Settled(c: SnatConfig, t: Table) {
    (forall i | 0 <= i <= |AllCIDRs(c)| ::
       ChainName(i) in t && Satisfied(t, Entry(!c.useExternalSNAT, ChainName(i), RuleOf(c, i))))
    && Satisfied(t, Entry(!c.useExternalSNAT, POSTROUTING, JumpRule()))
    && forall chain, r | chain in t && IsSnatChain(chain) && r in t[chain] :: Wanted(Desired(c), chain, r)
  }

  lemma ChainEntriesSatisfied(c: SnatConfig, t: Table)
    requires Settled(c, t)
    ensures forall i | 0 <= i < |ChainEntries(c, 0)| :: Satisfied(t, ChainEntries(c, 0)[i])
  {
    forall i | 0 <= i < |ChainEntries(c, 0)|
      ensures Satisfied(t, ChainEntries(c, 0)[i])
    {
      SettledEntry(c, t, i);
    }
  }

  lemma SettledEntry(c: SnatConfig, t: Table, i: nat)
    requires Settled(c, t) && i <= |AllCIDRs(c)|
    ensures Satisfied(t, EntryOf(c, i))
  {
  }

  lemma {:induction false} NothingStaleOn(c: SnatConfig, chain: string, s: seq<Rule>)
    requires forall r | r in s :: Wanted(Desired(c), chain, r)
    ensures StaleOn(c, chain, s) == []
  {
    if s != [] {
      NothingStaleOn(c, chain, s[1..]);
    }
  }

  lemma {:induction false} NothingStale(c: SnatConfig, t: Table, chains: seq<string>)
    requires Settled(c, t) && forall x | x in chains :: x in t
    ensures Stale(c, t, chains) == []
  {
    if chains != [] {
      assert chains[0] in t;
      if IsSnatChain(chains[0]) {
        NothingStaleOn(c, chains[0], t[chains[0]]);
      }
      NothingStale(c, t, chains[1..]);
    }
  }

  lemma {:induction false} ChainsPresent(c: SnatConfig, t: Table, n: nat)
    requires n <= |AllCIDRs(c)| + 1 && forall i | 0 <= i < n :: ChainName(i) in t
    ensures WithChains(t, n) == t
  {
    if n > 0 {
      ChainsPresent(c, t, n - 1);
    }
  }

  lemma SettledEntries(c: SnatConfig, t: Table, chains: seq<string>, i: nat)
    requires Settled(c, t) && Lists(chains, t) && i < |Entries(c, t, chains)|
    requires OldSnatRule(c) !in ChainOf(t, POSTROUTING)
    ensures Satisfied(t, Entries(c, t, chains)[i])
  {
    NothingStale(c, t, chains);
    ChainEntriesSatisfied(c, t);
    var es := Entries(c, t, chains);
    var first := Entry(!c.useExternalSNAT, POSTROUTING, JumpRule());
    assert es == [first] + ChainEntries(c, 0) + [Entry(false, POSTROUTING, OldSnatRule(c))];
    assert i == 0 || i == |es| - 1 || es[i] == ChainEntries(c, 0)[i - 1];
  }

  lemma SettledFixed(c: SnatConfig, t: Table, chains: seq<string>)
    requires Settled(c, t) && Lists(chains, t) && OldSnatRule(c) !in ChainOf(t, POSTROUTING)
    ensures Synchronised(c, t, chains) == t
  {
    ChainsPresent(c, t, |AllCIDRs(c)| + 1);
    forall i: nat | i < |Entries(c, t, chains)|
      ensures Satisfied(t, Entries(c, t, chains)[i])
    {
      SettledEntries(c, t, chains, i);
    }
    ApplySatisfied(t, Entries(c, t, chains));
  }

  lemma OneOldRuleGoes(c: SnatConfig, t: Table, chains: seq<string>)
    requires Settled(c, t) && Lists(chains, t) && OldSnatRule(c) in ChainOf(t, POSTROUTING)
    ensures multiset(ChainOf(Synchronised(c, t, chains), POSTROUTING))
            == multiset(ChainOf(t, POSTROUTING)) - multiset{OldSnatRule(c)}
  {
    Postrouting(c, t, chains);
    assert Satisfied(t, Entry(!c.useExternalSNAT, POSTROUTING, JumpRule()));
    DeleteFirstCounts(ChainOf(t, POSTROUTING), OldSnatRule(c));
  }

  /** A settled table is left alone by another run exactly when no pre-1.3 rule is left in POSTROUTING. */
  lemma SettledIsFixedIff(c: SnatConfig, t: Table, chains: seq<string>)
    requires Settled(c, t) && Lists(chains, t)
    ensures Synchronised(c, t, chains) == t <==> OldSnatRule(c) !in ChainOf(t, POSTROUTING)
  {
    if OldSnatRule(c) !in ChainOf(t, POSTROUTING) {
      SettledFixed(c, t, chains);
    } else {
      OneOldRuleGoes(c, t, chains);
      var s := ChainOf(t, POSTROUTING);
      assert (multiset(s) - multiset{OldSnatRule(c)})[OldSnatRule(c)] != multiset(s)[OldSnatRule(c)];
    }
  }

  /** Nothing that a run manages was there more often than it should be. */
  ghost predicate NoSurplus(c: SnatConfig, t: Table) {
    c.useExternalSNAT ==>
      (forall i | 0 <= i <= |AllCIDRs(c)| :: Before(c, t, i) <= 1) && multiset(ChainOf(t, POSTROUTING))[JumpRule()] <= 1
  }

  /** A run with internal SNAT settles any table; one with external SNAT does so from a start without surplus. */
  lemma RunSettles(c: SnatConfig, t: Table, chains: seq<string>)
    requires Lists(chains, t) && NoSurplus(c, t)
    ensures Settled(c, Synchronised(c, t, chains))
  {
    var t' := Synchronised(c, t, chains);
    forall i: nat | i <= |AllCIDRs(c)|
      ensures ChainName(i) in t' && Satisfied(t', Entry(!c.useExternalSNAT, ChainName(i), RuleOf(c, i)))
    {
      WithChainsKeeps(t, |AllCIDRs(c)| + 1, ChainName(i));
      ApplyKeepsChains(WithChains(t, |AllCIDRs(c)| + 1), Entries(c, t, chains), ChainName(i));
      NumberedContent(c, t, chains, i);
    }
    forall chain, r | chain in t' && IsSnatChain(chain) && r in t'[chain]
      ensures Wanted(Desired(c), chain, r)
    {
      OnlyWanted(c, t, chains, chain, r);
    }
    if c.useExternalSNAT {
      ExternalJumpGoneIff(c, t, chains);
    } else {
      InternalJump(c, t, chains);
    }
  }

  /** And only then. */
  lemma RunSettlesIff(c: SnatConfig, t: Table, chains: seq<string>)
    requires Lists(chains, t)
    ensures Settled(c, Synchronised(c, t, chains)) <==> NoSurplus(c, t)
  {
    var t' := Synchronised(c, t, chains);
    if NoSurplus(c, t) {
      RunSettles(c, t, chains);
    } else if multiset(ChainOf(t, POSTROUTING))[JumpRule()] > 1 {
      ExternalJumpGoneIff(c, t, chains);
    } else {
      var i :| 0 <= i <= |AllCIDRs(c)| && Before(c, t, i) > 1;
      ExternalChain(c, t, chains, i);
      assert ChainOf(t', ChainName(i))[0] == RuleOf(c, i);
      assert !Satisfied(t', Entry(false, ChainName(i), RuleOf(c, i)));
    }
  }

  lemma {:induction false} ApplyKeepsChains(t: Table, es: seq<Entry>, chain: string)
    requires chain in t
    ensures chain in ApplyAll(t, es)
    decreases |es|
  {
    if es != [] {
      ApplyKeepsChains(Apply(t, es[0]), es[1..], chain);
    }
  }

  lemma NumberedContent(c: SnatConfig, t: Table, chains: seq<string>, i: nat)
    requires Lists(chains, t) && i <= |AllCIDRs(c)| && (c.useExternalSNAT ==> Before(c, t, i) <= 1)
    ensures var s := ChainOf(Synchronised(c, t, chains), ChainName(i));
            && (RuleOf(c, i) in s) == !c.useExternalSNAT
            && forall r | r in s :: r == RuleOf(c, i)
  {
    var s := ChainOf(Synchronised(c, t, chains), ChainName(i));
    if c.useExternalSNAT {
      ExternalChain(c, t, chains, i);
    } else {
      InternalChain(c, t, chains, i);
      assert s[0] == RuleOf(c, i);
    }
  }

  lemma OnlyWanted(c: SnatConfig, t: Table, chains: seq<string>, chain: string, r: Rule)
    requires Lists(chains, t) && IsSnatChain(chain) && r in ChainOf(Synchronised(c, t, chains), chain)
    ensures Wanted(Desired(c), chain, r)
  {
    if Numbered(c, chain) {
      var i :| 0 <= i <= |AllCIDRs(c)| && chain == ChainName(i);
      if c.useExternalSNAT {
        ExternalChain(c, t, chains, i);
      } else {
        InternalChain(c, t, chains, i);
      }
      WantedOnNumbered(c, i, r);
    } else {
      SurplusChain(c, t, chains, chain);
    }
  }

  /**
   * From any prior table: a second run with the same configuration changes nothing exactly when POSTROUTING held at
   * most one pre-1.3 rule before the first and, with external SNAT, no rule that has to go was there twice.
   */
  lemma SecondRunIff(c: SnatConfig, t: Table, chains: seq<string>, chains': seq<string>)
    requires Lists(chains, t) && Lists(chains', Synchronised(c, t, chains))
    ensures var t' := Synchronised(c, t, chains);
            Synchronised(c, t', chains') == t' <==>
            NoSurplus(c, t) && multiset(ChainOf(t, POSTROUTING))[OldSnatRule(c)] <= 1
  {
    var t' := Synchronised(c, t, chains);
    PostroutingCounts(c, t, chains);
    if NoSurplus(c, t) {
      RunSettles(c, t, chains);
      SettledIsFixedIff(c, t', chains');
      assert OldSnatRule(c) in ChainOf(t', POSTROUTING) <==> OldSnatRule(c) in multiset(ChainOf(t', POSTROUTING));
    } else {
      SurplusMoves(c, t, chains, chains');
    }
  }

  /** As long as there is a surplus, another run takes one more copy away. */
  lemma SurplusMoves(c: SnatConfig, t: Table, chains: seq<string>, chains': seq<string>)
    requires Lists(chains, t) && Lists(chains', Synchronised(c, t, chains)) && !NoSurplus(c, t)
    ensures Synchronised(c, Synchronised(c, t, chains), chains') != Synchronised(c, t, chains)
  {
    var t' := Synchronised(c, t, chains);
    if multiset(ChainOf(t, POSTROUTING))[JumpRule()] > 1 {
      PostroutingCounts(c, t, chains);
      PostroutingCounts(c, t', chains');
    } else {
      var i :| 0 <= i <= |AllCIDRs(c)| && Before(c, t, i) > 1;
      ExternalChain(c, t, chains, i);
      ExternalChain(c, t', chains', i);
      CopiesCount(ChainOf(t', ChainName(i)), RuleOf(c, i));
    }
  }

  /** Here is such a table: after a run with external SNAT the jump and the translation are still in force. */
  lemma DuplicatesSurvive() returns (c: SnatConfig, t: Table, chains: seq<string>)
    ensures Lists(chains, t) && c.useExternalSNAT
    ensures var t' := Synchronised(c, t, chains);
            JumpRule() in ChainOf(t', POSTROUTING) && ChainOf(t', ChainName(0)) == [SnatRule(c)]
  {
    c := SnatConfig(Cidr(0, 32), [], [], true, "10.0.0.1", SequentialSNAT, false);
    chains := [POSTROUTING, ChainName(0)];
    ChainNames(0, 0);
    t := map[POSTROUTING := [JumpRule(), JumpRule()], ChainName(0) := [SnatRule(c), SnatRule(c)]];
    assert Before(c, t, 0) == 2;
    ExternalChain(c, t, chains, 0);
    ExternalJumpGoneIff(c, t, chains);
  }

  // ----- POSTROUTING as a whole -----

  /** The jump, and the rule that versions before 1.3 left behind, written out. */
  predicate OwnRule(c: SnatConfig, r: Rule) {
    r == Rule([], "AWS SNAT CHAIN", Jump("AWS-SNAT-CHAIN-0"))
    || r == Rule([NotTo(c.vpcCIDR), NotLocal], "AWS, SNAT", SourceNat(c.primaryAddr, NoRandom))
  }

  lemma FirstChainName()
    ensures ChainName(0) == "AWS-SNAT-CHAIN-0"
  {
    assert Itoa(0) == "0";
  }

  lemma PostroutingIsJumps(c: SnatConfig, t: Table, chains: seq<string>)
    requires Lists(chains, t) && !c.useExternalSNAT && multiset(ChainOf(t, POSTROUTING))[OldSnatRule(c)] <= 1
    requires forall r | r in ChainOf(t, POSTROUTING) :: OwnRule(c, r)
    ensures exists n :: n > 0 && Copies(ChainOf(Synchronised(c, t, chains), POSTROUTING), JumpRule(), n)
  {
    var s := ChainOf(t, POSTROUTING);
    var jump, pre := Entry(true, POSTROUTING, JumpRule()), Entry(false, POSTROUTING, OldSnatRule(c));
    FirstChainName();
    Postrouting(c, t, chains);
    PostroutingCounts(c, t, chains);
    var after := ChainOf(Synchronised(c, t, chains), POSTROUTING);
    var n := multiset(after)[JumpRule()];
    forall r
      ensures multiset(after)[r] == if r == JumpRule() then n else 0
    {
      EntryCounts(s, jump, r);
      EntryCounts(ApplyToChain(s, jump), pre, r);
      assert r in multiset(s) <==> r in s;
    }
    OnlyCopies(after, JumpRule(), n);
  }

  /**
   * From a POSTROUTING chain that holds nothing but jumps and at most one pre-1.3 rule: after a run with internal SNAT
   * the whole chain translates a packet exactly when it is non-local and outside every VPC CIDR and excluded CIDR, with
   * the port randomisation that the configuration asks for and iptables can do.
   */
  lemma PostroutingMeaning(c: SnatConfig, t: Table, chains: seq<string>, p: Packet, fuel: nat)
    requires Lists(chains, t) && !c.useExternalSNAT && fuel > |AllCIDRs(c)|
    requires forall r | r in ChainOf(t, POSTROUTING) :: OwnRule(c, r)
    requires multiset(ChainOf(t, POSTROUTING))[Rule([NotTo(c.vpcCIDR), NotLocal], "AWS, SNAT", SourceNat(c.primaryAddr, NoRandom))] <= 1
    ensures var t' := Synchronised(c, t, chains);
            var random := if c.typeOfSNAT == SequentialSNAT then NoRandom
                          else if c.typeOfSNAT == RandomPRNGSNAT && c.hasRandomFully then RandomFully else Random;
            Eval(t', ChainOf(t', POSTROUTING), p, fuel) ==
            if !p.local && Outside(c, p) then Translated(c.primaryAddr, random) else FellThrough
  {
    var t' := Synchronised(c, t, chains);
    PostroutingIsJumps(c, t, chains);
    var n :| n > 0 && Copies(ChainOf(t', POSTROUTING), JumpRule(), n);
    CopiesEval(t', ChainOf(t', POSTROUTING), JumpRule(), n, p, fuel);
    InternalSnatMeaning(c, t, chains, p, fuel - 1);
    assert [JumpRule()][1..] == [] && AllMatch([], p);
  }
}
