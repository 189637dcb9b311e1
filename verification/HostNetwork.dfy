/** Setting up the host network: the part that builds the SNAT chains and brings iptables in line with them. */
module HostNetwork {
  import opened Cidrs
  import opened Snat
  import opened SnatMeaning

  datatype ChainError = NoError | ChainExists | OtherError

  /** The nat table behind the iptables command. Any call may fail, and then changes nothing. */
  class IpTables {
    var natTable: Table

    method Exists(chain: string, rule: Rule) returns (ok: bool, found: bool)
      ensures ok ==> (found <==> rule in ChainOf(natTable, chain))
    {
      if * { return false, false; }
      return true, rule in ChainOf(natTable, chain);
    }

    method Append(chain: string, rule: Rule) returns (ok: bool)
      modifies this
      ensures natTable == if ok then old(natTable)[chain := ChainOf(old(natTable), chain) + [rule]] else old(natTable)
    {
      if * { return false; }
      natTable := natTable[chain := ChainOf(natTable, chain) + [rule]];
      return true;
    }

    /** Deletes the first rule that equals `rule`; it is an error if there is none. */
    method Delete(chain: string, rule: Rule) returns (ok: bool)
      modifies this
      ensures ok ==> rule in ChainOf(old(natTable), chain)
      ensures natTable == if ok then old(natTable)[chain := DeleteFirst(ChainOf(old(natTable), chain), rule)] else old(natTable)
    {
      if * { return false; }
      if rule !in ChainOf(natTable, chain) { return false; }
      natTable := natTable[chain := DeleteFirst(ChainOf(natTable, chain), rule)];
      return true;
    }

    method List(chain: string) returns (ok: bool, rules: seq<Rule>)
      ensures ok ==> rules == ChainOf(natTable, chain)
    {
      if * { return false, []; }
      return true, ChainOf(natTable, chain);
    }

    method NewChain(chain: string) returns (err: ChainError)
      modifies this
      ensures err == NoError ==> chain !in old(natTable) && natTable == old(natTable)[chain := []]
      ensures err == ChainExists ==> chain in natTable
      ensures err != NoError ==> natTable == old(natTable)
    {
      if chain in natTable { return ChainExists; }
      if * { return OtherError; }
      natTable := natTable[chain := []];
      return NoError;
    }

    /** All chains, in no particular order. */
    method ListChains() returns (ok: bool, chains: seq<string>)
      ensures ok ==> Lists(chains, natTable)
    {
      if * { return false, []; }
      chains := [];
      var rest := natTable.Keys;
      while rest != {}
        invariant rest <= natTable.Keys && forall c :: c in chains <==> c in natTable && c !in rest
        invariant forall i, j | 0 <= i < j < |chains| :: chains[i] != chains[j]
      {
        var c :| c in rest;
        rest := rest - {c};
        chains := chains + [c];
      }
      ok := true;
    }
  }

  // ----- The loops as functions -----

  function CurrentOn(chain: string, rules: seq<Rule>): seq<Entry> {
    if rules == [] then [] else [Entry(false, chain, rules[0])] + CurrentOn(chain, rules[1..])
  }

  /** Every rule of every SNAT chain, as an entry to delete. */
  function Current(t: Table, chains: seq<string>): seq<Entry> {
    if chains == [] then []
    else (if IsSnatChain(chains[0]) then CurrentOn(chains[0], ChainOf(t, chains[0])) else []) + Current(t, chains[1..])
  }

  function Unwanted(c: SnatConfig, es: seq<Entry>): seq<Entry> {
    if es == [] then []
    else (if Wanted(Desired(c), es[0].chain, es[0].rule) then [] else [es[0]]) + Unwanted(c, es[1..])
  }

  lemma {:induction false} CurrentConcat(t: Table, a: seq<string>, b: seq<string>)
    ensures Current(t, a + b) == Current(t, a) + Current(t, b)
  {
    if a == [] {
      assert a + b == b;
    } else {
      CurrentConcat(t, a[1..], b);
      assert (a + b)[1..] == a[1..] + b;
    }
  }

  lemma {:induction false} UnwantedConcat(c: SnatConfig, a: seq<Entry>, b: seq<Entry>)
    ensures Unwanted(c, a + b) == Unwanted(c, a) + Unwanted(c, b)
  {
    if a == [] {
      assert a + b == b;
    } else {
      UnwantedConcat(c, a[1..], b);
      ConcatParts(a, b);
      AssocConcat(if Wanted(Desired(c), a[0].chain, a[0].rule) then [] else [a[0]], Unwanted(c, a[1..]), Unwanted(c, b));
    }
  }

  lemma {:induction false} UnwantedOn(c: SnatConfig, chain: string, rules: seq<Rule>)
    ensures Unwanted(c, CurrentOn(chain, rules)) == StaleOn(c, chain, rules)
  {
    if rules != [] {
      UnwantedOn(c, chain, rules[1..]);
      assert CurrentOn(chain, rules)[1..] == CurrentOn(chain, rules[1..]);
    }
  }

  /** Listing everything and dropping what is wanted leaves what is stale. */
  lemma {:induction false} UnwantedCurrent(c: SnatConfig, t: Table, chains: seq<string>)
    ensures Unwanted(c, Current(t, chains)) == Stale(c, t, chains)
  {
    if chains != [] {
      var head := if IsSnatChain(chains[0]) then CurrentOn(chains[0], ChainOf(t, chains[0])) else [];
      UnwantedOn(c, chains[0], ChainOf(t, chains[0]));
      UnwantedCurrent(c, t, chains[1..]);
      UnwantedConcat(c, head, Current(t, chains[1..]));
    }
  }

  lemma {:induction false} ApplyAllConcat(t: Table, a: seq<Entry>, b: seq<Entry>)
    ensures ApplyAll(t, a + b) == ApplyAll(ApplyAll(t, a), b)
    decreases |a|
  {
    if a == [] {
      assert a + b == b;
    } else {
      ConcatParts(a, b);
      ApplyAllConcat(Apply(t, a[0]), a[1..], b);
    }
  }

  lemma ApplyNext(t: Table, es: seq<Entry>, i: nat)
    requires i < |es|
    ensures ApplyAll(t, es[..i + 1]) == Apply(ApplyAll(t, es[..i]), es[i])
  {
    assert es[..i + 1] == es[..i] + [es[i]];
    ApplyAllConcat(t, es[..i], [es[i]]);
    assert [es[i]][1..] == [];
  }

  lemma NewChainsKeep(t: Table, t': Table, n: nat)
    requires exists i: nat :: i <= n && t' == WithChains(t, i)
    ensures forall chain :: ChainOf(t', chain) == ChainOf(t, chain)
  {
    var i: nat :| i <= n && t' == WithChains(t, i);
    forall chain
      ensures ChainOf(t', chain) == ChainOf(t, chain)
    {
      WithChainsKeeps(t, i, chain);
    }
  }

  /** Even a run that breaks off leaves chains alone that are neither SNAT chains nor POSTROUTING. */
  lemma EntriesKeep(c: SnatConfig, t: Table, chains: seq<string>, t1: Table, t': Table)
    requires Lists(chains, t)
    requires exists i :: 0 <= i <= |Entries(c, t, chains)| && t' == ApplyAll(t1, Entries(c, t, chains)[..i])
    ensures forall chain | !IsSnatChain(chain) && chain != POSTROUTING :: ChainOf(t', chain) == ChainOf(t1, chain)
  {
    var es := Entries(c, t, chains);
    var i :| 0 <= i <= |es| && t' == ApplyAll(t1, es[..i]);
    forall chain | !IsSnatChain(chain) && chain != POSTROUTING
      ensures ChainOf(t', chain) == ChainOf(t1, chain)
    {
      NoEntries(c, t, chains, chain);
      PrefixKeeps(t1, es, i, chain);
    }
  }

  lemma PrefixKeeps(t: Table, es: seq<Entry>, i: nat, chain: string)
    requires i <= |es| && OnChain(es, chain) == []
    ensures ChainOf(ApplyAll(t, es[..i]), chain) == ChainOf(t, chain)
  {
    assert es == es[..i] + es[i..];
    OnChainConcat(es[..i], es[i..], chain);
    Projection(t, es[..i], chain);
  }

  lemma EntryAt(c: SnatConfig, i: nat)
    requires i <= |AllCIDRs(c)|
    ensures |Desired(c)| == |AllCIDRs(c)| + 2
    ensures Desired(c)[..i + 2] == Desired(c)[..i + 1] + [EntryOf(c, i)]
  {
    assert Desired(c)[i + 1] == ChainEntries(c, 0)[i];
  }

  lemma EveryPacket(c: SnatConfig, t: Table, chains: seq<string>)
    requires Lists(chains, t) && !c.useExternalSNAT
    ensures var t' := Synchronised(c, t, chains);
            forall p, fuel: nat | fuel >= |AllCIDRs(c)| ::
              Eval(t', ChainOf(t', ChainName(0)), p, fuel) ==
              if !p.local && Outside(c, p) then Translated(c.primaryAddr, RandomFlag(c)) else FellThrough
  {
    var t' := Synchronised(c, t, chains);
    forall p, fuel: nat | fuel >= |AllCIDRs(c)|
      ensures Eval(t', ChainOf(t', ChainName(0)), p, fuel) ==
              if !p.local && Outside(c, p) then Translated(c.primaryAddr, RandomFlag(c)) else FellThrough
    {
      InternalSnatMeaning(c, t, chains, p, fuel);
    }
  }

  class LinuxNetwork {
    const config: SnatConfig
    const ipt: IpTables

    constructor (config: SnatConfig, ipt: IpTables)
      ensures this.config == config && this.ipt == ipt
    {
      this.config, this.ipt := config, ipt;
    }

    method BuildCIDRs() returns (all: seq<SnatCidr>)
      ensures all == AllCIDRs(config)
    {
      all := [];
      for i := 0 to |config.vpcCIDRs|
        invariant all == AllCIDRs(config)[..i]
      {
        all := all + [SnatCidr(config.vpcCIDRs[i], false)];
      }
      for i := 0 to |config.excludeSNATCIDRs|
        invariant all == AllCIDRs(config)[..|config.vpcCIDRs| + i]
      {
        all := all + [SnatCidr(config.excludeSNATCIDRs[i], true)];
      }
    }

    method ListCurrentSNATRules() returns (ok: bool, toClear: seq<Entry>, ghost order: seq<string>)
      ensures ok ==> Lists(order, ipt.natTable) && toClear == Current(ipt.natTable, order)
    {
      var listed, chains := ipt.ListChains();
      ok, toClear, order := listed, [], chains;
      if !listed { return; }
      for i := 0 to |chains|
        invariant ok && toClear == Current(ipt.natTable, chains[..i])
      {
        assert chains[..i + 1] == chains[..i] + [chains[i]];
        CurrentConcat(ipt.natTable, chains[..i], [chains[i]]);
        assert [chains[i]][1..] == [];
        if !IsSnatChain(chains[i]) { continue; }
        var got, rules := ipt.List(chains[i]);
        if !got { ok := false; return; }
        var found := ClearList(chains[i], rules);
        toClear := toClear + found;
      }
      assert chains[..|chains|] == chains;
    }

    method ClearList(chain: string, rules: seq<Rule>) returns (found: seq<Entry>)
      ensures found == CurrentOn(chain, rules)
    {
      found := [];
      for i := 0 to |rules|
        invariant found + CurrentOn(chain, rules[i..]) == CurrentOn(chain, rules)
      {
        assert rules[i..][1..] == rules[i + 1..];
        found := found + [Entry(false, chain, rules[i])];
      }
    }

    method NewChains(n: nat) returns (ok: bool)
      modifies ipt
      ensures ok ==> ipt.natTable == WithChains(old(ipt.natTable), n)
      ensures exists i: nat :: i <= n && ipt.natTable == WithChains(old(ipt.natTable), i)
    {
      ok := true;
      for i := 0 to n
        invariant ok && ipt.natTable == WithChains(old(ipt.natTable), i)
      {
        var err := ipt.NewChain(ChainName(i));
        if err == OtherError { return false; }
      }
    }

    /** The jump, one rule per CIDR, and the SNAT rule on the last chain. */
    method BuildRules(all: seq<SnatCidr>) returns (rules: seq<Entry>)
      requires all == AllCIDRs(config)
      ensures rules == Desired(config)
    {
      rules := [Entry(!config.useExternalSNAT, POSTROUTING, JumpRule())];
      for i := 0 to |all|
        invariant |rules| == i + 1 <= |Desired(config)| && rules == Desired(config)[..i + 1]
      {
        EntryAt(config, i);
        rules := rules + [Entry(!config.useExternalSNAT, ChainName(i), CidrRule(all[i], i))];
      }
      EntryAt(config, |all|);
      rules := rules + [Entry(!config.useExternalSNAT, ChainName(|all|), SnatRule(config))];
    }

    method IsActive(stale: Entry, rules: seq<Entry>) returns (keep: bool)
      ensures keep <==> Wanted(rules, stale.chain, stale.rule)
    {
      for j := 0 to |rules|
        invariant Wanted(rules, stale.chain, stale.rule) == Wanted(rules[j..], stale.chain, stale.rule)
      {
        assert rules[j..][1..] == rules[j + 1..];
        if stale.chain == rules[j].chain && rules[j].rule == stale.rule {
          return true;
        }
      }
      return false;
    }

    /** Keep of the current rules those that no new rule on the same chain equals. */
    method SelectStale(current: seq<Entry>, rules: seq<Entry>) returns (stale: seq<Entry>)
      requires rules == Desired(config)
      ensures stale == Unwanted(config, current)
    {
      stale := [];
      for i := 0 to |current|
        invariant stale == Unwanted(config, current[..i])
      {
        assert current[..i + 1] == current[..i] + [current[i]];
        UnwantedConcat(config, current[..i], [current[i]]);
        assert [current[i]][1..] == [];
        var keep := IsActive(current[i], rules);
        if !keep {
          stale := stale + [current[i]];
        }
      }
      assert current[..|current|] == current;
    }

    method ApplyRules(es: seq<Entry>) returns (ok: bool)
      modifies ipt
      ensures ok ==> ipt.natTable == ApplyAll(old(ipt.natTable), es)
      ensures exists i :: 0 <= i <= |es| && ipt.natTable == ApplyAll(old(ipt.natTable), es[..i])
    {
      for i := 0 to |es|
        invariant ipt.natTable == ApplyAll(old(ipt.natTable), es[..i])
      {
        ApplyNext(old(ipt.natTable), es, i);
        var e := es[i];
        var checked, found := ipt.Exists(e.chain, e.rule);
        if !checked { return false; }
        if !found && e.shouldExist {
          var done := ipt.Append(e.chain, e.rule);
          if !done { return false; }
        } else if found && !e.shouldExist {
          var done := ipt.Delete(e.chain, e.rule);
          if !done { return false; }
        }
      }
      assert es[..|es|] == es;
      return true;
    }

    /**
     * The SNAT part of the host set-up. If no call fails, the table is the synchronised one; with internal SNAT the
     * first chain then translates exactly the non-local packets outside all VPC and excluded CIDRs. Whatever fails,
     * unrelated chains keep their rules.
     */
    method SetupHostNetwork() returns (ok: bool)
      modifies ipt
      ensures ok ==> exists chains :: Lists(chains, old(ipt.natTable)) && ipt.natTable == Synchronised(config, old(ipt.natTable), chains)
      ensures ok && !config.useExternalSNAT ==>
                forall p, fuel: nat | fuel >= |AllCIDRs(config)| ::
                  Eval(ipt.natTable, ChainOf(ipt.natTable, ChainName(0)), p, fuel) ==
                  if !p.local && Outside(config, p) then Translated(config.primaryAddr, RandomFlag(config)) else FellThrough
      ensures forall chain | !IsSnatChain(chain) && chain != POSTROUTING ::
                ChainOf(ipt.natTable, chain) == ChainOf(old(ipt.natTable), chain)
    {
      var all := BuildCIDRs();
      var listed, current, chains := ListCurrentSNATRules();
      if !listed { return false; }
      ghost var t := ipt.natTable;
      var made := NewChains(|all| + 1);
      NewChainsKeep(t, ipt.natTable, |all| + 1);
      if !made { return false; }
      var rules := BuildRules(all);
      var stale := SelectStale(current, rules);
      UnwantedCurrent(config, t, chains);
      rules := rules + stale;
      rules := rules + [Entry(false, POSTROUTING, OldSnatRule(config))];
      ghost var t1 := ipt.natTable;
      assert rules == Entries(config, t, chains);
      ok := ApplyRules(rules);
      EntriesKeep(config, t, chains, t1, ipt.natTable);
      if ok {
        assert ipt.natTable == Synchronised(config, t, chains);
        if !config.useExternalSNAT {
          EveryPacket(config, t, chains);
        }
      }
    }
  }
}
