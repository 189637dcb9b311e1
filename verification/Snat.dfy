/**
 * The SNAT chains of the host: a list of CIDRs is compiled into linked iptables chains and synchronised against
 * whatever the nat table held before. The chains are given a meaning by evaluating them on a packet.
 */
module Snat {

  import opened Cidrs

  // ----- Packets -----

  /** `local` is the address type LOCAL of the destination. */
  datatype Packet = Packet(dst: nat, local: bool)

  // ----- Rules and tables -----

  datatype Randomization = NoRandom | Random | RandomFully

  datatype Match = NotTo(cidr: Cidr) | NotLocal

  datatype Target = Jump(chain: string) | SourceNat(source: string, random: Randomization)

  /** A rule of a shape this program writes, or any other rule. */
  datatype Rule = Rule(matches: seq<Match>, comment: string, target: Target) | Foreign(spec: seq<string>)

  type Table = map<string, seq<Rule>>

  function ChainOf(t: Table, c: string): seq<Rule> {
    if c in t then t[c] else []
  }

  predicate Matches(m: Match, p: Packet) {
    match m
    case NotTo(cidr) => !Contains(cidr, p.dst)
    case NotLocal => !p.local
  }

  predicate AllMatch(ms: seq<Match>, p: Packet) {
    forall i | 0 <= i < |ms| :: Matches(ms[i], p)
  }

  datatype Verdict = Translated(source: string, random: Randomization) | FellThrough | Unknown | OutOfFuel

  /** Walk a chain; a jump that falls through comes back to the next rule. `fuel` bounds the depth of jumps. */
  function Eval(t: Table, rules: seq<Rule>, p: Packet, fuel: nat): Verdict
    decreases fuel, |rules|
  {
    if rules == [] then FellThrough
    else if rules[0].Foreign? then Unknown
    else if !AllMatch(rules[0].matches, p) then Eval(t, rules[1..], p, fuel)
    else match rules[0].target
      case SourceNat(source, random) => Translated(source, random)
      case Jump(chain) =>
        if fuel == 0 then OutOfFuel
        else
          var v := Eval(t, ChainOf(t, chain), p, fuel - 1);
          if v.FellThrough? then Eval(t, rules[1..], p, fuel) else v
  }

  // ----- Chain names -----

  function Digit(n: nat): char
    requires n < 10
  {
    '0' + n as char
  }

  function Itoa(n: nat): string {
    if n < 10 then [Digit(n)] else Itoa(n / 10) + [Digit(n % 10)]
  }

  function Atoi(s: string): int {
    if s == [] then 0 else 10 * Atoi(s[..|s| - 1]) + (s[|s| - 1] as int - '0' as int)
  }

  lemma {:induction false} AtoiItoa(n: nat)
    ensures Atoi(Itoa(n)) == n
  {
    var s := Itoa(n);
    if n < 10 {
      assert s[..|s| - 1] == [];
      assert Atoi([]) == 0;
    } else {
      AtoiItoa(n / 10);
      assert s[..|s| - 1] == Itoa(n / 10);
    }
  }

  const PREFIX := "AWS-SNAT-CHAIN"
  const POSTROUTING := "POSTROUTING"

  function ChainName(i: nat): string {
    "AWS-SNAT-CHAIN-" + Itoa(i)
  }

  predicate IsSnatChain(c: string) {
    PREFIX <= c
  }

  lemma ChainNames(i: nat, j: nat)
    ensures ChainName(i) == ChainName(j) ==> i == j
    ensures IsSnatChain(ChainName(i)) && !IsSnatChain(POSTROUTING)
  {
    assert ChainName(i)[|"AWS-SNAT-CHAIN-"|..] == Itoa(i);
    assert ChainName(j)[|"AWS-SNAT-CHAIN-"|..] == Itoa(j);
    AtoiItoa(i);
    AtoiItoa(j);
    assert POSTROUTING[0] != PREFIX[0];
  }

  // ----- What should be there -----

  datatype SnatType = SequentialSNAT | RandomHashSNAT | RandomPRNGSNAT

  datatype SnatConfig = SnatConfig(
    vpcCIDR: Cidr,
    vpcCIDRs: seq<Cidr>,
    excludeSNATCIDRs: seq<Cidr>,
    useExternalSNAT: bool,
    primaryAddr: string,
    typeOfSNAT: SnatType,
    hasRandomFully: bool)

  datatype SnatCidr = SnatCidr(cidr: Cidr, isExclusion: bool)

  datatype Entry = Entry(shouldExist: bool, chain: string, rule: Rule)

  function AllCIDRs(c: SnatConfig): seq<SnatCidr> {
    seq(|c.vpcCIDRs| + |c.excludeSNATCIDRs|, i requires 0 <= i < |c.vpcCIDRs| + |c.excludeSNATCIDRs| =>
      if i < |c.vpcCIDRs| then SnatCidr(c.vpcCIDRs[i], false)
      else SnatCidr(c.excludeSNATCIDRs[i - |c.vpcCIDRs|], true))
  }

  function JumpRule(): Rule {
    Rule([], "AWS SNAT CHAIN", Jump(ChainName(0)))
  }

  function CidrRule(x: SnatCidr, i: nat): Rule {
    Rule([NotTo(x.cidr)], if x.isExclusion then "AWS SNAT CHAIN EXCLUSION" else "AWS SNAT CHAIN", Jump(ChainName(i + 1)))
  }

  function RandomFlag(c: SnatConfig): Randomization {
    match c.typeOfSNAT
    case SequentialSNAT => NoRandom
    case RandomHashSNAT => Random
    case RandomPRNGSNAT => if c.hasRandomFully then RandomFully else Random
  }

  function SnatRule(c: SnatConfig): Rule {
    Rule([NotLocal], "AWS, SNAT", SourceNat(c.primaryAddr, RandomFlag(c)))
  }

  /** The rule that versions before 1.3 left in POSTROUTING. */
  function OldSnatRule(c: SnatConfig): Rule {
    Rule([NotTo(c.vpcCIDR), NotLocal], "AWS, SNAT", SourceNat(c.primaryAddr, NoRandom))
  }

  /** The one rule that belongs on chain number `i`. */
  function RuleOf(c: SnatConfig, i: nat): Rule
    requires i <= |AllCIDRs(c)|
  {
    if i < |AllCIDRs(c)| then CidrRule(AllCIDRs(c)[i], i) else SnatRule(c)
  }

  function EntryOf(c: SnatConfig, i: nat): Entry
    requires i <= |AllCIDRs(c)|
  {
    Entry(!c.useExternalSNAT, ChainName(i), RuleOf(c, i))
  }

  /** The entries for chains `k` onwards. */
  function ChainEntries(c: SnatConfig, k: nat): seq<Entry>
    requires k <= |AllCIDRs(c)| + 1
  {
    seq(|AllCIDRs(c)| + 1 - k, j requires 0 <= j < |AllCIDRs(c)| + 1 - k => EntryOf(c, k + j))
  }

  function Desired(c: SnatConfig): seq<Entry> {
    [Entry(!c.useExternalSNAT, POSTROUTING, JumpRule())] + ChainEntries(c, 0)
  }

  // ----- Synchronising -----

  function WithChains(t: Table, n: nat): Table {
    if n == 0 then t
    else
      var u := WithChains(t, n - 1);
      if ChainName(n - 1) in u then u else u[ChainName(n - 1) := []]
  }

  function DeleteFirst(s: seq<Rule>, r: Rule): seq<Rule> {
    if s == [] then [] else if s[0] == r then s[1..] else [s[0]] + DeleteFirst(s[1..], r)
  }

  function ApplyToChain(s: seq<Rule>, e: Entry): seq<Rule> {
    if e.shouldExist then (if e.rule in s then s else s + [e.rule])
    else if e.rule in s then DeleteFirst(s, e.rule)
    else s
  }

  function Apply(t: Table, e: Entry): Table {
    if (e.rule in ChainOf(t, e.chain)) == e.shouldExist then t
    else t[e.chain := ApplyToChain(ChainOf(t, e.chain), e)]
  }

  function ApplyAll(t: Table, es: seq<Entry>): Table
    decreases |es|
  {
    if es == [] then t else ApplyAll(Apply(t, es[0]), es[1..])
  }

  predicate Wanted(es: seq<Entry>, chain: string, r: Rule) {
    es != [] && ((es[0].chain == chain && es[0].rule == r) || Wanted(es[1..], chain, r))
  }

  /** What a chain holds that is not wanted there, in order, to be deleted. */
  function StaleOn(c: SnatConfig, chain: string, rules: seq<Rule>): seq<Entry> {
    if rules == [] then []
    else (if Wanted(Desired(c), chain, rules[0]) then [] else [Entry(false, chain, rules[0])])
         + StaleOn(c, chain, rules[1..])
  }

  /** The stale rules of all SNAT chains, in the order in which the chains are listed. */
  function Stale(c: SnatConfig, t: Table, chains: seq<string>): seq<Entry> {
    if chains == [] then []
    else (if IsSnatChain(chains[0]) then StaleOn(c, chains[0], ChainOf(t, chains[0])) else [])
         + Stale(c, t, chains[1..])
  }

  /** `chains` lists every chain of the table once. */
  ghost predicate Lists(chains: seq<string>, t: Table) {
    (forall c :: c in chains <==> c in t)
    && forall i, j | 0 <= i < j < |chains| :: chains[i] != chains[j]
  }

  function Entries(c: SnatConfig, t: Table, chains: seq<string>): seq<Entry> {
    Desired(c) + Stale(c, t, chains) + [Entry(false, POSTROUTING, OldSnatRule(c))]
  }

  /** The table that a complete run leaves behind. */
  function Synchronised(c: SnatConfig, t: Table, chains: seq<string>): Table {
    ApplyAll(WithChains(t, |AllCIDRs(c)| + 1), Entries(c, t, chains))
  }
}
