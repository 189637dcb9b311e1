/**
 * The whole node: the daemon's steps interleaved with the plug-in wiring pods up and tearing them down. A CNI add is
 * an AddNetwork step and later a set-up, which may break off and is then followed by a compensating release; a CNI del
 * is an Unassign step and later a tear-down, which may break off as well. Any number of adds and dels are under way at
 * once, and nothing is assumed about how long they take.
 */
module Node {
  import opened Types
  import AS = AddressStore
  import D = Daemon
  import opened PolicyRules
  import opened Leftovers

  /** What the plug-in was told by the daemon. */
  datatype Grant = Grant(key: AS.PodKey, ip: IP, table: int)

  /** What set-up did for a pod. */
  datatype Wiring = Wiring(table: int, cidrs: seq<Option<Net>>, external: bool)

  /**
   * `adding`, `undoing` and `deleting` are the plug-in's unfinished calls. `wired` and `residue` are history: the
   * addresses that were set up and not torn down since, and those whose rules may have been left half-way, by a
   * set-up or tear-down that broke off or by what was there before the start. An address leaves `residue` with a
   * set-up that absorbs what was left, or a tear-down that clears it.
   */
  datatype State = State(
    daemon: D.State,
    rules: seq<IpRule>,
    routes: map<Net, int>,
    adding: set<Grant>,
    undoing: set<Grant>,
    deleting: set<Grant>,
    wired: map<IP, Wiring>,
    residue: set<IP>)

  datatype Step =
    | Daemon(step: D.Step)
    | SetupPod(grant: Grant, link: int, cidrs: seq<Option<Net>>, external: bool)
    | SetupFails(grant: Grant, link: int, cidrs: seq<Option<Net>>, external: bool, routed: bool)
    | Undo(grant: Grant, reply: AS.Reply)
    | TeardownPod(grant: Grant)
    | TeardownFails(grant: Grant, routed: bool)

  ghost predicate AllTidy(rules: seq<IpRule>) {
    forall ip :: Tidy(rules, ip)
  }

  /** The daemon starts afresh; the kernel may hold rules of pods from before. */
  ghost predicate Init(n: State) {
    && D.Init(n.daemon) && n.adding == n.undoing == n.deleting == {} && n.wired == map[]
    && AllTidy(n.rules) && forall ip | ip !in n.residue :: Mine(n.rules, ip) == []
  }

  function Given(k: AS.PodKey, r: AS.Reply): Grant
    requires r.Granted?
  {
    Grant(k, r.ip, r.deviceNumber)
  }

  function Adding(n: State, step: D.Step): set<Grant> {
    if step.AddNetwork? && step.reply.Granted? then n.adding + {Given(step.key, step.reply)} else n.adding
  }

  function Deleting(n: State, step: D.Step): set<Grant> {
    if step.Unassign? && step.reply.Granted? then n.deleting + {Given(step.key, step.reply)} else n.deleting
  }

  function Residue(residue: set<IP>, ip: IP, clean: bool): set<IP> {
    if clean then residue - {ip} else residue + {ip}
  }

  ghost predicate Next(n: State, step: Step, n': State) {
    match step
    case Daemon(s) =>
      D.Next(n.daemon, s, n'.daemon)
      && n' == n.(daemon := n'.daemon, adding := Adding(n, s), deleting := Deleting(n, s))
    case SetupPod(g, link, cidrs, external) =>
      g in n.adding && SetupSucceeds(n.rules, g.ip, g.table, external)
      && n' == n.(rules := SetupRules(n.rules, g.ip, g.table, cidrs, external),
                  routes := n.routes[Host(g.ip) := link],
                  adding := n.adding - {g},
                  wired := n.wired[g.ip := Wiring(g.table, cidrs, external)],
                  residue := Residue(n.residue, g.ip, Absorbed(Mine(n.rules, g.ip), g.ip, g.table, cidrs, external)))
    case SetupFails(g, link, cidrs, external, routed) =>
      g in n.adding && SetupStage(n.rules, n'.rules, g.ip, g.table, cidrs, external)
      && n' == n.(rules := n'.rules,
                  routes := if routed then n.routes[Host(g.ip) := link] else n.routes,
                  adding := n.adding - {g}, undoing := n.undoing + {g},
                  wired := n.wired - {g.ip}, residue := n.residue + {g.ip})
    case Undo(g, r) =>
      g in n.undoing && D.Next(n.daemon, D.Unassign(g.key, r), n'.daemon)
      && n' == n.(daemon := n'.daemon, undoing := n.undoing - {g})
    case TeardownPod(g) =>
      g in n.deleting
      && n' == n.(rules := TeardownRules(n.rules, g.ip, g.table),
                  routes := n.routes - {Host(g.ip)},
                  deleting := n.deleting - {g}, wired := n.wired - {g.ip},
                  residue := Residue(n.residue, g.ip, Clears(Mine(n.rules, g.ip), g.ip, g.table)))
    case TeardownFails(g, routed) =>
      g in n.deleting && TeardownStage(n.rules, n'.rules, g.ip, g.table)
      && n' == n.(rules := n'.rules,
                  routes := if routed then n.routes else n.routes - {Host(g.ip)},
                  deleting := n.deleting - {g}, wired := n.wired - {g.ip}, residue := n.residue + {g.ip})
  }

  ghost predicate Run(ns: seq<State>, steps: seq<Step>) {
    |ns| == |steps| + 1 && Init(ns[0]) && forall i | 0 <= i < |steps| :: Next(ns[i], steps[i], ns[i + 1])
  }

  // ----- What every step keeps -----

  ghost predicate Inv(n: State) {
    D.Safe(n.daemon) && AllTidy(n.rules)
  }

  /** The plug-in works on the rules and the route of this address. */
  predicate Touches(step: Step, ip: IP) {
    (step.SetupPod? || step.SetupFails? || step.TeardownPod? || step.TeardownFails?) && step.grant.ip == ip
  }

  /** The step belongs to this pod's own adds and dels. */
  predicate Concerns(step: Step, k: AS.PodKey) {
    match step
    case Daemon(s) => (s.AddNetwork? || s.Unassign?) && s.key == k
    case SetupPod(g, _, _, _) => g.key == k
    case SetupFails(g, _, _, _, _) => g.key == k
    case Undo(g, _) => g.key == k
    case TeardownPod(g) => g.key == k
    case TeardownFails(g, _) => g.key == k
  }

  function RouteOf(n: State, ip: IP): Option<int> {
    if Host(ip) in n.routes then Some(n.routes[Host(ip)]) else None
  }

  lemma KernelStep(n: State, step: Step, n': State)
    requires AllTidy(n.rules) && Next(n, step, n') && !step.Daemon? && !step.Undo?
    ensures Contained(n.rules, n'.rules, step.grant.ip)
  {
    match step
    case SetupPod(g, link, cidrs, external) =>
      SetupIsStage(n.rules, g.ip, g.table, cidrs, external);
      SetupStageContained(n.rules, n'.rules, g.ip, g.table, cidrs, external);
    case SetupFails(g, link, cidrs, external, _) =>
      SetupStageContained(n.rules, n'.rules, g.ip, g.table, cidrs, external);
    case TeardownPod(g) =>
      TeardownIsStage(n.rules, g.ip, g.table);
      assert Tidy(n.rules, g.ip);
      TeardownStageContained(n.rules, n'.rules, g.ip, g.table);
    case TeardownFails(g, _) =>
      assert Tidy(n.rules, g.ip);
      TeardownStageContained(n.rules, n'.rules, g.ip, g.table);
  }

  lemma ContainedTidy(before: seq<IpRule>, after: seq<IpRule>, ip: IP)
    requires AllTidy(before) && Contained(before, after, ip)
    ensures AllTidy(after) && forall i | i != ip :: Mine(after, i) == Mine(before, i)
  {
    forall i
      ensures Tidy(after, i) && (i != ip ==> Mine(after, i) == Mine(before, i))
    {
      assert Tidy(before, i);
    }
  }

  /** The daemon's part of a step. */
  predicate DaemonPart(step: Step) {
    step.Daemon? || step.Undo?
  }

  function DaemonStep(step: Step): D.Step
    requires DaemonPart(step)
  {
    if step.Daemon? then step.step else D.Unassign(step.grant.key, step.reply)
  }

  lemma DaemonNext(n: State, step: Step, n': State)
    requires Next(n, step, n')
    ensures if DaemonPart(step) then D.Next(n.daemon, DaemonStep(step), n'.daemon) && n'.rules == n.rules && n'.routes == n.routes
            else n'.daemon == n.daemon
  {
  }

  lemma InvStep(n: State, step: Step, n': State)
    requires Inv(n) && Next(n, step, n')
    ensures Inv(n')
  {
    DaemonNext(n, step, n');
    if DaemonPart(step) {
      D.SafeStep(n.daemon, DaemonStep(step), n'.daemon);
    } else {
      KernelStep(n, step, n');
      ContainedTidy(n.rules, n'.rules, step.grant.ip);
    }
  }

  lemma {:induction false} RunInv(ns: seq<State>, steps: seq<Step>, i: nat)
    requires Run(ns, steps) && i < |ns|
    ensures Inv(ns[i])
  {
    if i > 0 {
      RunInv(ns, steps, i - 1);
      InvStep(ns[i - 1], steps[i - 1], ns[i]);
    } else {
      InitInv(ns[0]);
    }
  }

  lemma InitInv(n: State)
    requires Init(n)
    ensures Inv(n)
  {
    AS.EmptySound();
  }

  /** An address' rules and route change only by plug-in steps on that address. */
  lemma UntouchedStep(n: State, step: Step, n': State, ip: IP)
    requires AllTidy(n.rules) && Next(n, step, n') && !Touches(step, ip)
    ensures Mine(n'.rules, ip) == Mine(n.rules, ip) && RouteOf(n', ip) == RouteOf(n, ip)
  {
    DaemonNext(n, step, n');
    if !DaemonPart(step) {
      KernelStep(n, step, n');
      ContainedTidy(n.rules, n'.rules, step.grant.ip);
    }
  }

  /** Over every run: while no plug-in call works on an address, its rules and route stay as they are. */
  lemma {:induction false} UntouchedRun(ns: seq<State>, steps: seq<Step>, ip: IP, i: nat, j: nat)
    requires Run(ns, steps) && i <= j < |ns| && forall m | i <= m < j :: !Touches(steps[m], ip)
    ensures Mine(ns[j].rules, ip) == Mine(ns[i].rules, ip) && RouteOf(ns[j], ip) == RouteOf(ns[i], ip)
    decreases j - i
  {
    if i < j {
      UntouchedRun(ns, steps, ip, i, j - 1);
      RunInv(ns, steps, j - 1);
      UntouchedStep(ns[j - 1], steps[j - 1], ns[j], ip);
    }
  }

  // ----- What the daemon remembers of a pod -----

  predicate HoldsGrant(n: State, g: Grant) {
    g.key in n.daemon.store.pods && n.daemon.store.pods[g.key] == AS.PodIP(g.ip, g.table)
  }

  lemma HoldingStep(n: State, step: Step, n': State, g: Grant)
    requires Inv(n) && Next(n, step, n') && HoldsGrant(n, g) && (DaemonPart(step) ==> !Concerns(step, g.key))
    ensures HoldsGrant(n', g)
  {
    DaemonNext(n, step, n');
    if DaemonPart(step) {
      D.HoldingStep(n.daemon, DaemonStep(step), n'.daemon, g.key);
    }
  }

  lemma {:induction false} HoldingRun(ns: seq<State>, steps: seq<Step>, g: Grant, i: nat, j: nat)
    requires Run(ns, steps) && i <= j < |ns| && HoldsGrant(ns[i], g)
    requires forall m | i <= m < j && DaemonPart(steps[m]) :: !Concerns(steps[m], g.key)
    ensures HoldsGrant(ns[j], g)
    decreases j - i
  {
    if i < j {
      HoldingRun(ns, steps, g, i, j - 1);
      RunInv(ns, steps, j - 1);
      HoldingStep(ns[j - 1], steps[j - 1], ns[j], g);
    }
  }

  predicate IsGrant(step: Step, k: AS.PodKey) {
    step.Daemon? && step.step.AddNetwork? && step.step.key == k && step.step.reply.Granted?
  }

  predicate IsRelease(step: Step, k: AS.PodKey) {
    step.Daemon? && step.step.Unassign? && step.step.key == k
  }

  lemma GrantedPod(n: State, step: Step, n': State, k: AS.PodKey)
    requires Inv(n) && Next(n, step, n') && IsGrant(step, k)
    ensures HoldsGrant(n', Given(k, step.step.reply)) && k !in n.daemon.store.pods
    ensures !AS.HasPod(n.daemon.store, step.step.reply.ip)
    ensures n'.daemon.store.pods == n.daemon.store.pods[k := AS.PodIP(step.step.reply.ip, step.step.reply.deviceNumber)]
  {
    AS.AssignPodSound(n.daemon.store, k, n.daemon.now, n'.daemon.store, step.step.reply);
  }

  lemma ReleasedPod(n: State, step: Step, n': State, k: AS.PodKey)
    requires Inv(n) && Next(n, step, n') && IsRelease(step, k)
    ensures n'.daemon.store.pods == n.daemon.store.pods - {k}
    ensures k in n.daemon.store.pods ==>
              var pod := n.daemon.store.pods[k];
              step.step.reply == AS.Granted(pod.ip, pod.deviceNumber) && !AS.HasPod(n'.daemon.store, pod.ip)
    ensures k !in n.daemon.store.pods ==> step.step.reply.Refused?
  {
    AS.UnassignPodSound(n.daemon.store, k, n.daemon.now, n'.daemon.store, step.step.reply);
  }

  // ----- Add, then del -----

  /** A pod's add at `a` and `b`, and its del at `c` and `e`. */
  predicate AddAndDel(steps: seq<Step>, k: AS.PodKey, a: nat, b: nat, c: nat, e: nat) {
    a < b < c < e < |steps|
    && IsGrant(steps[a], k)
    && steps[b].SetupPod? && steps[b].grant == Given(k, steps[a].step.reply)
    && IsRelease(steps[c], k)
    && steps[e].TeardownPod? && (steps[c].step.reply.Granted? ==> steps[e].grant == Given(k, steps[c].step.reply))
  }

  lemma ReleaseReturnsGrant(ns: seq<State>, steps: seq<Step>, k: AS.PodKey, a: nat, b: nat, c: nat, e: nat)
    requires Run(ns, steps) && AddAndDel(steps, k, a, b, c, e)
    requires forall m | a < m < c && m != b :: !Concerns(steps[m], k)
    ensures steps[c].step.reply == steps[a].step.reply && steps[e].grant == Given(k, steps[a].step.reply)
  {
    var g := Given(k, steps[a].step.reply);
    RunInv(ns, steps, a);
    GrantedPod(ns[a], steps[a], ns[a + 1], k);
    HoldingRun(ns, steps, g, a + 1, c);
    RunInv(ns, steps, c);
    ReleasedPod(ns[c], steps[c], ns[c + 1], k);
  }

  /** What a set-up and a tear-down do to the rules of their pod, and that they do nothing else. */
  lemma SetupEffect(n: State, step: Step, n': State)
    requires Next(n, step, n') && step.SetupPod?
    ensures var g := step.grant;
            && Mine(n'.rules, g.ip) == SetupRules(Mine(n.rules, g.ip), g.ip, g.table, step.cidrs, step.external)
            && Others(n'.rules, g.ip) == Others(n.rules, g.ip) && RouteOf(n', g.ip) == Some(step.link)
            && (Mine(n.rules, g.ip) == [] ==> Mine(n'.rules, g.ip) == Installed(g.ip, g.table, step.cidrs, step.external))
            && (Absorbed(Mine(n.rules, g.ip), g.ip, g.table, step.cidrs, step.external) ==>
                  SameRules(Mine(n'.rules, g.ip), Installed(g.ip, g.table, step.cidrs, step.external)))
  {
    var g := step.grant;
    SetupActsOnMine(n.rules, g.ip, g.table, step.cidrs, step.external);
    SetupInstallsIff(n.rules, g.ip, g.table, step.cidrs, step.external);
    if Mine(n.rules, g.ip) == [] {
      SetupInstalls(n.rules, g.ip, g.table, step.cidrs, step.external);
    }
  }

  lemma TeardownEffect(n: State, step: Step, n': State)
    requires Next(n, step, n') && step.TeardownPod?
    ensures var g := step.grant;
            && Mine(n'.rules, g.ip) == TeardownRules(Mine(n.rules, g.ip), g.ip, g.table)
            && Others(n'.rules, g.ip) == Others(n.rules, g.ip) && n'.routes == n.routes - {Host(g.ip)}
  {
    TeardownActsOnMine(n.rules, step.grant.ip, step.grant.table);
  }

  /**
   * CNI add followed later by CNI del of the same pod, in any run: del is told the address and device number that add
   * was given. If no other plug-in call works on the address in between, del finds exactly the rules and the route
   * that add left, and changes no rule of anyone else. If add could absorb what the address carried before, in
   * particular if it carried nothing, those are exactly the installed rules, and all of them go.
   */
  lemma AddThenDel(ns: seq<State>, steps: seq<Step>, k: AS.PodKey, a: nat, b: nat, c: nat, e: nat)
    requires Run(ns, steps) && AddAndDel(steps, k, a, b, c, e)
    requires forall m | a < m < c && m != b :: !Concerns(steps[m], k)
    requires forall m | b < m < e && m != c :: !Touches(steps[m], steps[a].step.reply.ip)
    ensures steps[c].step.reply == steps[a].step.reply
    ensures RoundTrip(ns, steps, steps[a].step.reply.ip, steps[a].step.reply.deviceNumber, b, e)
  {
    ReleaseReturnsGrant(ns, steps, k, a, b, c, e);
    UntouchedRun(ns, steps, steps[a].step.reply.ip, b + 1, e);
    SetupThenTeardown(ns, steps, Given(k, steps[a].step.reply), b, e);
  }

  /** What add left at `b` is what del finds at `e`; del changes nothing else, and nothing stays of a clean add. */
  ghost predicate RoundTrip(ns: seq<State>, steps: seq<Step>, ip: IP, table: int, b: nat, e: nat)
    requires b < e < |steps| == |ns| - 1 && steps[b].SetupPod?
  {
    var before, found, after := Mine(ns[b].rules, ip), Mine(ns[e].rules, ip), Mine(ns[e + 1].rules, ip);
    && found == Mine(ns[b + 1].rules, ip) == SetupRules(before, ip, table, steps[b].cidrs, steps[b].external)
    && RouteOf(ns[e], ip) == Some(steps[b].link)
    && after == TeardownRules(found, ip, table)
    && Others(ns[e + 1].rules, ip) == Others(ns[e].rules, ip)
    && ns[e + 1].routes == ns[e].routes - {Host(ip)}
    && (Absorbed(before, ip, table, steps[b].cidrs, steps[b].external) ==>
          && SameRules(found, Installed(ip, table, steps[b].cidrs, steps[b].external))
          && after == [] && ns[e + 1].rules == Others(ns[e].rules, ip))
    && (before == [] ==>
          && Absorbed(before, ip, table, steps[b].cidrs, steps[b].external)
          && found == Installed(ip, table, steps[b].cidrs, steps[b].external))
  }

  lemma SetupThenTeardown(ns: seq<State>, steps: seq<Step>, g: Grant, b: nat, e: nat)
    requires Run(ns, steps) && b < e < |steps|
    requires steps[b].SetupPod? && steps[b].grant == g && steps[e].TeardownPod? && steps[e].grant == g
    requires Mine(ns[e].rules, g.ip) == Mine(ns[b + 1].rules, g.ip) && RouteOf(ns[e], g.ip) == RouteOf(ns[b + 1], g.ip)
    ensures RoundTrip(ns, steps, g.ip, g.table, b, e)
  {
    assert Next(ns[b], steps[b], ns[b + 1]) && Next(ns[e], steps[e], ns[e + 1]);
    SetupEffect(ns[b], steps[b], ns[b + 1]);
    TeardownEffect(ns[e], steps[e], ns[e + 1]);
    if Absorbed(Mine(ns[b].rules, g.ip), g.ip, g.table, steps[b].cidrs, steps[b].external) {
      RunInv(ns, steps, e);
      assert Tidy(ns[e].rules, g.ip);
      TeardownOfSame(ns[e].rules, g.ip, g.table, steps[b].cidrs, steps[b].external);
    }
    if Mine(ns[b].rules, g.ip) == [] {
      SetupInstalls(ns[b].rules, g.ip, g.table, steps[b].cidrs, steps[b].external);
    }
  }
}
