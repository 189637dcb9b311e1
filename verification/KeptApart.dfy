/**
 * Runs of the node in which an address is not given out while a plug-in call on it is unfinished. There no other call
 * ever works on a pod's address, and rules are left over only where a call broke off or from before the start. Being
 * prompt, that is finishing a del within the cooling period, is enough to be such a run.
 */
module KeptApart {
  import opened Types
  import AS = AddressStore
  import D = Daemon
  import C = Cooling
  import opened PolicyRules
  import opened Leftovers
  import opened Node

  /** No add or del of this address is under way. */
  predicate NoWork(n: State, ip: IP) {
    forall g | g in n.adding + n.deleting :: g.ip != ip
  }

  predicate BeingAdded(n: State, k: AS.PodKey) {
    exists g :: g in n.adding && g.key == k
  }

  predicate BeingUndone(n: State, k: AS.PodKey) {
    exists g :: g in n.undoing && g.key == k
  }

  /**
   * An address is granted or recovered only when no plug-in call on it is unfinished. A pod's own calls do not
   * overlap: it is not released while its set-up is under way, nor granted an address while a set-up of it that broke
   * off is still to be undone.
   */
  predicate Guarded(n: State, step: Step) {
    match step
    case Daemon(s) =>
      && (s.AddNetwork? && s.reply.Granted? ==> NoWork(n, s.reply.ip) && !BeingUndone(n, s.key))
      && (s.Recover? ==> NoWork(n, s.pod.ip) && !BeingUndone(n, s.pod.key))
      && (s.Unassign? ==> !BeingAdded(n, s.key))
    case _ => true
  }

  ghost predicate GuardedRun(ns: seq<State>, steps: seq<Step>) {
    Run(ns, steps) && forall i | 0 <= i < |steps| :: Guarded(ns[i], steps[i])
  }

  // ----- No other call works on a pod's address -----

  /** The address is this pod's alone, or still being torn down for it. */
  ghost predicate Sole(n: State, g: Grant) {
    && (forall h | h in n.adding + n.deleting && h.ip == g.ip :: h.key == g.key)
    && (forall j | j in n.daemon.store.pods && n.daemon.store.pods[j].ip == g.ip :: j == g.key)
    && (HoldsGrant(n, g) || g in n.deleting)
  }

  /** The daemon has granted an address that nobody held. */
  ghost predicate Gained(n: State, n': State, g: Grant) {
    && n' == n.(daemon := n'.daemon, adding := n.adding + {g})
    && g.key !in n.daemon.store.pods && (forall j | j in n.daemon.store.pods :: n.daemon.store.pods[j].ip != g.ip)
    && n'.daemon.store.pods == n.daemon.store.pods[g.key := AS.PodIP(g.ip, g.table)]
  }

  /** The daemon has released a pod, for a del or to undo an add. */
  ghost predicate Lost(n: State, n': State, k: AS.PodKey) {
    && n'.daemon.store.pods == n.daemon.store.pods - {k} && AS.Injective(n.daemon.store.pods)
    && n'.rules == n.rules && n'.adding == n.adding && n'.wired == n.wired && n'.residue == n.residue
    && n'.undoing <= n.undoing
  }

  ghost predicate Pending(n: State, n': State, k: AS.PodKey) {
    n'.deleting ==
    if k in n.daemon.store.pods then n.deleting + {Grant(k, n.daemon.store.pods[k].ip, n.daemon.store.pods[k].deviceNumber)}
    else n.deleting
  }

  lemma GrantFacts(n: State, step: Step, n': State, k: AS.PodKey)
    requires Inv(n) && Next(n, step, n') && IsGrant(step, k)
    ensures Gained(n, n', Given(k, step.step.reply))
  {
    GrantedPod(n, step, n', k);
    assert forall j | j in n.daemon.store.pods :: AS.HasPod(n.daemon.store, n.daemon.store.pods[j].ip);
  }

  lemma ReleaseFacts(n: State, step: Step, n': State, k: AS.PodKey)
    requires Inv(n) && Next(n, step, n') && IsRelease(step, k)
    ensures Lost(n, n', k) && Pending(n, n', k)
  {
    ReleasedPod(n, step, n', k);
  }

  lemma UndoFacts(n: State, step: Step, n': State)
    requires Inv(n) && Next(n, step, n') && step.Undo?
    ensures Lost(n, n', step.grant.key) && n'.deleting == n.deleting && step.grant in n.undoing
    ensures step.grant.key in n.daemon.store.pods ==> step.reply.Granted? && step.reply.ip == n.daemon.store.pods[step.grant.key].ip
  {
    AS.UnassignPodSound(n.daemon.store, step.grant.key, n.daemon.now, n'.daemon.store, step.reply);
  }

  lemma SoleGranted(n: State, n': State, g: Grant)
    requires Gained(n, n', g) && NoWork(n, g.ip)
    ensures Sole(n', g)
  {
  }

  lemma SoleReleased(n: State, n': State, g: Grant)
    requires Lost(n, n', g.key) && Pending(n, n', g.key) && Sole(n, g) && HoldsGrant(n, g)
    ensures Sole(n', g)
  {
  }

  /** A recovered pod is the only one to come in, and it comes in with its own address. */
  lemma RecoveredPod(n: State, pod: AS.PodInfo, r: AS.Reply, n': State)
    requires Inv(n) && Next(n, Daemon(D.Recover(pod, r)), n')
    ensures n'.daemon.store.pods == n.daemon.store.pods
            || (!AS.HasPod(n.daemon.store, pod.ip) && pod.key !in n.daemon.store.pods && pod.key in n'.daemon.store.pods
                && n'.daemon.store.pods[pod.key].ip == pod.ip
                && n'.daemon.store.pods == n.daemon.store.pods[pod.key := n'.daemon.store.pods[pod.key]])
  {
    var s, s' := n.daemon.store, n'.daemon.store;
    if s' != s {
      AS.RecoverPodTakes(s, pod, n.daemon.now, s', r);
      var e :| AS.InPool(s, e, pod.ip) && s' == AS.Take(s, pod.key, e, pod.ip);
      assert AS.PoolOk(e, s.pools[e]);
    }
  }

  /** No new holder of the address and no new call on it, and the pod keeps its claim. */
  lemma SoleKept(n: State, n': State, g: Grant)
    requires Sole(n, g)
    requires forall j | j in n'.daemon.store.pods && n'.daemon.store.pods[j].ip == g.ip ::
               j == g.key || (j in n.daemon.store.pods && n.daemon.store.pods[j].ip == g.ip)
    requires forall h | h in n'.adding + n'.deleting && h.ip == g.ip :: h.key == g.key || h in n.adding + n.deleting
    requires HoldsGrant(n, g) ==> HoldsGrant(n', g)
    requires g in n.deleting ==> g in n'.deleting
    ensures Sole(n', g)
  {
  }

  lemma SoleOtherGrant(n: State, n': State, h: Grant, g: Grant)
    requires Gained(n, n', h) && NoWork(n, h.ip) && Sole(n, g) && h.key != g.key
    ensures Sole(n', g)
  {
    assert h.ip != g.ip;
    SoleKept(n, n', g);
  }

  lemma SoleOtherRelease(n: State, n': State, k: AS.PodKey, g: Grant)
    requires Lost(n, n', k) && (Pending(n, n', k) || n'.deleting == n.deleting) && Sole(n, g) && k != g.key
    ensures Sole(n', g)
  {
    assert k in n.daemon.store.pods ==> n.daemon.store.pods[k].ip != g.ip;
    SoleKept(n, n', g);
  }

  lemma SoleRecover(n: State, step: Step, n': State, g: Grant)
    requires Inv(n) && Next(n, step, n') && Guarded(n, step) && Sole(n, g) && step.Daemon? && step.step.Recover?
    ensures Sole(n', g)
  {
    RecoveredPod(n, step.step.pod, step.step.reply, n');
    assert HoldsGrant(n, g) ==> AS.HasPod(n.daemon.store, g.ip);
    SoleKept(n, n', g);
  }

  lemma SoleManager(n: State, step: Step, n': State, g: Grant)
    requires Inv(n) && Next(n, step, n') && Sole(n, g) && step.Daemon?
    requires !D.IsRpc(step.step) || (step.step.AddNetwork? && step.step.reply.Refused?)
    ensures Sole(n', g)
  {
    if step.step.AddNetwork? {
      AS.AssignPodSound(n.daemon.store, step.step.key, n.daemon.now, n'.daemon.store, step.step.reply);
    } else {
      D.ManagerKeepsPods(n.daemon, step.step, n'.daemon);
    }
    SoleKept(n, n', g);
  }

  /** No step of another pod brings in a holder of this address or a call on it. */
  lemma SoleDaemonStep(n: State, step: Step, n': State, g: Grant)
    requires Inv(n) && Next(n, step, n') && Guarded(n, step) && Sole(n, g) && !Concerns(step, g.key) && step.Daemon?
    ensures Sole(n', g)
  {
    if step.step.Unassign? {
      ReleaseFacts(n, step, n', step.step.key);
      SoleOtherRelease(n, n', step.step.key, g);
    } else if step.step.Recover? {
      SoleRecover(n, step, n', g);
    } else if step.step.AddNetwork? && step.step.reply.Granted? {
      GrantFacts(n, step, n', step.step.key);
      SoleOtherGrant(n, n', Given(step.step.key, step.step.reply), g);
    } else {
      SoleManager(n, step, n', g);
    }
  }

  lemma SoleUndo(n: State, step: Step, n': State, g: Grant)
    requires Inv(n) && Next(n, step, n') && Sole(n, g) && step.Undo? && step.grant.key != g.key
    ensures Sole(n', g)
  {
    UndoFacts(n, step, n');
    SoleOtherRelease(n, n', step.grant.key, g);
  }

  lemma SolePlugin(n: State, step: Step, n': State, g: Grant)
    requires Next(n, step, n') && Sole(n, g) && !DaemonPart(step) && step.grant.key != g.key
    ensures Sole(n', g) && !Touches(step, g.ip)
  {
    assert step.grant in n.adding + n.deleting;
    SoleKept(n, n', g);
  }

  lemma SoleStep(n: State, step: Step, n': State, g: Grant)
    requires Inv(n) && Next(n, step, n') && Guarded(n, step) && Sole(n, g) && !Concerns(step, g.key)
    ensures Sole(n', g) && !Touches(step, g.ip)
  {
    if step.Daemon? {
      SoleDaemonStep(n, step, n', g);
    } else if step.Undo? {
      SoleUndo(n, step, n', g);
    } else {
      SolePlugin(n, step, n', g);
    }
  }

  lemma SoleNext(ns: seq<State>, steps: seq<Step>, g: Grant, i: nat)
    requires GuardedRun(ns, steps) && i < |steps| && Sole(ns[i], g) && !Concerns(steps[i], g.key)
    ensures Sole(ns[i + 1], g) && !Touches(steps[i], g.ip)
  {
    RunInv(ns, steps, i);
    SoleStep(ns[i], steps[i], ns[i + 1], g);
  }

  /** What every step of a stretch keeps holds at its end. */
  lemma {:induction false} Stretch(ns: seq<State>, keeps: State -> bool, i: nat, j: nat)
    requires i <= j < |ns| && keeps(ns[i]) && forall m: nat | i <= m < j && keeps(ns[m]) :: keeps(ns[m + 1])
    ensures keeps(ns[j])
    decreases j - i
  {
    if i < j {
      Stretch(ns, keeps, i, j - 1);
    }
  }

  lemma SoleRun(ns: seq<State>, steps: seq<Step>, g: Grant, i: nat, j: nat)
    requires GuardedRun(ns, steps) && i <= j < |ns| && Sole(ns[i], g)
    requires forall m | i <= m < j :: !Concerns(steps[m], g.key)
    ensures Sole(ns[j], g)
  {
    var keeps := (n: State) => Sole(n, g);
    forall m: nat | i <= m < j && keeps(ns[m])
      ensures keeps(ns[m + 1])
    {
      SoleNext(ns, steps, g, m);
    }
    Stretch(ns, keeps, i, j);
  }

  lemma SoleQuiet(ns: seq<State>, steps: seq<Step>, g: Grant, i: nat, j: nat)
    requires GuardedRun(ns, steps) && i <= j < |ns| && Sole(ns[i], g)
    requires forall m | i <= m < j :: !Concerns(steps[m], g.key)
    ensures forall m | i <= m < j :: !Touches(steps[m], g.ip)
  {
    forall m: nat | i <= m < j
      ensures !Touches(steps[m], g.ip)
    {
      SoleRun(ns, steps, g, i, m);
      SoleNext(ns, steps, g, m);
    }
  }

  /** From the grant to the release. */
  lemma SoleUntilRelease(ns: seq<State>, steps: seq<Step>, k: AS.PodKey, a: nat, b: nat, c: nat)
    requires GuardedRun(ns, steps) && a < b < c < |steps| && IsGrant(steps[a], k)
    requires steps[b].SetupPod? && steps[b].grant == Given(k, steps[a].step.reply)
    requires forall m | a < m < c && m != b :: !Concerns(steps[m], k)
    ensures Sole(ns[c], Given(k, steps[a].step.reply)) && HoldsGrant(ns[c], Given(k, steps[a].step.reply))
    ensures forall m | b < m < c :: !Touches(steps[m], steps[a].step.reply.ip)
  {
    var g := Given(k, steps[a].step.reply);
    SoleFromGrant(ns, steps, k, a);
    SoleRun(ns, steps, g, a + 1, b);
    HoldingRun(ns, steps, g, a + 1, b);
    SoleSetup(ns, steps, g, b);
    SoleRun(ns, steps, g, b + 1, c);
    SoleQuiet(ns, steps, g, b + 1, c);
    HoldingRun(ns, steps, g, a + 1, c);
  }

  lemma SoleFromGrant(ns: seq<State>, steps: seq<Step>, k: AS.PodKey, a: nat)
    requires GuardedRun(ns, steps) && a < |steps| && IsGrant(steps[a], k)
    ensures Sole(ns[a + 1], Given(k, steps[a].step.reply)) && HoldsGrant(ns[a + 1], Given(k, steps[a].step.reply))
  {
    RunInv(ns, steps, a);
    GrantFacts(ns[a], steps[a], ns[a + 1], k);
    SoleGranted(ns[a], ns[a + 1], Given(k, steps[a].step.reply));
  }

  lemma SoleSetup(ns: seq<State>, steps: seq<Step>, g: Grant, b: nat)
    requires GuardedRun(ns, steps) && b < |steps| && steps[b].SetupPod? && steps[b].grant == g
    requires Sole(ns[b], g) && HoldsGrant(ns[b], g)
    ensures Sole(ns[b + 1], g)
  {
    assert Next(ns[b], steps[b], ns[b + 1]);
    SoleKept(ns[b], ns[b + 1], g);
  }

  lemma SoleFromRelease(ns: seq<State>, steps: seq<Step>, g: Grant, c: nat)
    requires GuardedRun(ns, steps) && c < |steps| && IsRelease(steps[c], g.key) && Sole(ns[c], g) && HoldsGrant(ns[c], g)
    ensures Sole(ns[c + 1], g)
  {
    RunInv(ns, steps, c);
    ReleaseFacts(ns[c], steps[c], ns[c + 1], g.key);
    SoleReleased(ns[c], ns[c + 1], g);
  }

  /** Between a pod's add and the end of its del nobody else's call works on its address. */
  lemma NoOtherTouches(ns: seq<State>, steps: seq<Step>, k: AS.PodKey, a: nat, b: nat, c: nat, e: nat)
    requires GuardedRun(ns, steps) && AddAndDel(steps, k, a, b, c, e)
    requires forall m | a < m < e && m != b && m != c :: !Concerns(steps[m], k)
    ensures forall m | b < m < e && m != c :: !Touches(steps[m], steps[a].step.reply.ip)
  {
    var g := Given(k, steps[a].step.reply);
    SoleUntilRelease(ns, steps, k, a, b, c);
    SoleFromRelease(ns, steps, g, c);
    SoleQuiet(ns, steps, g, c + 1, e);
  }

  // ----- Where rules are left over -----

  /** A wired address is held by its pod, or its tear-down is under way. */
  ghost predicate Owned(n: State, ip: IP, table: int) {
    (exists k :: HoldsGrant(n, Grant(k, ip, table))) || (exists k :: Grant(k, ip, table) in n.deleting)
  }

  /** Where nothing broke off, the rules are exactly those of a wired pod, or none. */
  ghost predicate Exact(n: State, ip: IP) {
    if ip in n.wired then
      var w := n.wired[ip];
      && SameRules(Mine(n.rules, ip), Installed(ip, w.table, w.cidrs, w.external))
      && Owned(n, ip, w.table) && (forall g | g in n.adding :: g.ip != ip)
    else Mine(n.rules, ip) == []
  }

  /** The plug-in's unfinished calls agree with the store. */
  ghost predicate CallsOk(n: State) {
    && (forall g | g in n.adding :: HoldsGrant(n, g))
    && (forall g | g in n.undoing && g.key in n.daemon.store.pods ::
          n.daemon.store.pods[g.key].ip == g.ip && g.ip in n.residue)
    && (forall g, h | g in n.undoing && h in n.adding :: g.key != h.key)
    && (forall g | g in n.deleting :: !AS.HasPod(n.daemon.store, g.ip))
    && (forall g, h | g in n.deleting && h in n.deleting && g.ip == h.ip :: g == h)
  }

  ghost predicate ExactInv(n: State) {
    Inv(n) && CallsOk(n) && forall ip | ip !in n.residue :: Exact(n, ip)
  }

  lemma GrantCalls(n: State, n': State, g: Grant)
    requires Gained(n, n', g) && NoWork(n, g.ip) && !BeingUndone(n, g.key) && CallsOk(n)
    ensures CallsOk(n')
  {
    forall h | h in n'.adding
      ensures HoldsGrant(n', h)
    {
      assert h != g ==> HoldsGrant(n, h);
    }
    forall h | h in n'.deleting
      ensures !AS.HasPod(n'.daemon.store, h.ip)
    {
      assert !AS.HasPod(n.daemon.store, h.ip);
    }
  }

  /** A claim on a wired address carries over when its holder and the dels under way do. */
  lemma OwnedCarries(n: State, n': State, ip: IP, table: int)
    requires Owned(n, ip, table)
    requires forall k | HoldsGrant(n, Grant(k, ip, table)) ::
               HoldsGrant(n', Grant(k, ip, table)) || Grant(k, ip, table) in n'.deleting
    requires forall k | Grant(k, ip, table) in n.deleting :: Grant(k, ip, table) in n'.deleting
    ensures Owned(n', ip, table)
  {
    if k :| HoldsGrant(n, Grant(k, ip, table)) {
      assert HoldsGrant(n', Grant(k, ip, table)) || Grant(k, ip, table) in n'.deleting;
    } else {
      var k :| Grant(k, ip, table) in n.deleting;
      assert Grant(k, ip, table) in n'.deleting;
    }
  }

  lemma GrantExact(n: State, n': State, g: Grant, ip: IP)
    requires Gained(n, n', g) && NoWork(n, g.ip) && Exact(n, ip)
    ensures Exact(n', ip)
  {
    if ip in n.wired {
      OwnedCarries(n, n', ip, n.wired[ip].table);
      assert ip != g.ip;
    }
  }

  lemma LostCalls(n: State, n': State, k: AS.PodKey)
    requires Lost(n, n', k) && (Pending(n, n', k) || n'.deleting == n.deleting) && !BeingAdded(n, k) && CallsOk(n)
    ensures CallsOk(n')
  {
    forall g | g in n'.adding
      ensures HoldsGrant(n', g)
    {
      assert HoldsGrant(n, g) && g.key != k;
    }
    forall g | g in n.deleting
      ensures !AS.HasPod(n'.daemon.store, g.ip) && (k in n.daemon.store.pods ==> g.ip != n.daemon.store.pods[k].ip)
    {
      assert !AS.HasPod(n.daemon.store, g.ip);
    }
  }

  lemma ReleaseExact(n: State, n': State, k: AS.PodKey, ip: IP)
    requires Lost(n, n', k) && Pending(n, n', k) && Exact(n, ip)
    ensures Exact(n', ip)
  {
    if ip in n.wired {
      OwnedCarries(n, n', ip, n.wired[ip].table);
    }
  }

  lemma UndoExact(n: State, n': State, k: AS.PodKey, ip: IP)
    requires Lost(n, n', k) && n'.deleting == n.deleting && Exact(n, ip)
    requires k in n.daemon.store.pods ==> n.daemon.store.pods[k].ip != ip
    ensures Exact(n', ip)
  {
    if ip in n.wired {
      OwnedCarries(n, n', ip, n.wired[ip].table);
    }
  }

  /** Daemon steps after which the store knows the same pods, or one more on an address without unfinished calls. */
  lemma GrownPods(n: State, n': State, ip: IP)
    requires CallsOk(n) && n'.rules == n.rules && n'.wired == n.wired && n'.residue == n.residue
    requires n'.adding == n.adding && n'.undoing == n.undoing && n'.deleting == n.deleting
    requires forall j | j in n.daemon.store.pods :: j in n'.daemon.store.pods && n'.daemon.store.pods[j] == n.daemon.store.pods[j]
    requires forall j | j in n'.daemon.store.pods && j !in n.daemon.store.pods ::
               n'.daemon.store.pods[j].ip == ip && !BeingUndone(n, j)
    requires n'.daemon.store.pods != n.daemon.store.pods ==> NoWork(n, ip)
    ensures CallsOk(n') && forall i | Exact(n, i) :: Exact(n', i)
  {
    forall g | g in n'.deleting
      ensures !AS.HasPod(n'.daemon.store, g.ip)
    {
      assert !AS.HasPod(n.daemon.store, g.ip);
    }
    forall i | Exact(n, i)
      ensures Exact(n', i)
    {
      GrownExact(n, n', i);
    }
  }

  lemma GrownExact(n: State, n': State, i: IP)
    requires n'.rules == n.rules && n'.wired == n.wired && n'.adding == n.adding && n'.deleting == n.deleting
    requires forall j | j in n.daemon.store.pods :: j in n'.daemon.store.pods && n'.daemon.store.pods[j] == n.daemon.store.pods[j]
    requires Exact(n, i)
    ensures Exact(n', i)
  {
    if i in n.wired {
      OwnedCarries(n, n', i, n.wired[i].table);
    }
  }

  lemma OtherDaemonStep(n: State, step: Step, n': State)
    requires ExactInv(n) && Next(n, step, n') && Guarded(n, step) && step.Daemon?
    requires !step.step.Unassign? && !(step.step.AddNetwork? && step.step.reply.Granted?)
    ensures CallsOk(n') && forall i | Exact(n, i) :: Exact(n', i)
  {
    var s := step.step;
    if s.AddNetwork? {
      AS.AssignPodSound(n.daemon.store, s.key, n.daemon.now, n'.daemon.store, s.reply);
      GrownPods(n, n', "");
    } else if s.Recover? {
      RecoveredPod(n, s.pod, s.reply, n');
      GrownPods(n, n', s.pod.ip);
    } else {
      D.ManagerKeepsPods(n.daemon, s, n'.daemon);
      GrownPods(n, n', "");
    }
  }

  /** Two sets-up under way are of different addresses. */
  lemma AddingDistinct(n: State, g: Grant, h: Grant)
    requires D.Safe(n.daemon) && CallsOk(n) && g in n.adding && h in n.adding && g.ip == h.ip
    ensures g == h
  {
    assert HoldsGrant(n, g) && HoldsGrant(n, h);
  }

  /** The address that a plug-in step works on, if it is not left half-way. */
  lemma OwnExact(n: State, step: Step, n': State)
    requires ExactInv(n) && Next(n, step, n') && !DaemonPart(step) && step.grant.ip !in n'.residue
    ensures Exact(n', step.grant.ip)
  {
    var g := step.grant;
    if step.SetupPod? {
      SetupEffect(n, step, n');
      assert HoldsGrant(n, g) && HoldsGrant(n', g);
      forall h | h in n'.adding
        ensures h.ip != g.ip
      {
        if h.ip == g.ip {
          AddingDistinct(n, g, h);
        }
      }
    } else {
      assert Tidy(n.rules, g.ip);
      TeardownClearsIff(n.rules, g.ip, g.table);
    }
  }

  /** An address is left half-way only by a set-up or tear-down of it that broke off. */
  lemma ResidueGrows(n: State, step: Step, n': State, ip: IP)
    requires ExactInv(n) && Next(n, step, n') && ip !in n.residue && ip in n'.residue
    ensures (step.SetupFails? || step.TeardownFails?) && step.grant.ip == ip
  {
    assert Exact(n, ip);
    assert !DaemonPart(step) && step.grant.ip == ip;
    if step.SetupPod? {
      assert Mine(n.rules, ip) == [];
      SetupInstalls(n.rules, ip, step.grant.table, step.cidrs, step.external);
    } else if step.TeardownPod? {
      CleanTeardown(n, step.grant);
    }
  }

  lemma CleanTeardown(n: State, g: Grant)
    requires ExactInv(n) && g in n.deleting && Exact(n, g.ip)
    ensures Clears(Mine(n.rules, g.ip), g.ip, g.table)
  {
    if g.ip in n.wired {
      var w := n.wired[g.ip];
      assert !AS.HasPod(n.daemon.store, g.ip);
      assert forall k :: HoldsGrant(n, Grant(k, g.ip, w.table)) ==> AS.HasPod(n.daemon.store, g.ip);
      var k :| Grant(k, g.ip, w.table) in n.deleting;
      assert Grant(k, g.ip, w.table) == g && Tidy(n.rules, g.ip);
      TeardownOfSame(n.rules, g.ip, w.table, w.cidrs, w.external);
    } else {
      assert NotFrom([], g.ip) == [] && From([], g.ip) == [];
    }
  }

  /** All other addresses. */
  lemma AwayExact(n: State, step: Step, n': State, ip: IP)
    requires ExactInv(n) && Next(n, step, n') && !DaemonPart(step) && ip != step.grant.ip && Exact(n, ip)
    ensures Exact(n', ip)
  {
    UntouchedStep(n, step, n', ip);
    AwayKept(n, step, n', ip);
  }

  lemma AwayKept(n: State, step: Step, n': State, ip: IP)
    requires Next(n, step, n') && !DaemonPart(step) && ip != step.grant.ip && Exact(n, ip)
    requires Mine(n'.rules, ip) == Mine(n.rules, ip)
    ensures Exact(n', ip)
  {
    assert n'.daemon == n.daemon && n'.adding <= n.adding && (ip in n'.wired <==> ip in n.wired);
    if ip in n.wired {
      OwnedCarries(n, n', ip, n.wired[ip].table);
    }
  }

  lemma PluginCalls(n: State, step: Step, n': State)
    requires AS.Injective(n.daemon.store.pods) && CallsOk(n) && Next(n, step, n') && !DaemonPart(step)
    ensures CallsOk(n')
  {
    assert n'.daemon == n.daemon && n'.adding <= n.adding && n'.deleting <= n.deleting;
    forall g | g in n'.adding
      ensures HoldsGrant(n', g)
    {
      assert HoldsGrant(n, g);
    }
    UndoneStay(n, step, n');
  }

  /** A pod whose set-up broke off keeps its address in the residue until it is undone. */
  lemma UndoneStay(n: State, step: Step, n': State)
    requires AS.Injective(n.daemon.store.pods) && CallsOk(n) && Next(n, step, n') && !DaemonPart(step)
    ensures forall g | g in n'.undoing && g.key in n'.daemon.store.pods ::
              n'.daemon.store.pods[g.key].ip == g.ip && g.ip in n'.residue
    ensures forall g, h | g in n'.undoing && h in n'.adding :: g.key != h.key
  {
    var t := step.grant;
    assert n'.daemon == n.daemon && n'.adding <= n.adding;
    assert step.SetupPod? || step.SetupFails? ==> HoldsGrant(n, t);
    assert step.TeardownPod? ==> !AS.HasPod(n.daemon.store, t.ip);
    forall g | g in n'.undoing && g.key in n'.daemon.store.pods
      ensures n'.daemon.store.pods[g.key].ip == g.ip && g.ip in n'.residue
    {
      if g in n.undoing {
        assert AS.HasPod(n.daemon.store, g.ip);
        assert step.SetupPod? ==> g.key != t.key;
      }
    }
    forall g, h | g in n'.undoing && h in n'.adding
      ensures g.key != h.key
    {
      assert HoldsGrant(n, h);
    }
  }

  lemma PluginStep(n: State, step: Step, n': State)
    requires ExactInv(n) && Next(n, step, n') && !DaemonPart(step)
    ensures ExactInv(n')
  {
    InvStep(n, step, n');
    PluginCalls(n, step, n');
    forall ip | ip !in n'.residue
      ensures Exact(n', ip)
    {
      if ip == step.grant.ip {
        OwnExact(n, step, n');
      } else {
        AwayExact(n, step, n', ip);
      }
    }
  }

  /** Every guarded step keeps the rules exact wherever no call broke off. */
  lemma ExactStep(n: State, step: Step, n': State)
    requires ExactInv(n) && Next(n, step, n') && Guarded(n, step)
    ensures ExactInv(n')
  {
    if !DaemonPart(step) {
      PluginStep(n, step, n');
    } else {
      InvStep(n, step, n');
      DaemonExact(n, step, n');
    }
  }

  lemma DaemonExact(n: State, step: Step, n': State)
    requires ExactInv(n) && Next(n, step, n') && Guarded(n, step) && DaemonPart(step)
    ensures CallsOk(n') && forall ip | ip !in n'.residue :: Exact(n', ip)
  {
    if step.Undo? {
      UndoFacts(n, step, n');
      assert !BeingAdded(n, step.grant.key);
      LostEverywhere(n, n', step.grant.key);
    } else if step.step.Unassign? {
      ReleaseFacts(n, step, n', step.step.key);
      LostEverywhere(n, n', step.step.key);
    } else if step.step.AddNetwork? && step.step.reply.Granted? {
      GrantFacts(n, step, n', step.step.key);
      GrantEverywhere(n, n', Given(step.step.key, step.step.reply));
    } else {
      OtherDaemonStep(n, step, n');
    }
  }

  lemma GrantEverywhere(n: State, n': State, g: Grant)
    requires CallsOk(n) && (forall ip | ip !in n.residue :: Exact(n, ip))
    requires Gained(n, n', g) && NoWork(n, g.ip) && !BeingUndone(n, g.key)
    ensures CallsOk(n') && forall ip | ip !in n'.residue :: Exact(n', ip)
  {
    GrantCalls(n, n', g);
    forall ip | ip !in n'.residue
      ensures Exact(n', ip)
    {
      GrantExact(n, n', g, ip);
    }
  }

  lemma LostEverywhere(n: State, n': State, k: AS.PodKey)
    requires CallsOk(n) && (forall ip | ip !in n.residue :: Exact(n, ip)) && Lost(n, n', k) && !BeingAdded(n, k)
    requires Pending(n, n', k)
             || (n'.deleting == n.deleting && (k in n.daemon.store.pods ==> n.daemon.store.pods[k].ip in n.residue))
    ensures CallsOk(n') && forall ip | ip !in n'.residue :: Exact(n', ip)
  {
    LostCalls(n, n', k);
    forall ip | ip !in n'.residue
      ensures Exact(n', ip)
    {
      if Pending(n, n', k) {
        ReleaseExact(n, n', k, ip);
      } else {
        UndoExact(n, n', k, ip);
      }
    }
  }

  lemma {:induction false} ExactRun(ns: seq<State>, steps: seq<Step>, i: nat)
    requires GuardedRun(ns, steps) && i < |ns|
    ensures ExactInv(ns[i])
  {
    if i > 0 {
      ExactRun(ns, steps, i - 1);
      ExactStep(ns[i - 1], steps[i - 1], ns[i]);
    } else {
      RunInv(ns, steps, 0);
    }
  }

  /** The address that a set-up is about to work on carries no rules, unless something broke off there before. */
  lemma CleanBeforeSetup(ns: seq<State>, steps: seq<Step>, b: nat)
    requires GuardedRun(ns, steps) && b < |steps| && steps[b].SetupPod? && steps[b].grant.ip !in ns[b].residue
    ensures Mine(ns[b].rules, steps[b].grant.ip) == []
  {
    ExactRun(ns, steps, b);
    assert Next(ns[b], steps[b], ns[b + 1]);
    assert Exact(ns[b], steps[b].grant.ip);
  }

  /**
   * CNI add followed later by CNI del of the same pod, with any steps for other pods and any manager steps in between:
   * del is told what add was told, finds exactly what add left, and removes it and nothing else. On an address that is
   * not left half-way after the set-up, because nothing broke off there before or because that set-up or an earlier
   * tear-down made up for it, this is exactly the installed rules, and nothing stays.
   */
  lemma AddThenDelApart(ns: seq<State>, steps: seq<Step>, k: AS.PodKey, a: nat, b: nat, c: nat, e: nat)
    requires GuardedRun(ns, steps) && AddAndDel(steps, k, a, b, c, e)
    requires forall m | a < m < e && m != b && m != c :: !Concerns(steps[m], k)
    ensures steps[c].step.reply == steps[a].step.reply
    ensures var ip, device := steps[a].step.reply.ip, steps[a].step.reply.deviceNumber;
            && RoundTrip(ns, steps, ip, device, b, e)
            && (ip !in ns[b + 1].residue ==>
                  && SameRules(Mine(ns[e].rules, ip), Installed(ip, device, steps[b].cidrs, steps[b].external))
                  && ns[e + 1].rules == Others(ns[e].rules, ip) && Mine(ns[e + 1].rules, ip) == [])
            && (ip !in ns[b].residue ==>
                  && ip !in ns[b + 1].residue
                  && Mine(ns[e].rules, ip) == Installed(ip, device, steps[b].cidrs, steps[b].external))
  {
    NoOtherTouches(ns, steps, k, a, b, c, e);
    AddThenDel(ns, steps, k, a, b, c, e);
    assert Next(ns[b], steps[b], ns[b + 1]);
    if steps[a].step.reply.ip !in ns[b].residue {
      CleanBeforeSetup(ns, steps, b);
    }
  }

  // ----- Being prompt is enough -----

  /** A tear-down of this address that is still under way began at most a cooling period ago. */
  ghost predicate Prompt(n: State, ip: IP) {
    forall g | g in n.deleting && g.ip == ip && ip in n.daemon.released ::
      n.daemon.now <= n.daemon.released[ip] + AS.ADDRESS_COOLING_PERIOD
  }

  /** Daemon steps are cool in the sense of the cooling theorem, and dels are prompt when an address is granted. */
  ghost predicate Timely(n: State, step: Step) {
    (DaemonPart(step) ==> C.CoolStep(n.daemon, DaemonStep(step)))
    && match step
       case Daemon(s) =>
         && (s.AddNetwork? && s.reply.Granted? ==> Prompt(n, s.reply.ip) && !BeingUndone(n, s.key))
         && (s.Recover? ==> NoWork(n, s.pod.ip) && !BeingUndone(n, s.pod.key))
         && (s.Unassign? ==> !BeingAdded(n, s.key))
       case _ => true
  }

  ghost predicate TimelyRun(ns: seq<State>, steps: seq<Step>) {
    Run(ns, steps) && forall i | 0 <= i < |steps| :: Timely(ns[i], steps[i])
  }

  ghost predicate DelsRecorded(n: State) {
    forall g | g in n.deleting :: g.ip in n.daemon.released
  }

  lemma DelsRecordedStep(n: State, step: Step, n': State)
    requires DelsRecorded(n) && Next(n, step, n')
    ensures DelsRecorded(n')
  {
    DaemonNext(n, step, n');
    forall ip | ip in n.daemon.released
      ensures ip in n'.daemon.released
    {
      if DaemonPart(step) {
        ReleasedGrows(n.daemon, DaemonStep(step), n'.daemon, ip);
      }
    }
  }

  lemma ReleasedGrows(d: D.State, step: D.Step, d': D.State, ip: IP)
    requires D.Next(d, step, d') && ip in d.released
    ensures ip in d'.released
  {
  }

  /** An address that a cool daemon grants while its dels are prompt has no call under way. */
  lemma PromptGrant(n: State, step: Step, n': State, k: AS.PodKey)
    requires ExactInv(n) && C.CoolInv(n.daemon) && DelsRecorded(n) && Next(n, step, n') && IsGrant(step, k)
    requires Prompt(n, step.step.reply.ip)
    ensures NoWork(n, step.step.reply.ip)
  {
    var r := step.step.reply;
    C.AddNetworkRests(n.daemon, k, r, n'.daemon);
    GrantedPod(n, step, n', k);
    forall g | g in n.adding + n.deleting
      ensures g.ip != r.ip
    {
      assert g in n.adding ==> HoldsGrant(n, g);
    }
  }

  lemma TimelyIsGuarded(n: State, step: Step, n': State)
    requires ExactInv(n) && C.CoolInv(n.daemon) && DelsRecorded(n) && Next(n, step, n') && Timely(n, step)
    ensures Guarded(n, step)
  {
    if step.Daemon? && step.step.AddNetwork? && step.step.reply.Granted? {
      PromptGrant(n, step, n', step.step.key);
    }
  }

  lemma {:induction false} TimelyInv(ns: seq<State>, steps: seq<Step>, i: nat)
    requires TimelyRun(ns, steps) && i < |ns|
    ensures ExactInv(ns[i]) && C.CoolInv(ns[i].daemon) && DelsRecorded(ns[i])
  {
    if i > 0 {
      TimelyInv(ns, steps, i - 1);
      var n, step, n' := ns[i - 1], steps[i - 1], ns[i];
      TimelyIsGuarded(n, step, n');
      ExactStep(n, step, n');
      DelsRecordedStep(n, step, n');
      CoolDaemon(n, step, n');
    } else {
      RunInv(ns, steps, 0);
    }
  }

  lemma CoolDaemon(n: State, step: Step, n': State)
    requires C.CoolInv(n.daemon) && Next(n, step, n') && Timely(n, step)
    ensures C.CoolInv(n'.daemon)
  {
    DaemonNext(n, step, n');
    if DaemonPart(step) {
      C.CoolInvStep(n.daemon, DaemonStep(step), n'.daemon);
    }
  }

  /** With a cool daemon and prompt dels, calls on one address are kept apart. */
  lemma TimelyRunIsGuarded(ns: seq<State>, steps: seq<Step>)
    requires TimelyRun(ns, steps)
    ensures GuardedRun(ns, steps)
  {
    forall i: nat | i < |steps|
      ensures Guarded(ns[i], steps[i])
    {
      TimelyInv(ns, steps, i);
      TimelyIsGuarded(ns[i], steps[i], ns[i + 1]);
    }
  }
}
