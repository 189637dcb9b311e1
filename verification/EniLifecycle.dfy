/**
 * Allocating an ENI at EC2: creation, attachment, and clean-up with bounded retries when a later call fails. EC2's
 * answers are inputs, so what becomes of an ENI is stated as a condition on them.
 */
module EniLifecycle {
  import opened Types

  const MAX_ENIS := 128
  const MAX_DELETE_RETRIES := 20

  /** What has become of an ENI at EC2. */
  datatype Fate = Created | Attached | Detached | Deleted

  /** The description of this instance: per interface its device index, or nothing when it has no attachment. */
  datatype Instances = Unavailable | NotOneReservation | NoInstance | Interfaces(devices: seq<Option<int>>)

  datatype DescribeAnswer = Found | FoundUnattached | NotFound | DescribeError

  /** `detach` and `delete` answer the calls by their number. */
  datatype Answers = Answers(
    create: bool,
    instances: Instances,
    attach: bool,
    modifyAttribute: bool,
    describe: DescribeAnswer,
    detach: nat -> bool,
    delete: nat -> bool)

  // ----- Conditions on the answers -----

  /** An index the guard lets through to the array although it lies outside. */
  predicate OutOfRange(device: Option<int>) {
    device.None? || device.value == MAX_ENIS || device.value < 0
  }

  predicate ScanPanics(a: Instances) {
    a.NoInstance? || (a.Interfaces? && exists i :: 0 <= i < |a.devices| && OutOfRange(a.devices[i]))
  }

  predicate HasFreeDevice(a: Instances) {
    a.Interfaces? && !ScanPanics(a) && exists i: int :: 0 <= i < MAX_ENIS && Some(i) !in a.devices
  }

  predicate Attaches(a: Answers) {
    HasFreeDevice(a.instances) && a.attach
  }

  /** One of `tries` calls, the first of which has number `from`, succeeds. */
  predicate SomeSucceeds(f: nat -> bool, from: nat, tries: nat) {
    exists k: nat :: from <= k < from + tries && f(k)
  }

  // ----- Outcomes -----

  datatype DeviceAnswer = Free(index: int) | NoneFree | ScanFailed | ScanPanicked

  /** How clean-up ended; the give-ups carry the number of calls that failed. */
  datatype Cleanup =
    | Removed
    | AlreadyGone
    | DescribeFailed
    | CleanupPanicked
    | DetachGaveUp(failures: nat)
    | DeleteGaveUp(failures: nat)

  predicate CleanupFailed(c: Cleanup) {
    c.DescribeFailed? || c.DetachGaveUp? || c.DeleteGaveUp?
  }

  datatype AttachResult = AttachOk | AttachError | AttachPanicked

  datatype Allocation =
    | CreateFailed
    | Panicked(eni: EniId)
    | AttachFailed(eni: EniId, cleanup: Cleanup)
    | ModifyFailed(eni: EniId, cleanup: Cleanup)
    | Allocated(eni: EniId)

  /** What the caller sees. */
  datatype Outcome = Returned(id: EniId, err: bool) | Crashed

  /** EC2 as the program sees it: a call that fails changes nothing. */
  class EC2 {
    const answers: Answers
    var enis: map<EniId, Fate>
    var detachCalls: nat
    var deleteCalls: nat

    constructor (answers: Answers, enis: map<EniId, Fate>)
      ensures this.answers == answers && this.enis == enis && detachCalls == deleteCalls == 0
    {
      this.answers, this.enis, detachCalls, deleteCalls := answers, enis, 0, 0;
    }

    method CreateNetworkInterface(proposed: EniId) returns (eni: Option<EniId>)
      requires proposed != "" && proposed !in enis
      modifies this`enis
      ensures eni == if answers.create then Some(proposed) else None
      ensures enis == if answers.create then old(enis)[proposed := Created] else old(enis)
    {
      if !answers.create {
        return None;
      }
      enis := enis[proposed := Created];
      return Some(proposed);
    }

    method AttachNetworkInterface(eni: EniId) returns (ok: bool)
      requires eni in enis
      modifies this`enis
      ensures ok == answers.attach
      ensures enis == if ok then old(enis)[eni := Attached] else old(enis)
    {
      if answers.attach {
        enis := enis[eni := Attached];
      }
      return answers.attach;
    }

    method DetachNetworkInterface(eni: EniId) returns (ok: bool)
      modifies this`enis, this`detachCalls
      ensures ok == answers.detach(old(detachCalls)) && detachCalls == old(detachCalls) + 1
      ensures enis == if ok then old(enis)[eni := Detached] else old(enis)
    {
      ok := answers.detach(detachCalls);
      detachCalls := detachCalls + 1;
      if ok {
        enis := enis[eni := Detached];
      }
    }

    method DeleteNetworkInterface(eni: EniId) returns (ok: bool)
      modifies this`enis, this`deleteCalls
      ensures ok == answers.delete(old(deleteCalls)) && deleteCalls == old(deleteCalls) + 1
      ensures enis == if ok then old(enis)[eni := Deleted] else old(enis)
    {
      ok := answers.delete(deleteCalls);
      deleteCalls := deleteCalls + 1;
      if ok {
        enis := enis[eni := Deleted];
      }
    }
  }

  /** `i` is the lowest device index that no interface uses. */
  ghost predicate LowestFree(devices: seq<Option<int>>, i: int) {
    0 <= i < MAX_ENIS && Some(i) !in devices && forall j | 0 <= j < i :: Some(j) in devices
  }

  /**
   * The first free device index. Indices above the limit are ignored; the limit itself, negative indices and a missing
   * attachment make the program panic.
   */
  method AwsGetFreeDeviceNumber(a: Instances) returns (r: DeviceAnswer)
    ensures r.ScanFailed? <==> a.Unavailable? || a.NotOneReservation?
    ensures r.ScanPanicked? <==> ScanPanics(a)
    ensures r.Free? <==> HasFreeDevice(a)
    ensures r.Free? ==> LowestFree(a.devices, r.index)
  {
    if a.Unavailable? || a.NotOneReservation? {
      return ScanFailed;
    }
    if a.NoInstance? {
      return ScanPanicked;
    }
    var device := new bool[MAX_ENIS](_ => false);
    for n := 0 to |a.devices|
      invariant forall i | 0 <= i < n :: !OutOfRange(a.devices[i])
      invariant forall d: int | 0 <= d < MAX_ENIS :: device[d] <==> Some(d) in a.devices[..n]
    {
      assert a.devices[..n + 1] == a.devices[..n] + [a.devices[n]];
      if a.devices[n].None? {
        return ScanPanicked;
      }
      var index := a.devices[n].value;
      if index > MAX_ENIS {
        continue;
      }
      if index == MAX_ENIS || index < 0 {
        return ScanPanicked;
      }
      device[index] := true;
    }
    assert a.devices[..|a.devices|] == a.devices;
    for free := 0 to MAX_ENIS
      invariant forall d: int | 0 <= d < free :: device[d]
    {
      if !device[free] {
        return Free(free);
      }
    }
    return NoneFree;
  }

  class EC2InstanceMetadataCache {
    const ec2: EC2

    constructor (ec2: EC2)
      ensures this.ec2 == ec2
    {
      this.ec2 := ec2;
    }

    /** Up to 20 attempts to delete. */
    method DeleteENI(eni: EniId) returns (how: Cleanup)
      modifies ec2`enis, ec2`deleteCalls
      ensures how == if SomeSucceeds(ec2.answers.delete, old(ec2.deleteCalls), MAX_DELETE_RETRIES) then Removed
                     else DeleteGaveUp(MAX_DELETE_RETRIES)
      ensures ec2.enis == if how == Removed then old(ec2.enis)[eni := Deleted] else old(ec2.enis)
      ensures how == Removed ==> old(ec2.deleteCalls) < ec2.deleteCalls <= old(ec2.deleteCalls) + MAX_DELETE_RETRIES
      ensures how != Removed ==> ec2.deleteCalls == old(ec2.deleteCalls) + MAX_DELETE_RETRIES
    {
      var retry := 0;
      while true
        invariant 0 <= retry <= MAX_DELETE_RETRIES && ec2.deleteCalls == old(ec2.deleteCalls) + retry
        invariant forall k: nat | old(ec2.deleteCalls) <= k < ec2.deleteCalls :: !ec2.answers.delete(k)
        invariant ec2.enis == old(ec2.enis)
        decreases MAX_DELETE_RETRIES - retry
      {
        retry := retry + 1;
        if retry > MAX_DELETE_RETRIES {
          return DeleteGaveUp(MAX_DELETE_RETRIES);
        }
        var ok := ec2.DeleteNetworkInterface(eni);
        if ok {
          return Removed;
        }
      }
    }

    /** Detach, with up to 21 attempts, then delete; what comes of it is decided by the answers. */
    method FreeENI(eni: EniId) returns (how: Cleanup)
      modifies ec2`enis, ec2`detachCalls, ec2`deleteCalls
      ensures how == CleanupOf(ec2.answers, old(ec2.detachCalls), old(ec2.deleteCalls))
      ensures how == Removed ==> ec2.enis == old(ec2.enis)[eni := Deleted]
      ensures how == AlreadyGone || how == DescribeFailed || how == CleanupPanicked ==>
                ec2.enis == old(ec2.enis) && ec2.detachCalls == old(ec2.detachCalls) && ec2.deleteCalls == old(ec2.deleteCalls)
      ensures how.DetachGaveUp? ==>
                && ec2.enis == old(ec2.enis)
                && ec2.detachCalls == old(ec2.detachCalls) + how.failures && ec2.deleteCalls == old(ec2.deleteCalls)
      ensures how.DeleteGaveUp? ==>
                && ec2.enis == old(ec2.enis)[eni := Detached]
                && ec2.deleteCalls == old(ec2.deleteCalls) + how.failures
      ensures ec2.detachCalls <= old(ec2.detachCalls) + MAX_DELETE_RETRIES + 1
      ensures ec2.deleteCalls <= old(ec2.deleteCalls) + MAX_DELETE_RETRIES
    {
      match ec2.answers.describe
      case NotFound =>
        return AlreadyGone;
      case DescribeError =>
        return DescribeFailed;
      case FoundUnattached =>
        return CleanupPanicked;
      case Found =>
        var ok := DetachENI(eni);
        if !ok {
          return DetachGaveUp(MAX_DELETE_RETRIES + 1);
        }
        how := DeleteENI(eni);
    }

    /** The detach loop of freeing. */
    method DetachENI(eni: EniId) returns (ok: bool)
      modifies ec2`enis, ec2`detachCalls
      ensures ok <==> SomeSucceeds(ec2.answers.detach, old(ec2.detachCalls), MAX_DELETE_RETRIES + 1)
      ensures ec2.enis == if ok then old(ec2.enis)[eni := Detached] else old(ec2.enis)
      ensures ec2.detachCalls <= old(ec2.detachCalls) + MAX_DELETE_RETRIES + 1
      ensures !ok ==> ec2.detachCalls == old(ec2.detachCalls) + MAX_DELETE_RETRIES + 1
    {
      var retry := 0;
      while retry <= MAX_DELETE_RETRIES
        invariant 0 <= retry <= MAX_DELETE_RETRIES && ec2.detachCalls == old(ec2.detachCalls) + retry
        invariant forall k: nat | old(ec2.detachCalls) <= k < ec2.detachCalls :: !ec2.answers.detach(k)
        invariant ec2.enis == old(ec2.enis)
        decreases MAX_DELETE_RETRIES - retry
      {
        var detached := ec2.DetachNetworkInterface(eni);
        if detached {
          break;
        }
        if retry == MAX_DELETE_RETRIES {
          return false;
        }
        retry := retry + 1;
      }
      return true;
    }

    method AttachENI(eni: EniId) returns (r: AttachResult)
      requires eni in ec2.enis
      modifies ec2`enis
      ensures r == AttachOk <==> Attaches(ec2.answers)
      ensures r == AttachPanicked <==> ScanPanics(ec2.answers.instances)
      ensures ec2.enis == if r == AttachOk then old(ec2.enis)[eni := Attached] else old(ec2.enis)
    {
      var device := AwsGetFreeDeviceNumber(ec2.answers.instances);
      if device.ScanPanicked? {
        return AttachPanicked;
      }
      if !device.Free? {
        return AttachError;
      }
      var ok := ec2.AttachNetworkInterface(eni);
      return if ok then AttachOk else AttachError;
    }

    /**
     * Create and attach an ENI, for every sequence of answers. An ENI that was created is returned attached, deleted,
     * reported gone, or left behind after a clean-up that was recorded as failed, unless the program crashes. It is
     * left without any clean-up call exactly when the device scan panics. The result is an empty id without an error
     * exactly when the attribute change fails and its clean-up does not.
     */
    method AllocENI(proposed: EniId) returns (r: Outcome, how: Allocation)
      requires proposed != "" && proposed !in ec2.enis
      modifies ec2
      ensures how == AllocationOf(ec2.answers, proposed, old(ec2.detachCalls), old(ec2.deleteCalls))
      ensures Accounted(how, proposed, old(ec2.enis), ec2.enis)
      ensures r.Crashed? <==>
              && ec2.answers.create
              && (ScanPanics(ec2.answers.instances)
                  || (Attaches(ec2.answers) && !ec2.answers.modifyAttribute && ec2.answers.describe == FoundUnattached))
      ensures r == Returned(proposed, false) <==> ec2.answers.create && Attaches(ec2.answers) && ec2.answers.modifyAttribute
      ensures r == Returned("", false) <==> LosesError(ec2.answers, old(ec2.detachCalls), old(ec2.deleteCalls))
      ensures r.Returned? ==> r.id == "" || r == Returned(proposed, false)
      ensures ec2.enis == old(ec2.enis)[proposed := Created] && ec2.deleteCalls == old(ec2.deleteCalls) <==>
              ec2.answers.create && ScanPanics(ec2.answers.instances)
      ensures ec2.detachCalls <= old(ec2.detachCalls) + MAX_DELETE_RETRIES + 1
      ensures ec2.deleteCalls <= old(ec2.deleteCalls) + MAX_DELETE_RETRIES
    {
      var created := ec2.CreateNetworkInterface(proposed);
      if created.None? {
        return Returned("", true), CreateFailed;
      }
      var eni := created.value;
      var attached := AttachENI(eni);
      if attached == AttachPanicked {
        return Crashed, Panicked(eni);
      }
      if attached == AttachError {
        var cleanup := DeleteENI(eni);
        return Returned("", true), AttachFailed(eni, cleanup);
      }
      if !ec2.answers.modifyAttribute {
        var cleanup := FreeENI(eni);
        how := ModifyFailed(eni, cleanup);
        r := if cleanup == CleanupPanicked then Crashed else Returned("", CleanupFailed(cleanup));
        return;
      }
      return Returned(eni, false), Allocated(eni);
    }
  }

  /** What freeing comes to, given the answers and the numbers of the next detach and delete calls. */
  function CleanupOf(a: Answers, detaches: nat, deletes: nat): Cleanup {
    match a.describe
    case NotFound => AlreadyGone
    case DescribeError => DescribeFailed
    case FoundUnattached => CleanupPanicked
    case Found =>
      if !SomeSucceeds(a.detach, detaches, MAX_DELETE_RETRIES + 1) then DetachGaveUp(MAX_DELETE_RETRIES + 1)
      else if !SomeSucceeds(a.delete, deletes, MAX_DELETE_RETRIES) then DeleteGaveUp(MAX_DELETE_RETRIES)
      else Removed
  }

  function AllocationOf(a: Answers, eni: EniId, detaches: nat, deletes: nat): Allocation {
    if !a.create then CreateFailed
    else if ScanPanics(a.instances) then Panicked(eni)
    else if !Attaches(a) then
      AttachFailed(eni, if SomeSucceeds(a.delete, deletes, MAX_DELETE_RETRIES) then Removed
                        else DeleteGaveUp(MAX_DELETE_RETRIES))
    else if !a.modifyAttribute then ModifyFailed(eni, CleanupOf(a, detaches, deletes))
    else Allocated(eni)
  }

  /** The attribute change fails, and its clean-up succeeds or finds nothing to do. */
  predicate LosesError(a: Answers, detaches: nat, deletes: nat) {
    && a.create && Attaches(a) && !a.modifyAttribute
    && (a.describe == NotFound
        || (a.describe == Found
            && SomeSucceeds(a.detach, detaches, 21) && SomeSucceeds(a.delete, deletes, 20)))
  }

  /** The fate of the ENI, and that nothing else at EC2 changed. */
  ghost predicate Accounted(how: Allocation, eni: EniId, before: map<EniId, Fate>, after: map<EniId, Fate>) {
    match how
    case CreateFailed => after == before
    case Panicked(_) => after == before[eni := Created]
    case AttachFailed(_, cleanup) => after == before[eni := if cleanup == Removed then Deleted else Created]
    case ModifyFailed(_, cleanup) =>
      after == before[eni := if cleanup == Removed then Deleted else if cleanup.DeleteGaveUp? then Detached else Attached]
    case Allocated(_) => after == before[eni := Attached]
  }

  /**
   * Every way an ENI can be left behind: by a crash, or after a clean-up that ran into a describe error, 21 failed
   * detaches or 20 failed deletes. In all other cases it is in use, deleted or was reported gone.
   */
  predicate LeftBehind(a: Answers, detaches: nat, deletes: nat) {
    a.create
    && if Attaches(a) then
         && !a.modifyAttribute && a.describe != NotFound
         && !(a.describe == Found && SomeSucceeds(a.detach, detaches, 21)
              && SomeSucceeds(a.delete, deletes, 20))
       else ScanPanics(a.instances) || !SomeSucceeds(a.delete, deletes, 20)
  }

  lemma LeftBehindIff(a: Answers, eni: EniId, detaches: nat, deletes: nat, before: map<EniId, Fate>, after: map<EniId, Fate>)
    requires eni !in before
    requires Accounted(AllocationOf(a, eni, detaches, deletes), eni, before, after)
    ensures LeftBehind(a, detaches, deletes) <==>
            && eni in after && after[eni] != Deleted
            && !AllocationOf(a, eni, detaches, deletes).Allocated?
            && !(AllocationOf(a, eni, detaches, deletes) == ModifyFailed(eni, AlreadyGone))
  {
  }

  /** At device index 128 the scan panics, so the new ENI is left as created. */
  lemma LimitIndexLeavesENI(a: Answers, eni: EniId, detaches: nat, deletes: nat)
    requires a.create && a.instances == Interfaces([Some(0), Some(128)])
    ensures AllocationOf(a, eni, detaches, deletes) == Panicked(eni)
  {
    assert OutOfRange(a.instances.devices[1]);
  }

  /** The attribute change fails on an ENI that EC2 then no longer finds: no id and no error. */
  lemma GoneENILosesError(a: Answers, detaches: nat, deletes: nat)
    requires a.create && a.instances == Interfaces([Some(0)]) && a.attach && !a.modifyAttribute && a.describe == NotFound
    ensures LosesError(a, detaches, deletes)
  {
    assert 0 <= 1 < MAX_ENIS && Some(1) !in a.instances.devices;
  }
}
