/** Shrinking the pool to its warm-IP target: what may go, and that the target is met. */
module Shrinking {
  import opened Types
  import opened Sums
  import opened AddressStore
  import opened PoolPolicy
  import opened Daemon

  // ----- What shrinking must respect -----

  /** Only free addresses of known ENIs have gone; everything else is as it was. */
  ghost predicate OnlyFreeGone(s: Store, s': Store) {
    s'.pods == s.pods && s'.assignedTotal == s.assignedTotal && s'.pools.Keys == s.pools.Keys
    && (forall e | e in s.pools :: s'.pools[e] == s.pools[e].(addresses := s'.pools[e].addresses))
    && (forall e, ip | InPool(s', e, ip) :: InPool(s, e, ip) && s'.pools[e].addresses[ip] == s.pools[e].addresses[ip])
    && (forall e, ip | AssignedAt(s, e, ip) :: InPool(s', e, ip))
  }

  /** Every address that has gone is in the cooldown cache until `expiry`, and no other entry has changed. */
  ghost predicate GoneAreCached(s: Store, s': Store, before: map<IP, Time>, after: map<IP, Time>, expiry: Time) {
    (forall e, ip | InPool(s, e, ip) && !InPool(s', e, ip) :: ip in after && after[ip] == expiry)
    && (forall ip | ip in before :: ip in after)
    && (forall ip | ip in after ::
          (ip in before && after[ip] == before[ip])
          || (after[ip] == expiry && exists e :: InPool(s, e, ip) && !InPool(s', e, ip)))
  }

  lemma OnlyFreeGoneTransitive(s: Store, t: Store, u: Store)
    requires OnlyFreeGone(s, t) && OnlyFreeGone(t, u)
    ensures OnlyFreeGone(s, u)
  {
  }

  lemma ReduceOnlyFree(s: Store, e: EniId, ips: set<IP>)
    requires e in s.pools && forall ip | ip in ips :: InPool(s, e, ip) && !AssignedAt(s, e, ip)
    ensures OnlyFreeGone(s, ReducePool(s, e, ips))
    ensures forall f, ip :: InPool(s, f, ip) && !InPool(ReducePool(s, e, ips), f, ip) <==> f == e && ip in ips
    ensures Available(ReducePool(s, e, ips)) == Available(s) - |ips|
  {
    var a := s.pools[e].addresses;
    assert forall ip | ip in ips :: InPool(s, e, ip);
    assert (a - ips).Keys == a.Keys - ips;
    assert ips <= a.Keys;
    assert |a.Keys - ips| == |a.Keys| - |ips|;
  }

  lemma CachedTransitive(s: Store, t: Store, u: Store, c0: map<IP, Time>, c1: map<IP, Time>, c2: map<IP, Time>, x: Time)
    requires OnlyFreeGone(s, t) && OnlyFreeGone(t, u)
    requires GoneAreCached(s, t, c0, c1, x) && GoneAreCached(t, u, c1, c2, x)
    ensures GoneAreCached(s, u, c0, c2, x)
  {
    forall ip | ip in c2
      ensures (ip in c0 && c2[ip] == c0[ip]) || (c2[ip] == x && exists e :: InPool(s, e, ip) && !InPool(u, e, ip))
    {
      if exists e :: InPool(t, e, ip) && !InPool(u, e, ip) {
        var e :| InPool(t, e, ip) && !InPool(u, e, ip);
        assert InPool(s, e, ip);
      } else if exists e :: InPool(s, e, ip) && !InPool(t, e, ip) {
        var e :| InPool(s, e, ip) && !InPool(t, e, ip);
        assert !InPool(u, e, ip);
      }
    }
  }

  ghost function SeqSet(ips: seq<IP>): set<IP> {
    set ip | ip in ips
  }

  lemma ReduceCached(s: Store, e: EniId, deleted: seq<IP>, cache: map<IP, Time>, expiry: Time)
    requires e in s.pools && forall ip | ip in deleted :: InPool(s, e, ip) && !AssignedAt(s, e, ip)
    ensures GoneAreCached(s, ReducePool(s, e, SeqSet(deleted)), cache, CacheAdd(cache, deleted, expiry), expiry)
  {
    ReduceOnlyFree(s, e, SeqSet(deleted));
    var s' := ReducePool(s, e, SeqSet(deleted));
    forall ip | ip in deleted
      ensures InPool(s, e, ip) && !InPool(s', e, ip)
    {
      assert ip in SeqSet(deleted);
    }
  }

  /** An ENI with nothing free counts zero towards what is available. */
  lemma AllAssignedNoneFree(e: EniId, p: EniPool)
    requires PoolOk(e, p) && forall ip | ip in p.addresses :: p.addresses[ip].isAssigned
    ensures PoolFree(p) == 0
  {
    assert AssignedIn(p) == p.addresses.Keys;
  }

  lemma {:induction false} NothingFree(pools: map<EniId, EniPool>)
    requires forall e | e in pools :: PoolFree(pools[e]) == 0
    ensures SumOver(pools, PoolFree) == 0
    decreases |pools|
  {
    if pools != map[] {
      var e :| e in pools;
      assert (pools - {e}).Keys == pools.Keys - {e};
      SumRemove(pools, e, PoolFree);
      NothingFree(pools - {e});
    }
  }

  /** With distinct names the listing shows every pod, so the addresses it leaves over are exactly the free ones. */
  lemma ListedAreAssigned(s: Store, infos: map<string, PodIP>, used: set<IP>)
    requires Sound(s) && DistinctNames(s.pods)
    requires forall n | n in infos :: exists k :: k in s.pods && PodName(k) == n && infos[n] == s.pods[k]
    requires forall k | k in s.pods :: PodName(k) in infos
    requires used == set n | n in infos :: infos[n].ip
    ensures forall e, ip | InPool(s, e, ip) :: ip in used <==> AssignedAt(s, e, ip)
  {
    forall e, ip | InPool(s, e, ip)
      ensures ip in used <==> AssignedAt(s, e, ip)
    {
      if ip in used {
        var n :| n in infos && infos[n].ip == ip;
        var k :| k in s.pods && PodName(k) == n && infos[n] == s.pods[k];
        var f :| Holds(s, f, s.pods[k]);
        assert InPool(s, f, ip);
      }
      if AssignedAt(s, e, ip) {
        assert HasPod(s, ip);
        var k :| k in s.pods && s.pods[k].ip == ip;
        var n := PodName(k);
        assert n in infos;
        var j :| j in s.pods && PodName(j) == n && infos[n] == s.pods[j];
        assert infos[n].ip == ip;
      }
    }
  }

  /** What may be freed on an ENI: some of its addresses; with distinct pod names, free ones, and all of them if need be. */
  ghost predicate FreeableOn(s: Store, e: EniId, over: int, ips: seq<IP>) {
    |ips| == |SeqSet(ips)| <= over
    && (forall ip | ip in ips :: InPool(s, e, ip))
    && (Sound(s) && DistinctNames(s.pods) ==>
          && (forall ip | ip in ips :: !AssignedAt(s, e, ip))
          && (|ips| == over || forall ip | InPool(s, e, ip) && !AssignedAt(s, e, ip) :: ip in ips))
  }

  lemma FreeableChosen(s: Store, e: EniId, infos: map<string, PodIP>, used: set<IP>, over: int, ips: seq<IP>)
    requires e in s.pools && over >= 0
    requires forall n | n in infos :: exists k :: k in s.pods && PodName(k) == n && infos[n] == s.pods[k]
    requires forall k | k in s.pods :: PodName(k) in infos
    requires used == set n | n in infos :: infos[n].ip
    requires var available := s.pools[e].addresses.Keys - used;
             && SeqSet(ips) <= available && |ips| == |SeqSet(ips)| == Min(over, |available|)
             && (|ips| == |available| ==> SeqSet(ips) == available)
    ensures FreeableOn(s, e, over, ips)
  {
    assert forall ip :: ip in ips <==> ip in SeqSet(ips);
    if Sound(s) && DistinctNames(s.pods) {
      ListedAreAssigned(s, infos, used);
      assert forall ip | ip in SeqSet(ips) :: InPool(s, e, ip);
    }
  }

  /** One ENI has contributed: of some freeable addresses, those free at the time have been deleted. */
  ghost predicate Shrunk(c: PoolConfig, s: Store, s': Store, e: EniId, deleted: seq<IP>) {
    e in s.pools && s' == ReducePool(s, e, SeqSet(deleted))
    && exists ips :: FreeableOn(s, e, IPTargetState(c, s).1, ips)
                     && forall ip :: ip in deleted <==> ip in ips && FreeAt(s, e, ip)
  }

  lemma ShrunkIsFree(c: PoolConfig, s: Store, s': Store, e: EniId, deleted: seq<IP>)
    requires Shrunk(c, s, s', e, deleted)
    ensures forall ip | ip in SeqSet(deleted) :: InPool(s, e, ip) && !AssignedAt(s, e, ip)
    ensures |SeqSet(deleted)| <= IPTargetState(c, s).1
  {
    var ips :| FreeableOn(s, e, IPTargetState(c, s).1, ips)
               && forall ip :: ip in deleted <==> ip in ips && FreeAt(s, e, ip);
    assert SeqSet(deleted) <= SeqSet(ips);
    SubsetSize(SeqSet(deleted), SeqSet(ips));
    assert forall ip | ip in SeqSet(deleted) :: FreeAt(s, e, ip);
  }

  /** With distinct names an ENI gives all that is asked of it, or all it has. */
  lemma ShrunkFully(c: PoolConfig, s: Store, s': Store, e: EniId, deleted: seq<IP>)
    requires Sound(s) && DistinctNames(s.pods) && Shrunk(c, s, s', e, deleted)
    ensures |SeqSet(deleted)| == IPTargetState(c, s).1 || forall ip | FreeAt(s, e, ip) :: ip in SeqSet(deleted)
  {
    var ips :| FreeableOn(s, e, IPTargetState(c, s).1, ips)
               && forall ip :: ip in deleted <==> ip in ips && FreeAt(s, e, ip);
    assert forall ip | ip in ips :: FreeAt(s, e, ip);
    assert SeqSet(deleted) == SeqSet(ips);
  }

  /** Taking free addresses away keeps a sound store sound. */
  lemma ReduceSound(s: Store, e: EniId, ips: set<IP>)
    requires Sound(s) && e in s.pools && forall ip | ip in ips :: InPool(s, e, ip) && !AssignedAt(s, e, ip)
    ensures Sound(ReducePool(s, e, ips))
    decreases ips
  {
    if ips == {} {
      ReduceByNothing(s, e);
    } else {
      var ip :| ip in ips;
      ReduceSound(s, e, ips - {ip});
      ReduceByOne(s, e, ips - {ip}, ip);
      assert ips - {ip} + {ip} == ips;
      DelIPSound(ReducePool(s, e, ips - {ip}), e, ip);
    }
  }

  /** How far shrinking has come when the ENIs of `todo` are still to be visited. */
  ghost predicate Progress(c: PoolConfig, s0: Store, s: Store, todo: set<EniId>) {
    OnlyFreeGone(s0, s) && Available(s) >= c.warmIPTarget && todo <= s.pools.Keys
    && (Sound(s0) && DistinctNames(s0.pods) ==>
          Sound(s) && (Available(s) == c.warmIPTarget || NoneFree(s, s.pools.Keys - todo)))
  }

  ghost predicate NoneFree(s: Store, enis: set<EniId>) {
    forall e, ip | e in enis && InPool(s, e, ip) :: AssignedAt(s, e, ip)
  }

  lemma ReduceNoneFree(s: Store, e: EniId, ips: set<IP>, done: set<EniId>)
    requires e in s.pools && NoneFree(s, done) && forall ip | FreeAt(s, e, ip) :: ip in ips
    ensures NoneFree(ReducePool(s, e, ips), done + {e})
  {
    var s' := ReducePool(s, e, ips);
    forall f, ip | f in done + {e} && InPool(s', f, ip)
      ensures AssignedAt(s', f, ip)
    {
      assert InPool(s, f, ip);
      assert f == e ==> !FreeAt(s, e, ip);
    }
  }

  lemma ExactStep(c: PoolConfig, s: Store, todo: set<EniId>, e: EniId, s': Store, deleted: seq<IP>)
    requires c.warmIPTarget > 0 && Sound(s) && DistinctNames(s.pods) && Shrunk(c, s, s', e, deleted)
    requires Available(s) >= c.warmIPTarget && Available(s') == Available(s) - |SeqSet(deleted)|
    requires Available(s) == c.warmIPTarget || NoneFree(s, s.pools.Keys - todo)
    requires e in todo && todo <= s.pools.Keys && s'.pools.Keys == s.pools.Keys
    ensures Available(s') == c.warmIPTarget || NoneFree(s', s'.pools.Keys - (todo - {e}))
  {
    ShrunkFully(c, s, s', e, deleted);
    if |SeqSet(deleted)| != IPTargetState(c, s).1 {
      ShrunkIsFree(c, s, s', e, deleted);
      ReduceNoneFree(s, e, SeqSet(deleted), s.pools.Keys - todo);
      assert s'.pools.Keys - (todo - {e}) == s.pools.Keys - todo + {e};
    }
  }

  lemma ProgressStep(c: PoolConfig, s0: Store, s: Store, todo: set<EniId>, e: EniId, s': Store, deleted: seq<IP>)
    requires c.warmIPTarget > 0 && Progress(c, s0, s, todo) && e in todo && Shrunk(c, s, s', e, deleted)
    ensures Progress(c, s0, s', todo - {e}) && OnlyFreeGone(s, s')
  {
    var gone := SeqSet(deleted);
    ShrunkIsFree(c, s, s', e, deleted);
    ReduceOnlyFree(s, e, gone);
    OnlyFreeGoneTransitive(s0, s, s');
    if Sound(s0) && DistinctNames(s0.pods) {
      ReduceSound(s, e, gone);
      ExactStep(c, s, todo, e, s', deleted);
    }
  }

  /** Once every ENI has been visited the target is met exactly. */
  lemma ProgressDone(c: PoolConfig, s0: Store, s: Store)
    requires c.warmIPTarget > 0 && Progress(c, s0, s, {}) && Sound(s0) && DistinctNames(s0.pods)
    ensures Available(s) == c.warmIPTarget
  {
    if NoneFree(s, s.pools.Keys - {}) {
      forall e | e in s.pools
        ensures PoolFree(s.pools[e]) == 0
      {
        assert forall ip | ip in s.pools[e].addresses :: InPool(s, e, ip);
        AllAssignedNoneFree(e, s.pools[e]);
      }
      NothingFree(s.pools);
      CountersBounds(s);
    }
  }

  lemma DeleteNextIP(s: Store, e: EniId, done: seq<IP>, deleted: seq<IP>, ip: IP)
    requires e in s.pools && forall i :: i in deleted <==> i in done && FreeAt(s, e, i)
    ensures var (s', st) := DelIP(ReducePool(s, e, SeqSet(deleted)), e, ip);
            var deleted' := if st == Success then deleted + [ip] else deleted;
            && s' == ReducePool(s, e, SeqSet(deleted'))
            && forall i :: i in deleted' <==> i in done + [ip] && FreeAt(s, e, i)
  {
    ReduceByOne(s, e, SeqSet(deleted), ip);
    assert SeqSet(deleted + [ip]) == SeqSet(deleted) + {ip};
  }

  lemma SubsetSize(a: set<IP>, b: set<IP>)
    requires a <= b
    ensures |a| <= |b|
  {
    assert b == a + (b - a);
  }
}
