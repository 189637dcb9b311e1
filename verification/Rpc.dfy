/** The RPC handlers that the plug-in calls. */
module Rpc {
  import opened Types
  import opened AddressStore
  import opened DataStores

  datatype AddNetworkReply = AddNetworkReply(
    success: bool, ipv4Addr: IP, deviceNumber: int, useExternalSNAT: bool, vpcCIDRs: seq<string>)

  datatype DelNetworkReply = DelNetworkReply(success: bool, ipv4Addr: IP, deviceNumber: int)

  class Server {
    const dataStore: DataStore

    constructor (dataStore: DataStore)
      ensures this.dataStore == dataStore
    {
      this.dataStore := dataStore;
    }

    /** A request never names an address; the reply carries the CIDRs that are reached without SNAT. */
    method AddNetwork(key: PodKey, now: Time, cidrs: seq<string>, useExternalSNAT: bool, exclude: seq<string>)
        returns (reply: AddNetworkReply, ghost r: Reply)
      requires dataStore.Valid()
      modifies dataStore
      ensures dataStore.Valid() && AssignPod(old(dataStore.State()), PodInfo(key, ""), now, dataStore.State(), r)
      ensures reply.success <==> r.Granted?
      ensures reply.success ==> reply.ipv4Addr == r.ip && reply.deviceNumber == r.deviceNumber
      ensures !reply.success ==> reply.ipv4Addr == "" && reply.deviceNumber == 0
      ensures reply.useExternalSNAT == useExternalSNAT
      ensures reply.vpcCIDRs == cidrs + if useExternalSNAT then [] else exclude
    {
      var answer := dataStore.AssignPodIPv4Address(PodInfo(key, ""), now);
      r := answer;
      var all := [];
      for i := 0 to |cidrs|
        invariant all == cidrs[..i]
      {
        all := all + [cidrs[i]];
      }
      if !useExternalSNAT {
        for i := 0 to |exclude|
          invariant all == cidrs + exclude[..i]
        {
          all := all + [exclude[i]];
        }
      }
      match answer
      case Granted(ip, device) =>
        reply := AddNetworkReply(true, ip, device, useExternalSNAT, all);
      case Refused(_) =>
        reply := AddNetworkReply(false, "", 0, useExternalSNAT, all);
    }

    /**
     * Release under the pod's own key or, only if that is not indexed, under the key without container. A pod of a
     * sound store is always found and gets back what it was given; an unknown pod changes nothing.
     */
    method DelNetwork(key: PodKey, now: Time) returns (reply: DelNetworkReply)
      requires dataStore.Valid()
      modifies dataStore
      ensures dataStore.Valid()
      ensures !reply.success ==> reply == DelNetworkReply(false, "", 0)
      ensures Sound(old(dataStore.State())) ==> Sound(dataStore.State())
      ensures var s := old(dataStore.State());
              var k := if key in s.pods then key else PodKey(key.name, key.namespace, "");
              Sound(s) ==>
                && dataStore.podsIP == s.pods - {k}
                && reply.success == (k in s.pods)
                && (k in s.pods ==> reply == DelNetworkReply(true, s.pods[k].ip, s.pods[k].deviceNumber))
                && (k !in s.pods ==> dataStore.State() == s)
    {
      ghost var s := dataStore.State();
      var r := dataStore.UnassignPodIPv4Address(key, now);
      ghost var s1, r1 := dataStore.State(), r;
      if Sound(s) {
        UnassignPodSound(s, key, now, s1, r1);
      }
      if r == Refused(UnknownPod) {
        var byName := PodKey(key.name, key.namespace, "");
        r := dataStore.UnassignPodIPv4Address(byName, now);
        if Sound(s1) {
          UnassignPodSound(s1, byName, now, dataStore.State(), r);
        }
      }
      match r
      case Granted(ip, device) =>
        reply := DelNetworkReply(true, ip, device);
      case Refused(_) =>
        reply := DelNetworkReply(false, "", 0);
    }
  }
}
