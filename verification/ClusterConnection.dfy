/** The hash ring's members as text, on the way in and on the way out. */
module ClusterConnection {
  import opened NodeCodec

  /** `texts` prints `services`, node by node. */
  ghost predicate Prints(texts: seq<string>, services: seq<ServingService>) {
    |texts| == |services| && forall i :: 0 <= i < |services| ==> texts[i] == ToString(services[i])
  }

  /** The member list that `clusterUpdated` hands to the ring. */
  method ClusterUpdated(memberships: seq<ServingService>) returns (services: array<string>)
    ensures fresh(services) && Prints(services[..], memberships)
  {
    services := new string[|memberships|];
    for m := 0 to |memberships|
      invariant forall i :: 0 <= i < m ==> services[i] == ToString(memberships[i])
    {
      services[m] := ToString(memberships[m]);
    }
  }

  /** `nodes` is what the ring answers. */
  method FindNodeForKey(nodes: seq<string>) returns (services: seq<ServingService>, panicked: bool)
    ensures panicked <==> exists n :: 0 <= n < |nodes| && FromString(nodes[n]).Panic?
    ensures !panicked ==> |services| == |nodes|
    ensures forall n :: 0 <= n < |services| ==>
      n < |nodes| && services[n] == (if FromString(nodes[n]).Service? then FromString(nodes[n]).service
                                     else ServingService("", 0, 0))
  {
    services := [];
    panicked := false;
    var n := 0;
    while n < |nodes|
      invariant 0 <= n <= |nodes| && |services| == n
      invariant forall i :: 0 <= i < n ==> !FromString(nodes[i]).Panic?
      invariant forall i :: 0 <= i < n ==>
        services[i] == (if FromString(nodes[i]).Service? then FromString(nodes[i]).service
                        else ServingService("", 0, 0))
    {
      var s := FromString(nodes[n]);
      if s.Panic? {
        return services, true;
      }
      services := services + [if s.Service? then s.service else ServingService("", 0, 0)];
      n := n + 1;
    }
  }

  /** Whatever members the ring picks, they are read back as the nodes that were put in. */
  lemma RingRoundTrip(memberships: seq<ServingService>, members: seq<string>, text: string)
    requires forall s :: s in memberships ==> ValidPorts(s) && ':' !in s.host
    requires Prints(members, memberships) && text in members
    ensures FromString(text).Service? && FromString(text).service in memberships
    ensures ToString(FromString(text).service) == text
  {
    var i :| 0 <= i < |members| && members[i] == text;
    RoundTrip(memberships[i]);
  }
}
