/**
  The port of a sidecar service: the one it was given, the one it already has, or the
  least one of the configured range that no registered service uses. The registered
  services are a map, which Go walks in no particular order.
 */
module Sidecar {
  import opened Ports

  datatype SidecarError = Disabled | NoneLeft

  /** A registered service's port is one of the range, bounds included. */
  predicate InRange(port: int, minPort: int, maxPort: int) {
    minPort <= port <= maxPort
  }

  /** The ports of the range that services use. */
  ghost function UsedPorts(services: map<string, int>, minPort: int, maxPort: int): set<int> {
    set id | id in services && InRange(services[id], minPort, maxPort) :: services[id]
  }

  lemma UsedStep(seen: map<string, int>, id: string, port: int, minPort: int, maxPort: int)
    requires id !in seen
    ensures UsedPorts(seen[id := port], minPort, maxPort)
         == UsedPorts(seen, minPort, maxPort) + if InRange(port, minPort, maxPort) then {port} else {}
  {
    var more := seen[id := port];
    forall p | p in UsedPorts(seen, minPort, maxPort) ensures p in UsedPorts(more, minPort, maxPort) {
      var other :| other in seen && seen[other] == p;
      assert more[other] == p;
    }
    if InRange(port, minPort, maxPort) {
      assert more[id] == port && port in UsedPorts(more, minPort, maxPort);
    }
  }

  /** A port of the range that no registered service has. */
  ghost predicate Unused(p: int, services: map<string, int>, minPort: int, maxPort: int) {
    InRange(p, minPort, maxPort) && p !in services.Values
  }

  /**
    Walks the services: stops at the sidecar's own entry if that has a port of the range,
    and otherwise has collected all used ports.
   */
  method ScanServices(services: map<string, int>, sidecarId: string, minPort: int, maxPort: int)
    returns (mine: bool, port: int, used: set<int>)
    ensures mine <==> sidecarId in services && InRange(services[sidecarId], minPort, maxPort)
    ensures mine ==> port == services[sidecarId]
    ensures !mine ==> used == UsedPorts(services, minPort, maxPort)
  {
    used := {};
    var todo := services.Keys;
    ghost var seen: map<string, int> := map[];
    while todo != {}
      invariant todo <= services.Keys && seen == services - todo
      invariant used == UsedPorts(seen, minPort, maxPort)
      invariant sidecarId in seen ==> !InRange(seen[sidecarId], minPort, maxPort)
      decreases todo
    {
      var id :| id in todo;
      todo := todo - {id};
      if InRange(services[id], minPort, maxPort) {
        if id == sidecarId {
          return true, services[id], used;
        }
        used := used + {services[id]};
      }
      UsedStep(seen, id, services[id], minPort, maxPort);
      seen := seen[id := services[id]];
    }
    assert seen == services;
    return false, 0, used;
  }

  /** The port the sidecar asks for, keeps or is assigned, whatever the order of the walk. */
  method AssignPort(services: map<string, int>, sidecarId: string, wanted: int, minPort: int, maxPort: int)
    returns (r: Result<SidecarError>)
    ensures wanted >= 1 ==> r == Ok(wanted)
    ensures wanted < 1 && minPort >= 1 ==>
              if sidecarId in services && InRange(services[sidecarId], minPort, maxPort)
              then r == Ok(services[sidecarId])
              else r.Ok? <==> exists p :: Unused(p, services, minPort, maxPort)
    ensures wanted < 1 && r.Ok? ==>
              minPort >= 1 && InRange(r.port, minPort, maxPort)
    ensures wanted < 1 && r.Ok? && !(sidecarId in services && services[sidecarId] == r.port) ==>
              && Unused(r.port, services, minPort, maxPort)
              && forall q :: Unused(q, services, minPort, maxPort) ==> r.port <= q
    ensures r.Err? ==> wanted < 1 && r.error == if minPort < 1 || maxPort < 1 then Disabled else NoneLeft
  {
    var port := wanted;
    var rangeLen := maxPort - minPort + 1;
    if port < 1 && minPort > 0 && rangeLen > 0 {
      var mine, own, used := ScanServices(services, sidecarId, minPort, maxPort);
      if mine {
        port := own;
      } else {
        UsedIsTaken(services, minPort, maxPort);
        var found, p := LowestFree(minPort, maxPort + 1, used);
        assert forall q :: Unused(q, services, minPort, maxPort) ==> Free(q, minPort, maxPort + 1, used);
        if found {
          port := p;
        }
      }
    }
    if port < 1 {
      return Err(if minPort < 1 || maxPort < 1 then Disabled else NoneLeft);
    }
    return Ok(port);
  }

  /** Inside the range, the collected ports are the ports of all services. */
  lemma UsedIsTaken(services: map<string, int>, minPort: int, maxPort: int)
    ensures forall p :: Unused(p, services, minPort, maxPort)
                   <==> InRange(p, minPort, maxPort) && p !in UsedPorts(services, minPort, maxPort)
  {
  }
}
