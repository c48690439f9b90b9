/** The admission controller, the connection lease and the handlers that pair them, as they update
    their fields when no other call comes in between (lib/net/net_mgr/admission.go,
    lib/net/net_mgr/conn_lease.go, lib/net/net_mgr/tcp_impl.go). Interleavings are in module Admission. */
module AdmissionControl {

  class ConnLease {
    var admitted: set<int>

    constructor ()
      ensures admitted == {}
    {
      admitted := {};
    }

    method MarkAdmitted(conn: int)
      modifies this
      ensures admitted == old(admitted) + {conn}
    {
      admitted := admitted + {conn};
    }

    /** True exactly for a connection that was marked and not yet taken. */
    method TakeIfAdmitted(conn: int) returns (ok: bool)
      modifies this
      ensures ok == (conn in old(admitted)) && admitted == old(admitted) - {conn}
    {
      ok := conn in admitted;
      if ok {
        admitted := admitted - {conn};
      }
    }
  }

  class AdmissionController {
    const maxConnections: int
    var reservedConns: int
    var inflight: int
    /** Created on first use, for methods with a limit. */
    var methodInflight: map<int, int>

    constructor (maxConnections: int)
      requires maxConnections > 0
      ensures this.maxConnections == maxConnections
      ensures reservedConns == 0 && inflight == 0 && methodInflight == map[]
    {
      this.maxConnections := maxConnections;
      reservedConns, inflight, methodInflight := 0, 0, map[];
    }

    /** `open`: the hub accepts connections and the rate limiter has a token. */
    method TryAcquireConnection(open: bool) returns (ok: bool)
      modifies this`reservedConns
      ensures ok == (open && old(reservedConns) < maxConnections)
      ensures reservedConns == old(reservedConns) + if ok then 1 else 0
    {
      if !open {
        return false;
      }
      var cur := reservedConns;
      if cur >= maxConnections {
        return false;
      }
      reservedConns := cur + 1;
      return true;
    }

    method ReleaseConnection()
      modifies this`reservedConns
      ensures reservedConns == if old(reservedConns) > 0 then old(reservedConns) - 1 else old(reservedConns)
    {
      var cur := reservedConns;
      if cur <= 0 {
        return;
      }
      reservedConns := cur - 1;
    }

    function Inflight(name: int): int
      reads this
    {
      if name in methodInflight then methodInflight[name] else 0
    }

    /** Takes a global slot and, for a limited method, one of its own; a full method gives the global
        slot back, so a refusal leaves every count as it was. */
    method TryAcquireInflight(name: int, globalLimit: int, methodLimit: int) returns (ok: bool)
      modifies this`inflight, this`methodInflight
      ensures ok == ((globalLimit > 0 ==> old(inflight) < globalLimit)
                     && (methodLimit > 0 ==> old(Inflight(name)) < methodLimit))
      ensures inflight == old(inflight) + if ok && (globalLimit > 0 || methodLimit > 0) then 1 else 0
      ensures Inflight(name) == old(Inflight(name)) + if ok && methodLimit > 0 then 1 else 0
      ensures forall m :: m != name ==> Inflight(m) == old(Inflight(m)) && (m in methodInflight <==> m in old(methodInflight))
      ensures name in methodInflight ==> methodLimit > 0 || name in old(methodInflight)
      ensures ok && methodLimit > 0 ==> name in methodInflight
    {
      if globalLimit <= 0 && methodLimit <= 0 {
        return true;
      }
      if globalLimit > 0 {
        var cur := inflight;
        if cur >= globalLimit {
          return false;
        }
        inflight := cur + 1;
      } else {
        inflight := inflight + 1;
      }
      if methodLimit > 0 {
        if name !in methodInflight {
          methodInflight := methodInflight[name := 0];
        }
        var cur := methodInflight[name];
        if cur >= methodLimit {
          inflight := inflight - 1;
          return false;
        }
        methodInflight := methodInflight[name := cur + 1];
      }
      return true;
    }

    method ReleaseInflight(name: int)
      modifies this`inflight, this`methodInflight
      ensures inflight == if old(inflight) > 0 then old(inflight) - 1 else old(inflight)
      ensures name in methodInflight <==> name in old(methodInflight)
      ensures Inflight(name) == old(Inflight(name)) - if old(Inflight(name)) > 0 then 1 else 0
      ensures forall m :: m != name ==> Inflight(m) == old(Inflight(m))
    {
      if name in methodInflight {
        var cur := methodInflight[name];
        if cur > 0 {
          methodInflight := methodInflight[name := cur - 1];
        }
      }
      var cur := inflight;
      if cur <= 0 {
        return;
      }
      inflight := cur - 1;
    }

    /** What the middleware does around a handler: acquire, and release exactly when acquired. Whatever
        the limits, every count is afterwards what it was. */
    method Around(name: int, globalLimit: int, methodLimit: int) returns (handled: bool)
      requires inflight >= 0 && forall m :: m in methodInflight ==> methodInflight[m] >= 0
      requires name in methodInflight ==> methodLimit > 0
      modifies this`inflight, this`methodInflight
      ensures inflight == old(inflight) && forall m :: Inflight(m) == old(Inflight(m))
      ensures handled == ((globalLimit > 0 ==> old(inflight) < globalLimit)
                          && (methodLimit > 0 ==> old(Inflight(name)) < methodLimit))
    {
      if globalLimit > 0 || methodLimit > 0 {
        handled := TryAcquireInflight(name, globalLimit, methodLimit);
        if handled {
          ReleaseInflight(name);
        }
      } else {
        handled := true;
      }
    }
  }

  class ConnTcpSvr {
    const lease: ConnLease
    const admission: AdmissionController
    var activeConnections: int

    /** The counts are those of the connections that were admitted and not yet closed. */
    ghost predicate Valid()
      reads this, lease, admission
    {
      && admission.reservedConns == |lease.admitted| <= admission.maxConnections
      && activeConnections == |lease.admitted|
    }

    constructor (maxConnections: int)
      requires maxConnections > 0
      ensures Valid() && lease.admitted == {} && fresh(lease) && fresh(admission)
      ensures admission.maxConnections == maxConnections
    {
      lease := new ConnLease();
      admission := new AdmissionController(maxConnections);
      activeConnections := 0;
    }

    /** Admits a new connection exactly when the gate is open and a slot is left. */
    method OnConn(conn: int, open: bool) returns (admitted: bool)
      requires Valid() && conn !in lease.admitted
      modifies this, lease, admission`reservedConns
      ensures Valid()
      ensures admitted == (open && |old(lease.admitted)| < admission.maxConnections)
      ensures lease.admitted == if admitted then old(lease.admitted) + {conn} else old(lease.admitted)
    {
      admitted := admission.TryAcquireConnection(open);
      if !admitted {
        return;
      }
      lease.MarkAdmitted(conn);
      activeConnections := activeConnections + 1;
    }

    /** Gives back exactly what an admitted connection holds; a repeated or refused one holds nothing. */
    method OnClose(conn: int)
      requires Valid()
      modifies this, lease, admission`reservedConns
      ensures Valid() && lease.admitted == old(lease.admitted) - {conn}
    {
      var taken := lease.TakeIfAdmitted(conn);
      if taken {
        activeConnections := activeConnections - 1;
        admission.ReleaseConnection();
      }
    }
  }
}
