/** The session hub shared by the transports (lib/net/net_mgr/session_hub.go): which connection serves
    which uid, taking each bind and each removal as one step. */
module SessionHub {
  import opened Options

  type Conn = nat
  type Address = string

  datatype Client = Client(uid: nat, zone: nat, conn: Conn, addr: Address)

  /** The maps of the hub. `addrOf` and `parses` say what a connection's remote address is and whether
      it can be split into host and port. */
  datatype Hub = Hub(
    addrOf: Conn -> Address,
    parses: Address -> bool,
    accepting: bool,
    clients: map<nat, Client>,
    uids: map<Conn, nat>,
    conns: map<Address, Conn>,
    kicks: set<Address>,
    sessions: int)

  datatype BindResult = Bound(client: Client, replaced: Option<Client>) | BadAddress | Closing

  function Bind(h: Hub, conn: Conn, uid: nat, zone: nat): (Hub, BindResult) {
    var addr := h.addrOf(conn);
    if !h.parses(addr) then (h, BadAddress)
    else if !h.accepting then (h, Closing)
    else
      var client := Client(uid, zone, conn, addr);
      (h.(clients := h.clients[uid := client],
          uids := h.uids[conn := uid],
          conns := h.conns[addr := conn],
          sessions := if uid in h.clients then h.sessions else h.sessions + 1),
       Bound(client, if uid in h.clients then Some(h.clients[uid]) else None))
  }

  /** Returns the uid whose session ended, or 0, and whether it had been kicked. */
  function Remove(h: Hub, conn: Conn): (Hub, (nat, bool)) {
    if conn !in h.uids then (h, (0, false))
    else
      var uid, addr := h.uids[conn], h.addrOf(conn);
      var h1 := h.(conns := h.conns - {addr}, uids := h.uids - {conn});
      if !Current(h, conn) then (h1, (0, false))
      else
        (h1.(clients := h.clients - {uid}, kicks := h.kicks - {addr}, sessions := h.sessions - 1),
         (uid, addr in h.kicks))
  }

  /** `conn` is the connection its uid is served by now. */
  predicate Current(h: Hub, conn: Conn) {
    conn in h.uids && h.uids[conn] in h.clients && h.clients[h.uids[conn]].conn == conn
  }

  predicate ClientOk(h: Hub, uid: nat) {
    uid in h.clients ==>
      var c := h.clients[uid];
      && c.uid == uid && c.addr == h.addrOf(c.conn)
      && c.conn in h.uids && h.uids[c.conn] == uid
  }

  /** The maps agree, the address map is the inverse of addrOf on the known connections, and sessions
      counts the bound uids. */
  ghost predicate Consistent(h: Hub) {
    && (forall uid {:trigger ClientOk(h, uid)} :: ClientOk(h, uid))
    && (forall conn :: conn in h.uids ==> h.addrOf(conn) in h.conns && h.conns[h.addrOf(conn)] == conn)
    && (forall addr :: addr in h.conns ==> h.conns[addr] in h.uids && h.addrOf(h.conns[addr]) == addr)
    && h.sessions == |h.clients|
  }

  /** The connection is not the one serving another uid. */
  predicate OneUid(h: Hub, conn: Conn, uid: nat) {
    Current(h, conn) ==> h.uids[conn] == uid
  }

  /** No other known connection has this address. */
  predicate OwnAddress(h: Hub, conn: Conn) {
    h.addrOf(conn) in h.conns ==> h.conns[h.addrOf(conn)] == conn
  }

  /** A bind keeps the maps consistent exactly when the connection does not serve another uid and
      shares its address with no other. */
  lemma BindKeeps(h: Hub, conn: Conn, uid: nat, zone: nat)
    requires Consistent(h)
    ensures var (h', result) := Bind(h, conn, uid, zone);
            && (result.BadAddress? <==> !h.parses(h.addrOf(conn)))
            && (result.Closing? <==> h.parses(h.addrOf(conn)) && !h.accepting)
            && (!result.Bound? ==> h' == h)
            && (result.Bound? ==>
                  && result.client == Client(uid, zone, conn, h.addrOf(conn))
                  && (result.replaced.Some? <==> uid in h.clients)
                  && (uid in h.clients ==> result.replaced.value == h.clients[uid]))
            && (result.Bound? ==> (Consistent(h') <==> OneUid(h, conn, uid) && OwnAddress(h, conn)))
  {
    var (h', result) := Bind(h, conn, uid, zone);
    if result.Bound? {
      if OneUid(h, conn, uid) && OwnAddress(h, conn) {
        forall u
          ensures ClientOk(h', u)
        {
          assert ClientOk(h, u);
        }
        CountAfterBind(h.clients, uid, result.client);
      } else if !OneUid(h, conn, uid) {
        assert ClientOk(h, h.uids[conn]);
        assert !ClientOk(h', h.uids[conn]);
      } else {
        var other := h.conns[h.addrOf(conn)];
        assert other in h'.uids && h'.conns[h'.addrOf(other)] != other;
      }
    }
  }

  lemma CountAfterBind(m: map<nat, Client>, uid: nat, c: Client)
    ensures |m[uid := c]| == if uid in m then |m| else |m| + 1
  {
    assert m[uid := c].Keys == m.Keys + {uid};
    MapSize(m);
    MapSize(m[uid := c]);
  }

  lemma MapSize(m: map<nat, Client>)
    ensures |m| == |m.Keys|
  {
  }

  lemma RemoveKeeps(h: Hub, conn: Conn)
    requires Consistent(h)
    ensures Consistent(Remove(h, conn).0)
  {
    var h' := Remove(h, conn).0;
    if conn in h.uids {
      forall u
        ensures ClientOk(h', u)
      {
        assert ClientOk(h, u);
        assert ClientOk(h, h.uids[conn]);
      }
      assert h'.clients.Keys == if Current(h, conn) then h.clients.Keys - {h.uids[conn]} else h.clients.Keys;
      MapSize(h.clients);
      MapSize(h'.clients);
    }
  }

  /** The late close of a connection that was replaced changes neither any binding nor the count, and
      asks for no logout; closing the current one ends exactly its session. */
  lemma LateClose(h: Hub, conn: Conn)
    requires Consistent(h)
    ensures var (h', (uid, kicked)) := Remove(h, conn);
            && (!Current(h, conn) ==>
                  h'.clients == h.clients && h'.sessions == h.sessions && h'.kicks == h.kicks && uid == 0 && !kicked)
            && (Current(h, conn) ==>
                  && uid == h.uids[conn] && h'.clients == h.clients - {uid} && h'.sessions == h.sessions - 1
                  && (kicked <==> h.addrOf(conn) in h.kicks) && h.addrOf(conn) !in h'.kicks)
            && (forall other :: other != conn ==> (other in h'.uids <==> other in h.uids)
                                                  && (Current(h', other) <==> Current(h, other)))
            && conn !in h'.uids
  {
    var h' := Remove(h, conn).0;
    forall other | other != conn
      ensures Current(h', other) <==> Current(h, other)
    {
      if other in h.uids {
        assert ClientOk(h, h.uids[other]);
      }
    }
  }

  /** Binding a uid anew replaces its connection without a new session; the replaced connection is
      then no longer current, so its late close is harmless. */
  lemma Rebind(h: Hub, conn: Conn, uid: nat, zone: nat)
    requires Consistent(h) && h.accepting && h.parses(h.addrOf(conn)) && uid in h.clients
    requires OneUid(h, conn, uid) && OwnAddress(h, conn)
    ensures var (h', result) := Bind(h, conn, uid, zone);
            && result.replaced == Some(h.clients[uid]) && h'.sessions == h.sessions && Current(h', conn)
            && var previous := h.clients[uid].conn;
               (previous != conn ==>
                  && !Current(h', previous)
                  && Remove(h', previous).0.clients == h'.clients && Remove(h', previous).0.sessions == h.sessions
                  && Remove(h', previous).1 == (0, false))
  {
    assert ClientOk(h, uid);
    BindKeeps(h, conn, uid, zone);
  }

  // ---- runs -------------------------------------------------------------------------------------------------

  datatype Op = DoBind(conn: Conn, uid: nat, zone: nat) | DoRemove(conn: Conn) | DoKick(addr: Address) | DoQuiesce

  function Apply(h: Hub, op: Op): Hub {
    match op
    case DoBind(conn, uid, zone) => Bind(h, conn, uid, zone).0
    case DoRemove(conn) => Remove(h, conn).0
    case DoKick(addr) => h.(kicks := h.kicks + {addr})
    case DoQuiesce => h.(accepting := false)
  }

  /** Every connection is bound under one uid, and addresses are distinct. */
  predicate Proper(h: Hub, op: Op) {
    op.DoBind? ==> OneUid(h, op.conn, op.uid) && OwnAddress(h, op.conn)
  }

  ghost predicate Run(hs: seq<Hub>, ops: seq<Op>) {
    && |hs| == |ops| + 1 && Empty(hs[0])
    && forall i {:trigger StepAt(hs, ops, i)} :: 0 <= i < |ops| ==> StepAt(hs, ops, i)
  }

  ghost predicate StepAt(hs: seq<Hub>, ops: seq<Op>, i: int)
    requires |hs| == |ops| + 1 && 0 <= i < |ops|
  {
    Proper(hs[i], ops[i]) && hs[i + 1] == Apply(hs[i], ops[i])
  }

  predicate Empty(h: Hub) {
    h.accepting && h.clients == map[] && h.uids == map[] && h.conns == map[] && h.kicks == {} && h.sessions == 0
  }

  /** At every point of every run the maps agree and the count is the number of bound uids; once every
      connection has been closed no session is left; after Quiesce no uid is ever bound again. */
  lemma {:induction false} SessionsExact(hs: seq<Hub>, ops: seq<Op>, i: nat)
    requires Run(hs, ops) && i < |hs|
    ensures Consistent(hs[i]) && hs[i].sessions == |hs[i].clients|
    ensures hs[i].uids == map[] ==> hs[i].sessions == 0
    ensures i > 0 && !hs[i - 1].accepting ==> !hs[i].accepting && hs[i].clients.Keys <= hs[i - 1].clients.Keys
    decreases i
  {
    var h := hs[i];
    if i > 0 {
      SessionsExact(hs, ops, i - 1);
      assert StepAt(hs, ops, i - 1);
      var before, op := hs[i - 1], ops[i - 1];
      match op
      case DoBind(conn, uid, zone) => BindKeeps(before, conn, uid, zone);
      case DoRemove(conn) => RemoveKeeps(before, conn);
      case DoKick(addr) => SameMaps(before, h);
      case DoQuiesce => SameMaps(before, h);
    }
    if h.uids == map[] {
      forall uid
        ensures uid !in h.clients
      {
        assert ClientOk(h, uid);
      }
      assert h.clients == map[];
    }
  }

  lemma SameMaps(h: Hub, h': Hub)
    requires Consistent(h) && h' == h.(kicks := h'.kicks, accepting := h'.accepting)
    ensures Consistent(h')
  {
    forall uid
      ensures ClientOk(h', uid)
    {
      assert ClientOk(h, uid);
    }
  }

  // ---- whom a uid is served by -----------------------------------------------------------------------------

  /** By the history of the run: the client of the last accepted bind of the uid, unless its connection
      has been closed since. */
  ghost function LastBind(hs: seq<Hub>, ops: seq<Op>, i: nat, uid: nat): Option<Client>
    requires |hs| == |ops| + 1 && i < |hs|
  {
    if i == 0 then None
    else
      var h, before := hs[i - 1], LastBind(hs, ops, i - 1, uid);
      match ops[i - 1]
      case DoBind(conn, u, zone) =>
        if u == uid && h.accepting && h.parses(h.addrOf(conn)) then Some(Client(uid, zone, conn, h.addrOf(conn))) else before
      case DoRemove(conn) => if before.Some? && before.value.conn == conn then None else before
      case _ => before
  }

  /** At every point of every run the hub finds exactly that client for a uid: its zone, connection and
      address are those of the bind. */
  lemma {:induction false} ServedByLastBind(hs: seq<Hub>, ops: seq<Op>, i: nat, uid: nat)
    requires Run(hs, ops) && i < |hs|
    ensures LastBind(hs, ops, i, uid) == if uid in hs[i].clients then Some(hs[i].clients[uid]) else None
    decreases i
  {
    hide Proper, Consistent, Bind, Remove;
    if i > 0 {
      ServedByLastBind(hs, ops, i - 1, uid);
      assert StepAt(hs, ops, i - 1);
      SessionsExact(hs, ops, i - 1);
      match ops[i - 1]
      case DoBind(conn, u, zone) => ClientsAfterBind(hs[i - 1], conn, u, zone, uid);
      case DoRemove(conn) => ClientsAfterRemove(hs[i - 1], conn, uid);
      case _ =>
    }
  }

  lemma ClientsAfterBind(h: Hub, conn: Conn, u: nat, zone: nat, uid: nat)
    ensures var (h', accepted) := (Bind(h, conn, u, zone).0, u == uid && h.accepting && h.parses(h.addrOf(conn)));
            && (uid in h'.clients <==> uid in h.clients || accepted)
            && (uid in h'.clients ==>
                  h'.clients[uid] == if accepted then Client(uid, zone, conn, h.addrOf(conn)) else h.clients[uid])
  {
  }

  lemma ClientsAfterRemove(h: Hub, conn: Conn, uid: nat)
    requires Consistent(h)
    ensures var h' := Remove(h, conn).0;
            && (uid in h'.clients <==> uid in h.clients && h.clients[uid].conn != conn)
            && (uid in h'.clients ==> h'.clients[uid] == h.clients[uid])
  {
    assert ClientOk(h, uid);
  }

  // ---- what the kicked flag is worth -----------------------------------------------------------------------

  /** The connection is known, and its address was marked for a kick since it became known. */
  ghost predicate KickedSinceBound(hs: seq<Hub>, ops: seq<Op>, i: nat, conn: Conn)
    requires |hs| == |ops| + 1 && i < |hs|
  {
    && i > 0 && conn in hs[i].uids && conn in hs[i - 1].uids
    && (ops[i - 1] == DoKick(hs[i].addrOf(conn)) || KickedSinceBound(hs, ops, i - 1, conn))
  }

  /** The connection is known, and its address already carried a mark when it became known. */
  ghost predicate BoundOnMark(hs: seq<Hub>, ops: seq<Op>, i: nat, conn: Conn)
    requires |hs| == |ops| + 1 && i < |hs|
  {
    && i > 0 && conn in hs[i].uids
    && if conn in hs[i - 1].uids then BoundOnMark(hs, ops, i - 1, conn) else hs[i].addrOf(conn) in hs[i - 1].kicks
  }

  lemma {:induction false} MarkOfKnown(hs: seq<Hub>, ops: seq<Op>, i: nat, conn: Conn)
    requires Run(hs, ops) && i < |hs| && conn in hs[i].uids
    ensures hs[i].addrOf(conn) in hs[i].kicks <==> KickedSinceBound(hs, ops, i, conn) || BoundOnMark(hs, ops, i, conn)
    decreases i
  {
    hide Apply, Consistent, Proper;
    if i > 0 {
      assert StepAt(hs, ops, i - 1);
      SessionsExact(hs, ops, i - 1);
      if conn in hs[i - 1].uids {
        MarkOfKnown(hs, ops, i - 1, conn);
        OthersMarkStays(hs[i - 1], ops[i - 1], conn);
      } else {
        BindMarksNothing(hs[i - 1], ops[i - 1], conn);
      }
    }
  }

  lemma BindMarksNothing(h: Hub, op: Op, conn: Conn)
    requires conn !in h.uids && conn in Apply(h, op).uids
    ensures Apply(h, op).kicks == h.kicks && Apply(h, op).addrOf == h.addrOf
  {
  }

  lemma OthersMarkStays(h: Hub, op: Op, conn: Conn)
    requires Consistent(h) && Proper(h, op) && conn in h.uids && conn in Apply(h, op).uids
    ensures var h' := Apply(h, op);
            h'.addrOf == h.addrOf
            && (h.addrOf(conn) in h'.kicks <==> h.addrOf(conn) in h.kicks || op == DoKick(h.addrOf(conn)))
  {
    if op.DoRemove? && op.conn in h.uids {
      assert h.conns[h.addrOf(op.conn)] == op.conn && h.conns[h.addrOf(conn)] == conn;
    }
  }

  /** The close of a current connection is reported as kicked exactly when the connection was kicked, or
      was bound on an address that carried a left-over mark; so the report is right exactly when it was
      kicked or found no mark. */
  lemma KickReport(hs: seq<Hub>, ops: seq<Op>, i: nat, conn: Conn)
    requires Run(hs, ops) && i < |hs| && Current(hs[i], conn)
    ensures var (reported, kicked) := (Remove(hs[i], conn).1.1, KickedSinceBound(hs, ops, i, conn));
            && (reported <==> kicked || BoundOnMark(hs, ops, i, conn))
            && (reported == kicked <==> kicked || !BoundOnMark(hs, ops, i, conn))
  {
    MarkOfKnown(hs, ops, i, conn);
  }

  /** Connections 1 and 3 use one address after the other. */
  function SharedAddress(conn: Conn): Address {
    if conn == 2 then "b" else "a"
  }

  /** Connection 1 is kicked but replaced before it closes; connection 3, never kicked, gets its address. */
  function HauntedOps(): seq<Op> {
    [DoBind(1, 10, 0), DoKick("a"), DoBind(2, 10, 0), DoRemove(1), DoBind(3, 20, 0)]
  }

  function NewHub(): Hub {
    Hub(SharedAddress, _ => true, true, map[], map[], map[], {}, 0)
  }

  /** The first three steps leave the mark of a connection that is current no more. */
  lemma Replaced() returns (h1: Hub, h2: Hub, h3: Hub)
    ensures Proper(NewHub(), HauntedOps()[0]) && h1 == Apply(NewHub(), HauntedOps()[0])
    ensures Proper(h1, HauntedOps()[1]) && h2 == Apply(h1, HauntedOps()[1])
    ensures Proper(h2, HauntedOps()[2]) && h3 == Apply(h2, HauntedOps()[2])
    ensures h3 == NewHub().(clients := map[10 := Client(10, 0, 2, "b")], uids := map[1 := 10, 2 := 10],
                            conns := map["a" := 1, "b" := 2], kicks := {"a"}, sessions := 1)
  {
    h1 := Apply(NewHub(), HauntedOps()[0]);
    assert h1.uids == map[1 := 10] && h1.conns == map["a" := 1] && h1.clients == map[10 := Client(10, 0, 1, "a")];
    h2 := Apply(h1, HauntedOps()[1]);
    assert h2.kicks == {"a"};
    h3 := Apply(h2, HauntedOps()[2]);
    assert h3.uids == map[1 := 10, 2 := 10] && h3.clients == map[10 := Client(10, 0, 2, "b")];
    assert h3.conns == map["a" := 1, "b" := 2];
  }

  /** The last two steps: the replaced connection closes and the new one is bound. */
  lemma Haunted(h: Hub) returns (h': Hub, h'': Hub)
    requires h == NewHub().(clients := map[10 := Client(10, 0, 2, "b")], uids := map[1 := 10, 2 := 10],
                            conns := map["a" := 1, "b" := 2], kicks := {"a"}, sessions := 1)
    ensures Proper(h, HauntedOps()[3]) && h' == Apply(h, HauntedOps()[3])
    ensures Proper(h', HauntedOps()[4]) && h'' == Apply(h', HauntedOps()[4])
    ensures 3 !in h'.uids && Current(h'', 3) && Remove(h'', 3).1 == (20, true)
  {
    h' := Apply(h, HauntedOps()[3]);
    assert h'.uids == map[2 := 10] && h'.conns == map["b" := 2] && h'.kicks == {"a"};
    h'' := Apply(h', HauntedOps()[4]);
  }

  lemma FiveSteps(h0: Hub, h1: Hub, h2: Hub, h3: Hub, h4: Hub, h5: Hub, ops: seq<Op>)
    requires Empty(h0) && |ops| == 5
    requires Proper(h0, ops[0]) && h1 == Apply(h0, ops[0]) && Proper(h1, ops[1]) && h2 == Apply(h1, ops[1])
    requires Proper(h2, ops[2]) && h3 == Apply(h2, ops[2]) && Proper(h3, ops[3]) && h4 == Apply(h3, ops[3])
    requires Proper(h4, ops[4]) && h5 == Apply(h4, ops[4])
    ensures Run([h0, h1, h2, h3, h4, h5], ops)
  {
    hide Apply, Proper, Empty;
    var hs := [h0, h1, h2, h3, h4, h5];
    assert StepAt(hs, ops, 0) && StepAt(hs, ops, 1) && StepAt(hs, ops, 2) && StepAt(hs, ops, 3) && StepAt(hs, ops, 4);
  }

  /** Its close is reported as a kick. */
  lemma FalseKick() returns (hs: seq<Hub>)
    ensures Run(hs, HauntedOps()) && hs[0] == NewHub()
    ensures Current(hs[5], 3) && !KickedSinceBound(hs, HauntedOps(), 5, 3) && Remove(hs[5], 3).1 == (20, true)
  {
    hide Apply, Proper, Remove, Current, Run;
    var h1, h2, h3 := Replaced();
    var h4, h5 := Haunted(h3);
    FiveSteps(NewHub(), h1, h2, h3, h4, h5, HauntedOps());
    hs := [NewHub(), h1, h2, h3, h4, h5];
  }

  // ---- the hub in place ------------------------------------------------------------------------------------

  class SessionHub {
    const addrOf: Conn -> Address
    const parses: Address -> bool
    var accepting: bool
    var uidConnMap: map<nat, Client>
    var connUidMap: map<Conn, nat>
    var remoteAddrConnMap: map<Address, Conn>
    var remoteAddrKickMap: set<Address>
    var sessions: int

    ghost function Abs(): Hub
      reads this
    {
      Hub(addrOf, parses, accepting, uidConnMap, connUidMap, remoteAddrConnMap, remoteAddrKickMap, sessions)
    }

    constructor (addrOf: Conn -> Address, parses: Address -> bool)
      ensures Empty(Abs()) && Consistent(Abs()) && this.addrOf == addrOf && this.parses == parses
    {
      this.addrOf, this.parses := addrOf, parses;
      accepting, sessions := true, 0;
      uidConnMap, connUidMap, remoteAddrConnMap, remoteAddrKickMap := map[], map[], map[], {};
    }

    method BindClient(conn: Conn, uid: nat, zone: nat) returns (result: BindResult)
      modifies this
      ensures (Abs(), result) == Bind(old(Abs()), conn, uid, zone)
    {
      var remoteAddr := addrOf(conn);
      if !parses(remoteAddr) {
        return BadAddress;
      }
      if !accepting {
        return Closing;
      }
      var client := Client(uid, zone, conn, remoteAddr);
      var replaced := None;
      var isNewUid := false;
      if uid in uidConnMap {
        replaced := Some(uidConnMap[uid]);
      } else {
        isNewUid := true;
      }
      connUidMap := connUidMap[conn := uid];
      uidConnMap := uidConnMap[uid := client];
      remoteAddrConnMap := remoteAddrConnMap[remoteAddr := conn];
      if isNewUid {
        sessions := sessions + 1;
      }
      return Bound(client, replaced);
    }

    method RemoveConn(conn: Conn) returns (uid: nat, kicked: bool)
      modifies this
      ensures (Abs(), (uid, kicked)) == Remove(old(Abs()), conn)
    {
      if conn !in connUidMap {
        return 0, false;
      }
      var remoteAddr := addrOf(conn);
      uid := connUidMap[conn];
      remoteAddrConnMap := remoteAddrConnMap - {remoteAddr};
      connUidMap := connUidMap - {conn};
      kicked := false;
      if uid in uidConnMap && uidConnMap[uid].conn == conn {
        uidConnMap := uidConnMap - {uid};
        if remoteAddr in remoteAddrKickMap {
          remoteAddrKickMap := remoteAddrKickMap - {remoteAddr};
          kicked := true;
        }
      } else {
        return 0, false;
      }
      sessions := sessions - 1;
      assert remoteAddrKickMap == old(remoteAddrKickMap) - {remoteAddr};
    }

    method MarkKick(remoteAddr: Address)
      modifies this`remoteAddrKickMap
      ensures Abs() == Apply(old(Abs()), DoKick(remoteAddr))
    {
      remoteAddrKickMap := remoteAddrKickMap + {remoteAddr};
    }

    method Quiesce()
      modifies this`accepting
      ensures Abs() == Apply(old(Abs()), DoQuiesce)
    {
      accepting := false;
    }
  }
}
