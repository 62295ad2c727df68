/** Summarising the socket table (`summarize` in src/agent/netintel.rs). */
module NetIntel {
  import opened Wrappers
  import opened Sequences
  import opened Text

  datatype Connection = Connection(
    proto: string, localAddr: string, localPort: nat, remoteAddr: Option<string>, remotePort: Option<nat>,
    state: string, pid: nat, process: string, unit: Option<string>)

  predicate IsListener(c: Connection) {
    c.state == "listen" || ("udp" <= c.proto && c.remoteAddr.None?)
  }

  /** An established flow to somewhere else. */
  predicate Outbound(c: Connection) {
    && c.state == "established" && c.remoteAddr.Some? && c.remotePort.Some?
    && c.remoteAddr.value !in {"127.0.0.1", "::1", "0.0.0.0"}
  }

  datatype Edge = Edge(process: string, unit: Option<string>, destination: string)

  function Destination(addr: string, port: nat): string {
    addr + ":" + Decimal(port)
  }

  function EdgeOf(c: Connection): Edge
    requires Outbound(c)
  {
    Edge(c.process, c.unit, Destination(c.remoteAddr.value, c.remotePort.value))
  }

  datatype Summary = Summary(
    listeners: seq<Connection>, connections: seq<Connection>, egress: map<Edge, nat>,
    established: nat, listening: nat, uniqueRemotes: nat)

  // ---- What the summary should say -------------------------------------------------

  function Keep(all: seq<Connection>, listening: bool): seq<Connection> {
    if all == [] then []
    else Keep(all[..|all| - 1], listening) + (if IsListener(all[|all| - 1]) == listening then [all[|all| - 1]] else [])
  }

  /** How many flows go over an edge. */
  ghost function FlowsOver(cs: seq<Connection>, e: Edge): nat {
    if cs == [] then 0
    else FlowsOver(cs[..|cs| - 1], e) + (if Outbound(cs[|cs| - 1]) && EdgeOf(cs[|cs| - 1]) == e then 1 else 0)
  }

  /** An established connection with a remote address and port, the address none of the three
      local ones. */
  ghost predicate LeavesHost(c: Connection) {
    match (c.remoteAddr, c.remotePort)
    case (Some(addr), Some(_)) => c.state == "established" && addr != "127.0.0.1" && addr != "::1" && addr != "0.0.0.0"
    case _ => false
  }

  lemma OutboundExactly(c: Connection)
    ensures Outbound(c) <==> LeavesHost(c)
  {
  }

  /** Listening, or UDP with no other end. */
  ghost predicate Waits(c: Connection) {
    c.state == "listen" || (|c.proto| >= 3 && c.proto[0] == 'u' && c.proto[1] == 'd' && c.proto[2] == 'p' && c.remoteAddr.None?)
  }

  lemma ListenerExactly(c: Connection)
    ensures IsListener(c) <==> Waits(c)
  {
  }

  ghost function OutboundFlows(cs: seq<Connection>): nat {
    if cs == [] then 0 else OutboundFlows(cs[..|cs| - 1]) + (if LeavesHost(cs[|cs| - 1]) then 1 else 0)
  }

  ghost function Established(cs: seq<Connection>): nat {
    if cs == [] then 0 else Established(cs[..|cs| - 1]) + (if cs[|cs| - 1].state == "established" then 1 else 0)
  }

  function Remotes(cs: seq<Connection>): set<string> {
    set c | c in cs && Outbound(c) :: c.remoteAddr.value
  }

  function Edges(cs: seq<Connection>): set<Edge> {
    set c | c in cs && Outbound(c) :: EdgeOf(c)
  }

  /** One more flow over an edge. */
  function Bump(egress: map<Edge, nat>, e: Edge): map<Edge, nat> {
    egress[e := (if e in egress then egress[e] else 0) + 1]
  }

  /** Exactly the edges some flow goes over, each with its number of flows. */
  ghost predicate CountsOf(cs: seq<Connection>, egress: map<Edge, nat>) {
    egress.Keys == Edges(cs) && forall e :: e in egress ==> egress[e] == FlowsOver(cs, e)
  }

  ghost predicate Summarizes(all: seq<Connection>, s: Summary) {
    && s.listeners == Keep(all, true) && s.connections == Keep(all, false)
    && s.established == Established(s.connections) && s.listening == |s.listeners|
    && s.uniqueRemotes == |Remotes(s.connections)|
    && CountsOf(s.connections, s.egress)
  }

  // ---- Summarising -------------------------------------------------------------------

  method Partition(all: seq<Connection>) returns (listeners: seq<Connection>, connections: seq<Connection>)
    ensures listeners == Keep(all, true) && connections == Keep(all, false)
  {
    listeners, connections := [], [];
    for i := 0 to |all|
      invariant listeners == Keep(all[..i], true) && connections == Keep(all[..i], false)
    {
      assert all[..i + 1][..i] == all[..i];
      if IsListener(all[i]) {
        listeners := listeners + [all[i]];
      } else {
        connections := connections + [all[i]];
      }
    }
    assert all[..|all|] == all;
  }

  method Summarize(all: seq<Connection>) returns (s: Summary)
    ensures Summarizes(all, s)
  {
    var listeners, connections := Partition(all);
    var edges: map<Edge, nat>, remotes: set<string>, established := map[], {}, 0;
    for i := 0 to |connections|
      invariant established == Established(connections[..i])
      invariant remotes == Remotes(connections[..i])
      invariant CountsOf(connections[..i], edges)
    {
      var c := connections[i];
      OneMore(connections, i);
      OneMoreFlow(connections[..i], c, edges);
      assert connections[..i + 1] == connections[..i] + [c];
      if c.state == "established" {
        established := established + 1;
      }
      if c.remoteAddr.None? || c.remotePort.None? {
        continue;
      }
      if c.remoteAddr.value in {"127.0.0.1", "::1", "0.0.0.0"} {
        continue;
      }
      if c.state != "established" {
        continue;
      }
      remotes := remotes + {c.remoteAddr.value};
      edges := Bump(edges, EdgeOf(c));
    }
    assert connections[..|connections|] == connections;
    s := Summary(listeners, connections, edges, established, |listeners|, |remotes|);
  }

  lemma OneMore(cs: seq<Connection>, i: nat)
    requires i < |cs|
    ensures var c, before, after := cs[i], cs[..i], cs[..i + 1];
            && Established(after) == Established(before) + (if c.state == "established" then 1 else 0)
            && Remotes(after) == Remotes(before) + (if Outbound(c) then {c.remoteAddr.value} else {})
  {
    assert cs[..i + 1] == cs[..i] + [cs[i]];
    assert (cs[..i] + [cs[i]])[..i] == cs[..i];
  }

  lemma EdgesMore(before: seq<Connection>, c: Connection)
    ensures Edges(before + [c]) == Edges(before) + (if Outbound(c) then {EdgeOf(c)} else {})
  {
  }

  lemma FlowsMore(before: seq<Connection>, c: Connection, e: Edge)
    ensures FlowsOver(before + [c], e) == FlowsOver(before, e) + (if Outbound(c) && EdgeOf(c) == e then 1 else 0)
  {
    assert (before + [c])[..|before|] == before;
  }

  lemma OneMoreFlow(before: seq<Connection>, c: Connection, egress: map<Edge, nat>)
    requires CountsOf(before, egress)
    ensures CountsOf(before + [c], if Outbound(c) then Bump(egress, EdgeOf(c)) else egress)
  {
    EdgesMore(before, c);
    forall e ensures FlowsOver(before + [c], e) == FlowsOver(before, e) + (if Outbound(c) && EdgeOf(c) == e then 1 else 0) {
      FlowsMore(before, c, e);
    }
    if Outbound(c) && EdgeOf(c) !in egress {
      NoFlows(before, EdgeOf(c));
    }
  }

  lemma {:induction false} NoFlows(cs: seq<Connection>, e: Edge)
    requires e !in Edges(cs)
    ensures FlowsOver(cs, e) == 0
  {
    if cs != [] {
      NoFlows(cs[..|cs| - 1], e);
    }
  }

  // ---- What the numbers mean -------------------------------------------------------------

  /** Two flows share an edge exactly when process, unit, address and port agree:
      `address:port` can be read back, even for addresses with colons in them. */
  lemma SameEdgeExactly(a: Connection, b: Connection)
    requires Outbound(a) && Outbound(b)
    ensures EdgeOf(a) == EdgeOf(b)
         <==> && a.process == b.process && a.unit == b.unit
              && a.remoteAddr == b.remoteAddr && a.remotePort == b.remotePort
  {
    if EdgeOf(a) == EdgeOf(b) {
      ReadBack(a.remoteAddr.value, a.remotePort.value);
      ReadBack(b.remoteAddr.value, b.remotePort.value);
      DecimalValue(a.remotePort.value);
      DecimalValue(b.remotePort.value);
    }
  }

  /** Where the last colon is, or the length when there is none. */
  function LastColon(s: string): (i: nat)
    ensures i <= |s|
  {
    if s == "" then 0
    else if s[|s| - 1] == ':' then |s| - 1
    else var i := LastColon(s[..|s| - 1]); if i == |s| - 1 then |s| else i
  }

  lemma {:induction false} LastColonAt(addr: string, rest: string)
    requires ':' !in rest
    ensures LastColon(addr + ":" + rest) == |addr|
  {
    var s := addr + ":" + rest;
    if rest != "" {
      LastColonAt(addr, rest[..|rest| - 1]);
      assert s[..|s| - 1] == addr + ":" + rest[..|rest| - 1];
      assert s[|s| - 1] == rest[|rest| - 1];
    }
  }

  lemma ReadBack(addr: string, port: nat)
    ensures var d := Destination(addr, port); var i := LastColon(d);
            i < |d| && d[..i] == addr && d[i + 1..] == Decimal(port)
  {
    assert ':' !in Decimal(port);
    LastColonAt(addr, Decimal(port));
  }

  /** The sum of the counts on all edges. */
  ghost function Total(egress: map<Edge, nat>): nat {
    if egress.Keys == {} then 0
    else var e :| e in egress; egress[e] + Total(egress - {e})
  }

  lemma {:induction false} TotalWithout(egress: map<Edge, nat>, e: Edge)
    requires e in egress
    ensures Total(egress) == egress[e] + Total(egress - {e})
    decreases |egress.Keys|
  {
    var f :| f in egress && Total(egress) == egress[f] + Total(egress - {f});
    if f != e {
      TotalWithout(egress - {f}, e);
      TotalWithout(egress - {e}, f);
      assert egress - {f} - {e} == egress - {e} - {f};
    }
  }

  lemma TotalBump(egress: map<Edge, nat>, e: Edge)
    ensures Total(Bump(egress, e)) == Total(egress) + 1
  {
    var more := Bump(egress, e);
    TotalWithout(more, e);
    if e in egress {
      TotalWithout(egress, e);
      assert more - {e} == egress - {e};
    } else {
      assert more - {e} == egress;
    }
  }

  lemma CountsAgree(cs: seq<Connection>, a: map<Edge, nat>, b: map<Edge, nat>)
    requires CountsOf(cs, a) && CountsOf(cs, b)
    ensures a == b
  {
    assert a.Keys == b.Keys;
  }

  lemma {:induction false} SomeCounts(cs: seq<Connection>) returns (egress: map<Edge, nat>)
    ensures CountsOf(cs, egress) && Total(egress) == OutboundFlows(cs)
  {
    if cs == [] {
      egress := map[];
    } else {
      var before, c := cs[..|cs| - 1], cs[|cs| - 1];
      egress := SomeCounts(before);
      OneMoreFlow(before, c, egress);
      assert before + [c] == cs;
      if Outbound(c) {
        TotalBump(egress, EdgeOf(c));
        egress := Bump(egress, EdgeOf(c));
      }
    }
  }

  /** The counts over exactly the edges of some flows add up to the flows. */
  lemma TotalIsFlows(cs: seq<Connection>, egress: map<Edge, nat>)
    requires CountsOf(cs, egress)
    ensures Total(egress) == OutboundFlows(cs)
  {
    var counts := SomeCounts(cs);
    CountsAgree(cs, counts, egress);
  }

  lemma {:induction false} EachEdgeCounts(egress: map<Edge, nat>)
    requires forall e :: e in egress ==> egress[e] >= 1
    ensures |egress.Keys| <= Total(egress)
    decreases |egress.Keys|
  {
    if egress.Keys != {} {
      var e :| e in egress;
      TotalWithout(egress, e);
      EachEdgeCounts(egress - {e});
      assert (egress - {e}).Keys == egress.Keys - {e};
    }
  }

  lemma {:induction false} FlowsOverEdge(cs: seq<Connection>, e: Edge)
    requires e in Edges(cs)
    ensures FlowsOver(cs, e) >= 1
  {
    var before, c := cs[..|cs| - 1], cs[|cs| - 1];
    if !(Outbound(c) && EdgeOf(c) == e) {
      assert cs == before + [c];
      FlowsOverEdge(before, e);
    }
  }

  function AddressOf(e: Edge): string {
    e.destination[..LastColon(e.destination)]
  }

  lemma {:induction false} CoveredAddresses(es: set<Edge>, rs: set<string>)
    requires forall r :: r in rs ==> exists e :: e in es && AddressOf(e) == r
    ensures |rs| <= |es|
    decreases |rs|
  {
    if rs != {} {
      var r :| r in rs;
      var e :| e in es && AddressOf(e) == r;
      CoveredAddresses(es - {e}, rs - {r});
    }
  }

  /** Every remote address can be read off some edge. */
  lemma FewerRemotesThanEdges(cs: seq<Connection>)
    ensures |Remotes(cs)| <= |Edges(cs)|
  {
    forall r | r in Remotes(cs)
      ensures exists e :: e in Edges(cs) && AddressOf(e) == r
    {
      var c :| c in cs && Outbound(c) && c.remoteAddr.value == r;
      ReadBack(r, c.remotePort.value);
      assert EdgeOf(c) in Edges(cs) && AddressOf(EdgeOf(c)) == r;
    }
    CoveredAddresses(Edges(cs), Remotes(cs));
  }

  lemma {:induction false} EstablishedCoversOutbound(cs: seq<Connection>)
    ensures OutboundFlows(cs) <= Established(cs)
  {
    if cs != [] {
      EstablishedCoversOutbound(cs[..|cs| - 1]);
    }
  }

  lemma CountAppend<T>(s: seq<T>, x: T)
    ensures multiset(s + [x]) == multiset(s) + multiset{x}
  {
  }

  lemma KeepStep(all: seq<Connection>, listening: bool)
    requires all != []
    ensures var before, c := all[..|all| - 1], all[|all| - 1];
            multiset(Keep(all, listening))
            == multiset(Keep(before, listening)) + (if IsListener(c) == listening then multiset{c} else multiset{})
  {
    var before, c := all[..|all| - 1], all[|all| - 1];
    CountAppend(Keep(before, listening), c);
    assert Keep(before, listening) + [] == Keep(before, listening);
  }

  lemma OneSide<T>(a: multiset<T>, b: multiset<T>, all: multiset<T>, c: multiset<T>)
    requires a + b == all
    ensures (a + c) + b == all + c && a + (b + c) == all + c
  {
  }

  lemma {:induction false} KeepSplits(all: seq<Connection>)
    ensures multiset(Keep(all, true)) + multiset(Keep(all, false)) == multiset(all)
  {
    if all != [] {
      var before, c := all[..|all| - 1], all[|all| - 1];
      KeepSplits(before);
      KeepStep(all, true);
      KeepStep(all, false);
      assert all == before + [c];
      CountAppend(before, c);
      OneSide(multiset(Keep(before, true)), multiset(Keep(before, false)), multiset(before), multiset{c});
      NoneMore(multiset(Keep(before, IsListener(c) == false)));
    }
  }

  lemma LastOf<T>(a: seq<T>, b: seq<T>)
    requires b != []
    ensures (a + b)[..|a + b| - 1] == a + b[..|b| - 1] && (a + b)[|a + b| - 1] == b[|b| - 1]
  {
  }

  /** Both lists keep the order of the input. */
  lemma {:induction false} KeepAppend(a: seq<Connection>, b: seq<Connection>, listening: bool)
    ensures Keep(a + b, listening) == Keep(a, listening) + Keep(b, listening)
  {
    if b == [] {
      assert a + b == a;
    } else {
      var n := |b| - 1;
      KeepAppend(a, b[..n], listening);
      LastOf(a, b);
      Regroup(Keep(a, listening), Keep(b[..n], listening), if IsListener(b[n]) == listening then [b[n]] else []);
    }
  }

  lemma NoneMore<T>(a: multiset<T>)
    ensures a + multiset{} == a
  {
  }

  lemma {:induction false} KeepSorts(all: seq<Connection>, listening: bool)
    ensures forall c :: c in Keep(all, listening) ==> IsListener(c) == listening
  {
    if all != [] {
      KeepSorts(all[..|all| - 1], listening);
    }
  }

  lemma OutboundAppend(cs: seq<Connection>, c: Connection)
    ensures OutboundFlows(cs + [c]) == OutboundFlows(cs) + (if Outbound(c) then 1 else 0)
  {
    assert (cs + [c])[..|cs|] == cs;
  }

  lemma OutboundDoesNotListen(c: Connection)
    requires Outbound(c)
    ensures !IsListener(c)
  {
    assert |c.state| == |"established"|;
  }

  lemma {:induction false} KeepKeepsOutbound(all: seq<Connection>)
    ensures OutboundFlows(Keep(all, false)) == OutboundFlows(all)
  {
    if all != [] {
      var before, c := Keep(all[..|all| - 1], false), all[|all| - 1];
      KeepKeepsOutbound(all[..|all| - 1]);
      OutboundExactly(c);
      if IsListener(c) {
        assert Keep(all, false) == before + [] == before;
        if Outbound(c) {
          OutboundDoesNotListen(c);
        }
      } else {
        assert Keep(all, false) == before + [c];
        OutboundAppend(before, c);
      }
    }
  }

  /** The summary accounts for every socket: listeners and connections split the
      input, the egress counts add up to all established non-local flows of the
      input, and remotes, edges, flows and established sockets are ordered. */
  lemma SummaryAccounts(all: seq<Connection>, s: Summary)
    requires Summarizes(all, s)
    ensures multiset(s.listeners) + multiset(s.connections) == multiset(all)
    ensures (forall c :: c in s.listeners ==> Waits(c)) && (forall c :: c in s.connections ==> !Waits(c))
    ensures s.listening + |s.connections| == |all|
    ensures Total(s.egress) == OutboundFlows(all)
    ensures s.uniqueRemotes <= |s.egress| <= Total(s.egress) <= s.established <= |s.connections|
  {
    KeepSplits(all);
    KeepSorts(all, true);
    KeepSorts(all, false);
    forall c ensures IsListener(c) <==> Waits(c) { ListenerExactly(c); }
    KeepKeepsOutbound(all);
    assert |multiset(s.listeners) + multiset(s.connections)| == |multiset(all)|;
    TotalIsFlows(s.connections, s.egress);
    forall e | e in s.egress
      ensures s.egress[e] >= 1
    {
      FlowsOverEdge(s.connections, e);
    }
    EachEdgeCounts(s.egress);
    FewerRemotesThanEdges(s.connections);
    EstablishedCoversOutbound(s.connections);
    EstablishedAtMost(s.connections);
  }

  lemma {:induction false} EstablishedAtMost(cs: seq<Connection>)
    ensures Established(cs) <= |cs|
  {
    if cs != [] {
      EstablishedAtMost(cs[..|cs| - 1]);
    }
  }
}
