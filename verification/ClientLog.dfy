/** The record of clients kept by clientlog.c: a tree of 256-entry tables over the bytes of an address,
    with a node per client and a side table of all nodes. A tree position is named by its path. */
module ClientLog {

  /** Address family, then bytes: 4, b, b, b, b or 6 and sixteen bytes. */
  type Path = seq<nat>

  datatype Kind = ClientHit | PeerHit | CmdAuth | CmdNormal | CmdBad

  /** One client's counters and the times of its last accesses. */
  datatype Node = Node(addr: Path, client: nat, peer: nat, auth: nat, normal: nat, bad: nat,
                       lastNtp: int, lastCmd: int)

  predicate IsAddress(p: Path) {
    (|p| == 5 && p[0] == 4) || (|p| == 17 && p[0] == 6)
  }

  function Hits(n: Node, k: Kind): nat {
    match k
    case ClientHit => n.client
    case PeerHit => n.peer
    case CmdAuth => n.auth
    case CmdNormal => n.normal
    case CmdBad => n.bad
  }

  function Total(n: Node): nat { n.client + n.peer + n.auth + n.normal + n.bad }

  function Counted(n: Node, addr: Path, k: Kind, now: int): Node {
    var m := n.(addr := addr);
    match k
    case ClientHit => m.(client := m.client + 1, lastNtp := now)
    case PeerHit => m.(peer := m.peer + 1, lastNtp := now)
    case CmdAuth => m.(auth := m.auth + 1, lastCmd := now)
    case CmdNormal => m.(normal := m.normal + 1, lastCmd := now)
    case CmdBad => m.(bad := m.bad + 1, lastCmd := now)
  }

  const CLEAR: Node := Node([], 0, 0, 0, 0, 0, 0, 0)

  // ---------- memory ----------

  /** Sizes of the allocated things and the limit of the configuration. */
  datatype Sizes = Sizes(subnet: nat, node: nat, pointer: nat, limit: nat)

  /** The tables of the tree, its leaves as indices of nodes, and what has been allocated. */
  datatype Tree = Tree(subnets: set<Path>, leaves: map<Path, nat>, nNodes: nat, maxNodes: nat,
                       alloced: nat, limitReached: bool)

  function CheckLimit(t: Tree, z: Sizes): Tree {
    t.(limitReached := t.limitReached || t.alloced >= z.limit)
  }

  function SubnetCreated(t: Tree, p: Path, z: Sizes): Tree {
    CheckLimit(t.(subnets := t.subnets + {p}, alloced := t.alloced + z.subnet), z)
  }

  function Grown(t: Tree, z: Sizes): Tree {
    if t.nNodes != t.maxNodes then t
    else
      var m := if t.maxNodes > 0 then 2 * t.maxNodes else 16;
      t.(maxNodes := m, alloced := t.alloced + z.pointer * (m - t.nNodes))
  }

  function NodeCreated(t: Tree, p: Path, z: Sizes): Tree {
    var u := Grown(t.(alloced := t.alloced + z.node), z);
    CheckLimit(u.(leaves := u.leaves[p := u.nNodes], nNodes := u.nNodes + 1), z)
  }

  /** find_subnet from the k-th table on the way to an address. */
  function Walk(t: Tree, addr: Path, k: nat, z: Sizes): Tree
    requires k < |addr|
    decreases |addr| - k
  {
    var next := addr[..k + 1];
    if k + 1 < |addr| then
      if next in t.subnets then Walk(t, addr, k + 1, z)
      else if t.limitReached then t
      else Walk(SubnetCreated(t, next, z), addr, k + 1, z)
    else if addr in t.leaves || t.limitReached then t
    else NodeCreated(t, addr, z)
  }

  /** Each table and each leaf hangs from a table; the side table is never over-full. */
  ghost predicate Closed(t: Tree) {
    && (forall p :: p in t.subnets && |p| > 1 ==> p[..|p| - 1] in t.subnets)
    && [4] in t.subnets && [6] in t.subnets
    && (forall p :: p in t.leaves ==> IsAddress(p) && p[..|p| - 1] in t.subnets)
    && t.nNodes <= t.maxNodes
  }

  /** Walking never gives up memory, keeps every leaf, and adds at most one: the address walked to. */
  lemma {:induction false} WalkAdds(t: Tree, addr: Path, k: nat, z: Sizes)
    requires Closed(t) && 1 <= k < |addr| && IsAddress(addr) && addr[..k] in t.subnets
    ensures var u := Walk(t, addr, k, z);
            && Closed(u)
            && (t.limitReached ==> u == t)
            && ((u.leaves == t.leaves && u.nNodes == t.nNodes)
                || (addr !in t.leaves && !t.limitReached
                    && u.leaves == t.leaves[addr := t.nNodes] && u.nNodes == t.nNodes + 1))
            && (addr !in u.leaves ==> u.limitReached)
    decreases |addr| - k
  {
    var next := addr[..k + 1];
    assert next[..k] == addr[..k];
    if k + 1 < |addr| {
      if next in t.subnets {
        WalkAdds(t, addr, k + 1, z);
      } else if !t.limitReached {
        WalkAdds(SubnetCreated(t, next, z), addr, k + 1, z);
      }
    } else {
      assert next == addr;
      assert addr[..|addr| - 1] == addr[..k];
    }
  }

  lemma {:induction false} PrefixExists(t: Tree, p: Path, k: nat)
    requires Closed(t) && p in t.subnets && 1 <= k <= |p|
    ensures p[..k] in t.subnets
    decreases |p|
  {
    if k == |p| {
      assert p[..k] == p;
    } else {
      var q := p[..|p| - 1];
      PrefixExists(t, q, k);
      assert q[..k] == p[..k];
    }
  }

  /** An address that has its node is found again and nothing is allocated. */
  lemma {:induction false} WalkFinds(t: Tree, addr: Path, k: nat, z: Sizes)
    requires Closed(t) && 1 <= k < |addr| && addr in t.leaves
    ensures Walk(t, addr, k, z) == t
    decreases |addr| - k
  {
    if k + 1 < |addr| {
      var parent := addr[..|addr| - 1];
      PrefixExists(t, parent, k + 1);
      assert parent[..k + 1] == addr[..k + 1];
      WalkFinds(t, addr, k + 1, z);
    }
  }

  // ---------- accesses ----------

  datatype Access = Access(addr: Path, kind: Kind)

  /** Accesses of one client and kind among those logged. */
  function Occurrences(log: seq<Access>, addr: Path, k: Kind): nat {
    if log == [] then 0
    else Occurrences(log[..|log| - 1], addr, k) + if log[|log| - 1] == Access(addr, k) then 1 else 0
  }

  predicate Mentions(log: seq<Access>, addr: Path) {
    log != [] && (log[|log| - 1].addr == addr || Mentions(log[..|log| - 1], addr))
  }

  /** Logged accesses of the clients that have a node. */
  function Recorded(log: seq<Access>, leaves: map<Path, nat>): nat {
    if log == [] then 0
    else Recorded(log[..|log| - 1], leaves) + if log[|log| - 1].addr in leaves then 1 else 0
  }

  function TotalOf(nodes: seq<Node>): nat {
    if nodes == [] then 0 else TotalOf(nodes[..|nodes| - 1]) + Total(nodes[|nodes| - 1])
  }

  /** Tree, side table and log at one time. */
  datatype State = State(tree: Tree, nodes: seq<Node>, log: seq<Access>)

  /** The side table lists each leaf exactly once. */
  ghost predicate Listed(s: State)
    requires |s.nodes| == s.tree.nNodes
  {
    && (forall p :: p in s.tree.leaves ==> s.tree.leaves[p] < |s.nodes| && s.nodes[s.tree.leaves[p]].addr == p)
    && (forall i :: 0 <= i < |s.nodes| ==> s.nodes[i].addr in s.tree.leaves && s.tree.leaves[s.nodes[i].addr] == i)
  }

  /** A client with a node has every access counted there. */
  ghost predicate Exact(s: State)
    requires |s.nodes| == s.tree.nNodes && Listed(s)
  {
    forall p, k :: p in s.tree.leaves ==> Hits(s.nodes[s.tree.leaves[p]], k) == Occurrences(s.log, p, k)
  }

  /** A client without a node was turned away, and no node will be made any more. */
  ghost predicate TurnedAway(s: State) {
    forall p :: Mentions(s.log, p) && p !in s.tree.leaves ==> s.tree.limitReached
  }

  ghost predicate Sound(s: State) {
    && Closed(s.tree) && |s.nodes| == s.tree.nNodes && Listed(s) && Exact(s) && TurnedAway(s)
    && TotalOf(s.nodes) == Recorded(s.log, s.tree.leaves)
  }

  lemma RootExists(t: Tree, addr: Path)
    requires Closed(t) && IsAddress(addr)
    ensures addr[..1] in t.subnets
  {
    assert addr[..1] == [addr[0]];
  }

  /** One access: the walk to the client's node, a clear node if the walk made one, and the count. */
  ghost function After(s: State, addr: Path, k: Kind, now: int, z: Sizes): State
    requires Sound(s) && IsAddress(addr)
  {
    RootExists(s.tree, addr);
    WalkAdds(s.tree, addr, 1, z);
    var t := Walk(s.tree, addr, 1, z);
    var log := s.log + [Access(addr, k)];
    if addr !in t.leaves then State(t, s.nodes, log)
    else
      var nodes := if t.nNodes > |s.nodes| then s.nodes + [CLEAR] else s.nodes;
      var i := t.leaves[addr];
      State(t, nodes[i := Counted(nodes[i], addr, k, now)], log)
  }

  // ---------- every access keeps the books ----------

  lemma {:induction false} NoOccurrence(log: seq<Access>, addr: Path, k: Kind)
    requires !Mentions(log, addr)
    ensures Occurrences(log, addr, k) == 0
  {
    if log != [] {
      NoOccurrence(log[..|log| - 1], addr, k);
    }
  }

  lemma {:induction false} RecordedNew(log: seq<Access>, leaves: map<Path, nat>, addr: Path, i: nat)
    requires !Mentions(log, addr)
    ensures Recorded(log, leaves[addr := i]) == Recorded(log, leaves)
  {
    if log != [] {
      RecordedNew(log[..|log| - 1], leaves, addr, i);
    }
  }

  lemma {:induction false} TotalOfUpdate(nodes: seq<Node>, i: nat, n: Node)
    requires i < |nodes|
    ensures TotalOf(nodes[i := n]) == TotalOf(nodes) - Total(nodes[i]) + Total(n)
  {
    var m := |nodes| - 1;
    if i == m {
      assert nodes[i := n][..m] == nodes[..m];
    } else {
      TotalOfUpdate(nodes[..m], i, n);
      assert nodes[i := n][..m] == nodes[..m][i := n];
    }
  }

  lemma LogAppends(log: seq<Access>, a: Access)
    ensures (log + [a])[..|log|] == log
    ensures forall p, k :: Occurrences(log + [a], p, k) == Occurrences(log, p, k) + if a == Access(p, k) then 1 else 0
    ensures forall p :: Mentions(log + [a], p) <==> a.addr == p || Mentions(log, p)
  {
    var more := log + [a];
    assert more[..|more| - 1] == log;
  }

  lemma RecordedAppends(log: seq<Access>, a: Access, leaves: map<Path, nat>)
    ensures Recorded(log + [a], leaves) == Recorded(log, leaves) + if a.addr in leaves then 1 else 0
  {
    assert (log + [a])[..|log|] == log;
  }

  lemma CountedAdds(n: Node, addr: Path, k: Kind, now: int)
    ensures Total(Counted(n, addr, k, now)) == Total(n) + 1
    ensures forall j :: Hits(Counted(n, addr, k, now), j) == Hits(n, j) + if j == k then 1 else 0
    ensures Counted(n, addr, k, now).addr == addr
  {
  }

  /** An access that finds no node leaves the counters alone. */
  lemma TurnedAwayKeepsSound(s: State, addr: Path, k: Kind, t: Tree)
    requires Sound(s) && Closed(t) && t.leaves == s.tree.leaves && t.nNodes == s.tree.nNodes
    requires addr !in t.leaves && t.limitReached
    ensures Sound(State(t, s.nodes, s.log + [Access(addr, k)]))
  {
    LogAppends(s.log, Access(addr, k));
    RecordedAppends(s.log, Access(addr, k), t.leaves);
    hide Closed, Occurrences, Mentions, Recorded, TotalOf;
  }

  /** An access to a client with a node adds one to one counter. */
  lemma CountKeepsSound(s: State, addr: Path, k: Kind, now: int)
    requires Sound(s) && addr in s.tree.leaves
    ensures var i := s.tree.leaves[addr];
            Sound(State(s.tree, s.nodes[i := Counted(s.nodes[i], addr, k, now)], s.log + [Access(addr, k)]))
  {
    var i := s.tree.leaves[addr];
    LogAppends(s.log, Access(addr, k));
    RecordedAppends(s.log, Access(addr, k), s.tree.leaves);
    CountedAdds(s.nodes[i], addr, k, now);
    TotalOfUpdate(s.nodes, i, Counted(s.nodes[i], addr, k, now));
    hide Closed, Occurrences, Mentions, Recorded, TotalOf, Counted, Hits, Total;
  }

  /** A node made for a new client starts from nothing, as none of its accesses has been logged. */
  lemma NewNodeKeepsSound(s: State, addr: Path, t: Tree)
    requires Sound(s) && Closed(t) && addr !in s.tree.leaves && !s.tree.limitReached
    requires t.leaves == s.tree.leaves[addr := s.tree.nNodes] && t.nNodes == s.tree.nNodes + 1
    ensures Sound(State(t, s.nodes + [CLEAR.(addr := addr)], s.log))
  {
    assert !Mentions(s.log, addr);
    var nodes := s.nodes + [CLEAR.(addr := addr)];
    RecordedNew(s.log, s.tree.leaves, addr, s.tree.nNodes);
    assert nodes[..|s.nodes|] == s.nodes;
    forall k ensures Occurrences(s.log, addr, k) == 0 {
      NoOccurrence(s.log, addr, k);
    }
    hide Closed, Occurrences, Mentions, Recorded;
  }

  lemma AfterIsSound(s: State, addr: Path, k: Kind, now: int, z: Sizes)
    requires Sound(s) && IsAddress(addr)
    ensures Sound(After(s, addr, k, now, z))
  {
    var t := Walk(s.tree, addr, 1, z);
    RootExists(s.tree, addr);
    WalkAdds(s.tree, addr, 1, z);
    hide Closed, Listed, Exact, TurnedAway, TotalOf, Recorded, Walk, Counted;
    if addr !in t.leaves {
      TurnedAwayKeepsSound(s, addr, k, t);
    } else if addr in s.tree.leaves {
      WalkFinds(s.tree, addr, 1, z);
      CountKeepsSound(s, addr, k, now);
    } else {
      NewNodeKeepsSound(s, addr, t);
      var n := State(t, s.nodes + [CLEAR.(addr := addr)], s.log);
      CountKeepsSound(n, addr, k, now);
      CountedClear(addr, k, now);
      var i := t.leaves[addr];
      assert n.nodes[i := Counted(n.nodes[i], addr, k, now)]
          == (s.nodes + [CLEAR])[i := Counted(CLEAR, addr, k, now)];
    }
  }

  lemma CountedClear(addr: Path, k: Kind, now: int)
    ensures Counted(CLEAR.(addr := addr), addr, k, now) == Counted(CLEAR, addr, k, now)
  {
  }

  // ---------- runs ----------

  datatype Event = Event(addr: Path, kind: Kind, now: int)

  ghost function Run(s: State, events: seq<Event>, z: Sizes): (t: State)
    requires Sound(s) && forall i :: 0 <= i < |events| ==> IsAddress(events[i].addr)
    ensures Sound(t)
  {
    if events == [] then s
    else
      var n := |events| - 1;
      var t := Run(s, events[..n], z);
      AfterIsSound(t, events[n].addr, events[n].kind, events[n].now, z);
      After(t, events[n].addr, events[n].kind, events[n].now, z)
  }

  function Start(): State {
    State(Tree({[4], [6]}, map[], 0, 0, 0, false), [], [])
  }

  lemma StartIsSound()
    ensures Sound(Start())
  {
  }

  lemma AfterDecides(s: State, addr: Path, k: Kind, now: int, z: Sizes, p: Path)
    requires Sound(s) && IsAddress(addr)
    ensures var t := After(s, addr, k, now, z);
            && (p in s.tree.leaves ==> p in t.tree.leaves && t.tree.leaves[p] == s.tree.leaves[p])
            && (Mentions(s.log, p) && p !in s.tree.leaves ==> p !in t.tree.leaves)
            && (Mentions(s.log, p) ==> Mentions(t.log, p))
  {
    RootExists(s.tree, addr);
    WalkAdds(s.tree, addr, 1, z);
    LogAppends(s.log, Access(addr, k));
    hide Closed, Listed, Exact, TotalOf, Recorded, Walk, Counted, Mentions, Occurrences;
  }

  /** Whether a client's accesses are counted is settled by the first of them and never changes. */
  lemma {:induction false} FirstAccessDecides(s: State, events: seq<Event>, z: Sizes, p: Path)
    requires Sound(s) && forall i :: 0 <= i < |events| ==> IsAddress(events[i].addr)
    requires Mentions(s.log, p)
    ensures p in s.tree.leaves <==> p in Run(s, events, z).tree.leaves
    ensures Mentions(Run(s, events, z).log, p)
  {
    if events != [] {
      hide Sound, After, Mentions;
      var n := |events| - 1;
      FirstAccessDecides(s, events[..n], z, p);
      AfterDecides(Run(s, events[..n], z), events[n].addr, events[n].kind, events[n].now, z, p);
    }
  }

  /** In every reachable state a client is counted completely or not at all, the side table lists each
      client once, and the counters add up to the recorded accesses. */
  lemma AllOrNothing(events: seq<Event>, z: Sizes, p: Path)
    requires forall i :: 0 <= i < |events| ==> IsAddress(events[i].addr)
    ensures Sound(Start())
    ensures var s := Run(Start(), events, z);
            && (p in s.tree.leaves ==>
                  s.tree.leaves[p] < |s.nodes|
                  && forall k :: Hits(s.nodes[s.tree.leaves[p]], k) == Occurrences(s.log, p, k))
            && (p !in s.tree.leaves ==> forall i :: 0 <= i < |s.nodes| ==> s.nodes[i].addr != p)
            && (p !in s.tree.leaves && Mentions(s.log, p) ==> s.tree.limitReached)
            && (forall i, j :: 0 <= i < j < |s.nodes| ==> s.nodes[i].addr != s.nodes[j].addr)
            && TotalOf(s.nodes) == Recorded(s.log, s.tree.leaves)
  {
    StartIsSound();
    var s := Run(Start(), events, z);
    hide Run, Occurrences, Mentions, Recorded, TotalOf, Hits;
  }

  // ---------- the module ----------

  datatype Status = Success | EmptySubnet | Inactive | IndexTooLarge

  /** What a report says of a client. */
  datatype Report = Report(client: nat, peer: nat, auth: nat, normal: nat, bad: nat, ntpAgo: int, cmdAgo: int)

  function ReportOf(n: Node, now: int): Report {
    Report(n.client, n.peer, n.auth, n.normal, n.bad, now - n.lastNtp, now - n.lastCmd)
  }

  class ClientTable {
    const active: bool
    const sizes: Sizes
    var subnets: set<Path>
    var leaves: map<Path, nat>
    var nodes: seq<Node>
    var maxNodes: nat
    var alloced: nat
    var limitReached: bool
    /** Every access logged while the facility is on. */
    ghost var log: seq<Access>

    ghost function View(): Tree
      reads this
    {
      Tree(subnets, leaves, |nodes|, maxNodes, alloced, limitReached)
    }

    ghost function Books(): State
      reads this
    {
      State(View(), nodes, log)
    }

    ghost predicate Valid()
      reads this
    {
      Sound(Books())
    }

    /** CLG_Initialise. */
    constructor (active: bool, sizes: Sizes)
      ensures Valid() && Books() == Start() && this.active == active && this.sizes == sizes
    {
      this.active, this.sizes := active, sizes;
      subnets, leaves, nodes := {[4], [6]}, map[], [];
      maxNodes, alloced, limitReached := 0, 0, false;
      log := [];
      new;
      StartIsSound();
    }

    /** check_alloc_limit. */
    method CheckAllocLimit()
      modifies `limitReached
      ensures View() == CheckLimit(old(View()), sizes)
    {
      if limitReached {
        return;
      }
      if alloced >= sizes.limit {
        limitReached := true;
      }
    }

    /** create_subnet. */
    method CreateSubnet(p: Path)
      modifies `subnets, `alloced, `limitReached
      ensures View() == SubnetCreated(old(View()), p, sizes)
    {
      subnets := subnets + {p};
      alloced := alloced + sizes.subnet;
      CheckAllocLimit();
    }

    /** create_node: the side table doubles when it is full. */
    method CreateNode(p: Path)
      requires |nodes| <= maxNodes
      modifies `leaves, `nodes, `maxNodes, `alloced, `limitReached
      ensures View() == NodeCreated(old(View()), p, sizes) && nodes == old(nodes) + [CLEAR]
    {
      alloced := alloced + sizes.node;
      if |nodes| == maxNodes {
        maxNodes := if maxNodes > 0 then 2 * maxNodes else 16;
        alloced := alloced + sizes.pointer * (maxNodes - |nodes|);
      }
      leaves := leaves[p := |nodes|];
      nodes := nodes + [CLEAR];
      CheckAllocLimit();
    }

    /** find_subnet: the walk to a client's node, making tables and the node while memory allows. */
    method FindSubnet(addr: Path, k: nat) returns (found: bool)
      requires Closed(View()) && IsAddress(addr) && 1 <= k < |addr| && addr[..k] in subnets
      modifies `subnets, `leaves, `nodes, `maxNodes, `alloced, `limitReached
      ensures View() == Walk(old(View()), addr, k, sizes) && found == (addr in leaves)
      ensures nodes == if |nodes| > |old(nodes)| then old(nodes) + [CLEAR] else old(nodes)
      decreases |addr| - k
    {
      var next := addr[..k + 1];
      if k + 1 < |addr| {
        if next !in subnets {
          if limitReached {
            MissingTable(View(), addr, k + 1);
            return false;
          }
          SubnetIsClosed(View(), addr, k, sizes);
          CreateSubnet(next);
        }
        hide Closed;
        found := FindSubnet(addr, k + 1);
      } else {
        if addr !in leaves {
          if limitReached {
            return false;
          }
          CreateNode(addr);
        }
        found := true;
      }
    }

    /** The body that the three logging functions share. */
    method Log(addr: Path, kind: Kind, now: int)
      requires Valid() && IsAddress(addr)
      modifies this
      ensures Valid()
      ensures Books() == After(old(Books()), addr, kind, now, sizes)
    {
      hide Listed, Exact, TurnedAway, TotalOf, Recorded, Walk, Counted, Occurrences, Mentions;
      AfterIsSound(Books(), addr, kind, now, sizes);
      RootExists(View(), addr);
      WalkAdds(View(), addr, 1, sizes);
      hide Closed;
      var found := FindSubnet(addr, 1);
      log := log + [Access(addr, kind)];
      if found {
        ListedIndex(old(Books()), View(), addr);
        var i := leaves[addr];
        nodes := nodes[i := Counted(nodes[i], addr, kind, now)];
      }
    }

    /** CLG_LogNTPClientAccess. */
    method LogNtpClientAccess(addr: Path, now: int)
      requires Valid() && IsAddress(addr)
      modifies this
      ensures Valid()
      ensures Books() == if active then After(old(Books()), addr, ClientHit, now, sizes) else old(Books())
    {
      hide Sound, After;
      if active {
        Log(addr, ClientHit, now);
      }
    }

    /** CLG_LogNTPPeerAccess. */
    method LogNtpPeerAccess(addr: Path, now: int)
      requires Valid() && IsAddress(addr)
      modifies this
      ensures Valid()
      ensures Books() == if active then After(old(Books()), addr, PeerHit, now, sizes) else old(Books())
    {
      hide Sound, After;
      if active {
        Log(addr, PeerHit, now);
      }
    }

    /** CLG_LogCommandAccess. */
    method LogCommandAccess(addr: Path, kind: Kind, now: int)
      requires Valid() && IsAddress(addr) && (kind.CmdAuth? || kind.CmdNormal? || kind.CmdBad?)
      modifies this
      ensures Valid()
      ensures Books() == if active then After(old(Books()), addr, kind, now, sizes) else old(Books())
    {
      hide Sound, After;
      if active {
        Log(addr, kind, now);
      }
    }

    /** find_subnet_dont_open: the node of a client, if the walk to it meets no gap. */
    method FindNode(addr: Path) returns (found: bool)
      requires Valid() && IsAddress(addr)
      ensures found <==> addr in leaves
    {
      var k := 1;
      hide Listed, Exact, TurnedAway, TotalOf, Recorded;
      while k + 1 < |addr|
        invariant 1 <= k < |addr|
      {
        if addr[..k + 1] !in subnets {
          MissingTable(View(), addr, k + 1);
          return false;
        }
        k := k + 1;
      }
      found := addr in leaves;
    }

    /** CLG_GetClientAccessReportByIP; none for an address of neither family. */
    method ReportByIp(addr: Path, now: int) returns (status: Status, report: Report)
      requires Valid()
      ensures status == if !active then Inactive else if IsAddress(addr) && addr in leaves then Success else EmptySubnet
      ensures status == Success ==> exists i :: 0 <= i < |nodes| && nodes[i].addr == addr && report == ReportOf(nodes[i], now)
    {
      report := Report(0, 0, 0, 0, 0, 0, 0);
      if !active {
        return Inactive, report;
      }
      if !IsAddress(addr) {
        return EmptySubnet, report;
      }
      var found := FindNode(addr);
      if !found {
        return EmptySubnet, report;
      }
      hide Closed, Exact, TurnedAway, TotalOf, Recorded;
      report := ReportOf(nodes[leaves[addr]], now);
      status := Success;
    }

    /** CLG_GetClientAccessReportByIndex: counting the index up visits every client once, with the report
        its address gives. */
    method ReportByIndex(index: int, now: int) returns (status: Status, addr: Path, report: Report, nIndices: nat)
      requires Valid()
      ensures nIndices == |leaves|
      ensures status == if !active then Inactive else if index < 0 || index >= nIndices then IndexTooLarge else Success
      ensures status == Success ==> addr in leaves && leaves[addr] == index && report == ReportOf(nodes[index], now)
                                    && nodes[index].addr == addr
    {
      LeafCount(Books());
      hide Closed, Exact, TurnedAway, TotalOf, Recorded;
      nIndices := |nodes|;
      addr, report := [], Report(0, 0, 0, 0, 0, 0, 0);
      if !active {
        return Inactive, addr, report, nIndices;
      }
      if index < 0 || index >= |nodes| {
        return IndexTooLarge, addr, report, nIndices;
      }
      addr := nodes[index].addr;
      report := ReportOf(nodes[index], now);
      status := Success;
    }
  }

  lemma MissingTable(t: Tree, addr: Path, k: nat)
    requires Closed(t) && 1 <= k < |addr| && addr[..k] !in t.subnets
    ensures addr !in t.leaves
  {
    var parent := addr[..|addr| - 1];
    assert parent[..k] == addr[..k];
    if addr in t.leaves {
      PrefixExists(t, parent, k);
    }
  }

  lemma SubnetIsClosed(t: Tree, addr: Path, k: nat, z: Sizes)
    requires Closed(t) && IsAddress(addr) && 1 <= k && k + 1 < |addr| && addr[..k] in t.subnets
    ensures Closed(SubnetCreated(t, addr[..k + 1], z))
  {
    assert addr[..k + 1][..k] == addr[..k];
  }

  lemma ListedIndex(s: State, t: Tree, addr: Path)
    requires Sound(s) && addr in t.leaves
    requires (t.leaves == s.tree.leaves && t.nNodes == s.tree.nNodes)
             || (t.leaves == s.tree.leaves[addr := s.tree.nNodes] && t.nNodes == s.tree.nNodes + 1)
    ensures t.leaves[addr] < t.nNodes
  {
  }

  /** There are as many nodes as leaves. */
  lemma LeafCount(s: State)
    requires Sound(s)
    ensures |s.nodes| == |s.tree.leaves|
  {
    hide Closed, Exact, TurnedAway, TotalOf, Recorded;
    var n := |s.nodes|;
    LeavesBelow(s, n);
    assert s.tree.leaves.Keys == set p | p in s.tree.leaves && s.tree.leaves[p] < n;
    assert |s.tree.leaves.Keys| == |s.tree.leaves|;
  }

  lemma {:induction false} LeavesBelow(s: State, n: nat)
    requires |s.nodes| == s.tree.nNodes && Listed(s) && n <= |s.nodes|
    ensures |set p | p in s.tree.leaves && s.tree.leaves[p] < n| == n
  {
    var all := set p | p in s.tree.leaves && s.tree.leaves[p] < n;
    if n == 0 {
      assert all == {};
    } else {
      LeavesBelow(s, n - 1);
      var fewer := set p | p in s.tree.leaves && s.tree.leaves[p] < n - 1;
      assert all == fewer + {s.nodes[n - 1].addr};
    }
  }
}
