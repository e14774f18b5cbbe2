/** The 16-ary tree of access rules of addrfilt.c; a node is named by the nibbles that lead to it. */
module AddressFilter {
  import opened Numbers

  datatype State = Deny | Allow | AsParent

  type Path = seq<nat>
  type Tree = map<Path, State>

  // ---------- the tree ----------

  predicate Extended(t: Tree, p: Path) { p + [0] in t }

  /** What a node says about its subnet; absent nodes leave it to their ancestors. */
  function StateOf(t: Tree, p: Path): State {
    if p in t then t[p] else AsParent
  }

  ghost predicate HasParent(t: Tree, p: Path) {
    p != [] ==> p[..|p| - 1] in t && Extended(t, p[..|p| - 1]) && p[|p| - 1] < 16
  }

  ghost predicate HasChildren(t: Tree, p: Path) {
    Extended(t, p) ==> forall k: nat :: k < 16 ==> p + [k] in t
  }

  /** An extended node has all its sixteen children; no path is longer than an address; the root
      always holds a decision. */
  ghost predicate WellFormed(t: Tree, depth: nat) {
    && [] in t && t[[]] != AsParent
    && (forall p :: p in t ==> |p| <= depth)
    && (forall p :: p in t ==> HasParent(t, p))
    && (forall p :: p in t ==> HasChildren(t, p))
  }

  // ---------- rules ----------

  /** One Allow, AllowAll, Deny or DenyAll of a subnet: the nibbles of its address and its size in bits. */
  datatype Rule = Rule(ip: Path, bits: nat, state: State, all: bool)

  /** Depth of the nodes that hold the rule. */
  function Depth(r: Rule): nat { (r.bits + 3) / 4 }

  /** Number of neighbouring nodes a subnet occupies. */
  function Span(bits: nat): (n: nat)
    ensures n == 1 || n == 2 || n == 4 || n == 8
  {
    match bits % 4
    case 0 => 1
    case 1 => 8
    case 2 => 4
    case _ => 2
  }

  /** The rule fits an address of so many nibbles, and the neighbouring nodes that it settles are
      children of one node. */
  predicate Fits(r: Rule, depth: nat) {
    && |r.ip| == depth && Depth(r) <= depth && r.state != AsParent
    && (r.bits % 4 != 0 ==> r.ip[r.bits / 4] + Span(r.bits) <= 16)
  }

  /** The path lies in what the rule settles: below one node, or below one of the neighbouring nodes
      from the one its address names on. */
  predicate InSubnet(p: Path, r: Rule)
    requires Depth(r) <= |r.ip|
  {
    && Depth(r) <= |p|
    && p[..r.bits / 4] == r.ip[..r.bits / 4]
    && (r.bits % 4 != 0 ==> r.ip[r.bits / 4] <= p[r.bits / 4] < r.ip[r.bits / 4] + Span(r.bits))
  }

  /** What a rule makes of the state of a node. */
  function Apply(r: Rule, p: Path, before: State): State
    requires Depth(r) <= |r.ip|
  {
    if InSubnet(p, r) && |p| == Depth(r) then r.state
    else if InSubnet(p, r) && r.all then AsParent
    else before
  }

  predicate AllFit(log: seq<Rule>, depth: nat) {
    forall i :: 0 <= i < |log| ==> Fits(log[i], depth)
  }

  /** The state of a node after a series of rules; at first only the root decides, and denies. */
  function StateAfter(log: seq<Rule>, depth: nat, p: Path): State
    requires AllFit(log, depth)
  {
    if log == [] then (if p == [] then Deny else AsParent)
    else Apply(log[|log| - 1], p, StateAfter(log[..|log| - 1], depth, p))
  }

  /** The deepest decision on the way to an address, looking at its first k nibbles only. */
  function DecisionAt(log: seq<Rule>, depth: nat, addr: Path, k: nat): State
    requires AllFit(log, depth) && k <= |addr|
  {
    var here := StateAfter(log, depth, addr[..k]);
    if k == 0 || here != AsParent then here else DecisionAt(log, depth, addr, k - 1)
  }

  function Decision(log: seq<Rule>, depth: nat, addr: Path): State
    requires AllFit(log, depth)
  {
    DecisionAt(log, depth, addr, |addr|)
  }

  // ---------- closing a node ----------

  /** The tree without everything below a node. */
  ghost function Pruned(t: Tree, p: Path): Tree {
    map q | q in t && !(p < q) :: t[q]
  }

  /** The tree without everything below the first i children of a node. */
  ghost function ChildrenPruned(t: Tree, p: Path, i: nat): Tree {
    map q | q in t && !(p < q && |q| > |p| + 1 && q[|p|] < i) :: t[q]
  }

  lemma PrunedIsWellFormed(t: Tree, depth: nat, p: Path)
    requires WellFormed(t, depth) && p in t
    ensures WellFormed(Pruned(t, p), depth) && p in Pruned(t, p)
  {
    var u := Pruned(t, p);
    forall q | q in u ensures HasParent(u, q) && HasChildren(u, q) {
      assert HasParent(t, q) && HasChildren(t, q);
      if q != [] {
        var a := q[..|q| - 1];
        assert !(p < a + [0]);
      }
      if Extended(u, q) {
        assert !(p < q + [0]);
        forall k: nat | k < 16 ensures q + [k] in u {
          assert q + [k] in t;
          assert !(p < q + [k]);
        }
      }
    }
  }

  lemma PruneNextChild(t: Tree, p: Path, i: nat)
    ensures Pruned(ChildrenPruned(t, p, i), p + [i]) == ChildrenPruned(t, p, i + 1)
  {
    forall q: Path ensures p + [i] < q <==> p < q && |q| > |p| + 1 && q[|p|] == i {
      if p < q && |q| > |p| + 1 && q[|p|] == i {
        assert q[..|p| + 1] == p + [i];
      }
      if p + [i] < q {
        assert q[..|p|] == p;
      }
    }
  }

  // ---------- opening a node ----------

  /** The tree with the first n children of a node, all undecided. */
  ghost function Opened(t: Tree, p: Path, n: nat): Tree {
    if n == 0 then t else Opened(t, p, n - 1)[p + [n - 1] := AsParent]
  }

  lemma {:induction false} OpenedMeans(t: Tree, p: Path, n: nat, q: Path)
    ensures q in Opened(t, p, n) <==> q in t || (|q| == |p| + 1 && p < q && q[|p|] < n)
    ensures q in Opened(t, p, n) ==>
              Opened(t, p, n)[q] == if |q| == |p| + 1 && p < q && q[|p|] < n then AsParent else t[q]
  {
    if n > 0 {
      OpenedMeans(t, p, n - 1, q);
      if |q| == |p| + 1 && p < q {
        assert q == p + [q[|p|]];
      }
    }
  }

  /** Opening a childless node changes no decision. */
  lemma OpenedIsNeutral(t: Tree, depth: nat, p: Path)
    requires WellFormed(t, depth) && p in t && |p| < depth && !Extended(t, p)
    ensures forall q :: StateOf(Opened(t, p, 16), q) == StateOf(t, q)
    ensures WellFormed(Opened(t, p, 16), depth) && Extended(Opened(t, p, 16), p)
  {
    var u := Opened(t, p, 16);
    forall q ensures StateOf(u, q) == StateOf(t, q) && (q in t ==> q in u) {
      OpenedMeans(t, p, 16, q);
      if q in t && q != [] {
        assert HasParent(t, q);
        var a := q[..|q| - 1];
        assert a != p;
      }
    }
    forall k: nat | k < 16 ensures p + [k] in u {
      OpenedMeans(t, p, 16, p + [k]);
    }
    forall q | q in u ensures HasParent(u, q) && HasChildren(u, q) && |q| <= depth {
      OpenedKeepsShape(t, depth, p, q);
    }
  }

  lemma OpenedKeepsShape(t: Tree, depth: nat, p: Path, q: Path)
    requires WellFormed(t, depth) && p in t && |p| < depth && !Extended(t, p) && q in Opened(t, p, 16)
    ensures HasParent(Opened(t, p, 16), q) && HasChildren(Opened(t, p, 16), q) && |q| <= depth
  {
    var u := Opened(t, p, 16);
    OpenedMeans(t, p, 16, q);
    OpenedMeans(t, p, 16, q + [0]);
    OpenedMeans(t, p, 16, p + [0]);
    OpenedMeans(t, p, 16, p);
    forall k: nat | k < 16 && Extended(u, q) ensures q + [k] in u {
      OpenedMeans(t, p, 16, q + [k]);
      if q + [0] in t {
        assert HasParent(t, q + [0]) && (q + [0])[..|q|] == q;
        assert HasChildren(t, q);
      } else {
        assert (q + [0])[..|p|] == p && q == p;
      }
    }
    if q != [] {
      var a := q[..|q| - 1];
      OpenedMeans(t, p, 16, a);
      OpenedMeans(t, p, 16, a + [0]);
      if q in t {
        assert HasParent(t, q);
      } else {
        assert a == p;
      }
    }
  }

  // ---------- deciding a node ----------

  /** The tree once a node is decided, with everything below it first removed on request. */
  ghost function Decided(t: Tree, p: Path, state: State, all: bool): Tree {
    (if all then Pruned(t, p) else t)[p := state]
  }

  lemma DecidedMeans(t: Tree, p: Path, state: State, all: bool, q: Path)
    ensures StateOf(Decided(t, p, state, all), q) ==
              if q == p then state else if all && p < q then AsParent else StateOf(t, q)
  {
  }

  lemma DecidedIsWellFormed(t: Tree, depth: nat, p: Path, state: State, all: bool)
    requires WellFormed(t, depth) && p in t && state != AsParent
    ensures WellFormed(Decided(t, p, state, all), depth)
  {
    if all {
      PrunedIsWellFormed(t, depth, p);
    }
    var u := if all then Pruned(t, p) else t;
    UpdateIsWellFormed(u, depth, p, state);
  }

  lemma UpdateIsWellFormed(t: Tree, depth: nat, p: Path, state: State)
    requires WellFormed(t, depth) && p in t && state != AsParent
    ensures WellFormed(t[p := state], depth)
  {
    var u := t[p := state];
    forall q | q in u ensures HasParent(u, q) && HasChildren(u, q) {
      assert HasParent(t, q) && HasChildren(t, q);
    }
  }

  /** Some of the children of a node hold a rule's decision. */
  function ApplyToChildren(node: Path, lo: nat, hi: nat, state: State, all: bool, p: Path, before: State): State {
    if |p| > |node| && node < p && lo <= p[|node|] < hi
    then (if |p| == |node| + 1 then state else if all then AsParent else before)
    else before
  }

  /** The tree says of every subnet what the rules given so far make of it. */
  ghost predicate Logged(t: Tree, log: seq<Rule>, depth: nat)
    requires AllFit(log, depth)
  {
    forall p :: StateOf(t, p) == StateAfter(log, depth, p)
  }

  ghost predicate SameDecisions(t: Tree, u: Tree) {
    forall q :: StateOf(u, q) == StateOf(t, q)
  }

  /** The second tree is the first with one rule applied. */
  ghost predicate Applied(t: Tree, u: Tree, r: Rule)
    requires Depth(r) <= |r.ip|
  {
    forall p :: StateOf(u, p) == Apply(r, p, StateOf(t, p))
  }

  ghost predicate AppliedToChildren(t: Tree, u: Tree, node: Path, lo: nat, hi: nat, state: State, all: bool) {
    forall p :: StateOf(u, p) == ApplyToChildren(node, lo, hi, state, all, p, StateOf(t, p))
  }

  // ---------- the words of an address ----------

  /** The four bits of an address at a bit position. */
  function GetSubnet(addr: seq<nat>, where: nat): (nibble: nat)
    requires where + 4 <= 32 * |addr| && where % 4 == 0
    ensures nibble < 16
  {
    addr[where / 32] / Pow2(28 - where % 32) % 16
  }

  ghost function Nibbles(addr: seq<nat>): (p: Path)
    ensures |p| == 8 * |addr|
  {
    seq(8 * |addr|, k requires 0 <= k < 8 * |addr| => GetSubnet(addr, 4 * k))
  }

  // ---------- operations on one tree ----------

  datatype Status = Success | BadSubnet

  class AuthTree {
    const depth: nat
    var nodes: Tree
    ghost var log: seq<Rule>

    ghost predicate Valid()
      reads this
    {
      WellFormed(nodes, depth) && AllFit(log, depth) && Logged(nodes, log, depth)
    }

    constructor (words: nat)
      ensures Valid() && depth == 8 * words && log == []
    {
      depth := 8 * words;
      nodes := map[[] := Deny];
      log := [];
    }

    /** open_node. */
    method OpenNode(p: Path)
      requires WellFormed(nodes, depth) && p in nodes && |p| < depth && !Extended(nodes, p)
      modifies `nodes
      ensures WellFormed(nodes, depth) && Extended(nodes, p)
      ensures SameDecisions(old(nodes), nodes)
    {
      OpenedIsNeutral(nodes, depth, p);
      for i := 0 to 16
        invariant nodes == Opened(old(nodes), p, i)
      {
        nodes := nodes[p + [i] := AsParent];
      }
    }

    /** close_node. */
    method CloseNode(p: Path)
      requires WellFormed(nodes, depth) && p in nodes
      modifies `nodes
      ensures nodes == Pruned(old(nodes), p)
      ensures WellFormed(nodes, depth)
      decreases depth - |p|
    {
      ghost var was := nodes;
      PrunedIsWellFormed(was, depth, p);
      hide WellFormed;
      if Extended(nodes, p) {
        BelowIsInside(was, depth, p);
        assert ChildrenPruned(was, p, 0) == was;
        for i := 0 to 16
          modifies `nodes
          invariant nodes == ChildrenPruned(was, p, i) && WellFormed(nodes, depth)
        {
          PruneNextChild(was, p, i);
          CloseNode(p + [i]);
        }
        nodes := map q | q in nodes && !(p < q && |q| == |p| + 1) :: nodes[q];
        AllChildrenPruned(was, depth, p, nodes);
      } else {
        NothingBelow(was, depth, p);
      }
    }

    /** One step down along an address, opening the node if need be. */
    method Enter(ip: seq<nat>, node: Path, consumed: nat) returns (child: Path)
      requires WellFormed(nodes, depth) && node in nodes && |node| < depth == 8 * |ip|
      requires consumed == 4 * |node| && node == Nibbles(ip)[..|node|]
      modifies `nodes
      ensures WellFormed(nodes, depth) && child in nodes
      ensures |child| == |node| + 1 && child == Nibbles(ip)[..|child|]
      ensures SameDecisions(old(nodes), nodes)
    {
      NextNibble(ip, |node|);
      SameReflexive(nodes);
      hide WellFormed, GetSubnet, Nibbles, Extended, SameDecisions;
      var subnet := GetSubnet(ip, consumed);
      if !Extended(nodes, node) {
        OpenNode(node);
      }
      BelowIsInside(nodes, depth, node);
      child := node + [subnet];
    }

    /** Walk down along an address while whole nibbles remain. */
    method Descend(ip: seq<nat>, bits: nat) returns (node: Path, consumed: nat)
      requires WellFormed(nodes, depth) && depth == 8 * |ip| && bits <= 32 * |ip|
      modifies `nodes
      ensures WellFormed(nodes, depth) && node in nodes
      ensures consumed == 4 * |node| && consumed <= bits < consumed + 4
      ensures |node| <= depth && node == Nibbles(ip)[..|node|]
      ensures SameDecisions(old(nodes), nodes)
    {
      node, consumed := [], 0;
      var toGo := bits;
      ghost var was := nodes;
      hide WellFormed, Nibbles;
      RootIsThere(nodes, depth);
      SameReflexive(nodes);
      hide SameDecisions;
      while toGo >= 4
        modifies `nodes
        invariant consumed == 4 * |node| && toGo + consumed == bits && 0 <= toGo
        invariant WellFormed(nodes, depth) && node in nodes
        invariant |node| <= depth && node == Nibbles(ip)[..|node|]
        invariant SameDecisions(was, nodes)
      {
        ghost var t := nodes;
        node := Enter(ip, node, consumed);
        SameTransitive(was, t, nodes);
        toGo := toGo - 4;
        consumed := consumed + 4;
      }
    }

    /** Settle one node, as both branches of set_subnet do. */
    method Decide(node: Path, state: State, all: bool)
      requires WellFormed(nodes, depth) && node in nodes && state != AsParent
      modifies `nodes
      ensures nodes == Decided(old(nodes), node, state, all) && WellFormed(nodes, depth)
    {
      DecidedIsWellFormed(nodes, depth, node, state, all);
      hide WellFormed;
      if all {
        CloseNode(node);
      }
      nodes := nodes[node := state];
    }

    /** Settle the neighbouring children that a subnet of fractional nibble length covers. */
    method DecideChildren(node: Path, lo: nat, count: nat, state: State, all: bool)
      requires WellFormed(nodes, depth) && node in nodes && Extended(nodes, node)
      requires lo + count <= 16 && state != AsParent
      modifies `nodes
      ensures WellFormed(nodes, depth)
      ensures AppliedToChildren(old(nodes), nodes, node, lo, lo + count, state, all)
    {
      ghost var was := nodes;
      hide WellFormed, StateOf, ApplyToChildren;
      NoChildren(was, node, lo, state, all);
      hide AppliedToChildren;
      var i, j := lo, 0;
      while j < count
        modifies `nodes
        invariant i == lo + j && j <= count
        invariant WellFormed(nodes, depth) && Extended(nodes, node)
        invariant AppliedToChildren(was, nodes, node, lo, i, state, all)
      {
        BelowIsInside(nodes, depth, node);
        NextChild(was, nodes, node, lo, i, state, all);
        Decide(node + [i], state, all);
        i, j := i + 1, j + 1;
      }
    }

    /** The accepting branches of set_subnet. */
    method SetNodes(ip: seq<nat>, bits: nat, state: State, all: bool)
      requires WellFormed(nodes, depth) && depth == 8 * |ip| && bits <= 32 * |ip|
      requires Fits(Rule(Nibbles(ip), bits, state, all), depth)
      modifies `nodes
      ensures WellFormed(nodes, depth)
      ensures Applied(old(nodes), nodes, Rule(Nibbles(ip), bits, state, all))
    {
      ghost var was := nodes;
      ghost var rule := Rule(Nibbles(ip), bits, state, all);
      var node, consumed := Descend(ip, bits);
      ghost var mid := nodes;
      RuleIsPlaced(rule, depth, |node|);
      hide WellFormed, Fits, SameDecisions, Applied, AppliedToChildren, Nibbles, GetSubnet, Extended, Decided;
      if bits % 4 == 0 {
        WholeNibbles(was, nodes, rule, |node|);
        Decide(node, state, all);
      } else {
        NextNibble(ip, |node|);
        var n := Span(bits);
        var subnet := GetSubnet(ip, consumed);
        SetFraction(node, subnet, n, state, all);
        PartNibbles(was, mid, nodes, rule, |node|);
      }
    }

    /** The branch of set_subnet for a size that is not a multiple of four. */
    method SetFraction(node: Path, subnet: nat, n: nat, state: State, all: bool)
      requires WellFormed(nodes, depth) && node in nodes && |node| < depth
      requires subnet + n <= 16 && state != AsParent
      modifies `nodes
      ensures WellFormed(nodes, depth)
      ensures AppliedToChildren(old(nodes), nodes, node, subnet, subnet + n, state, all)
    {
      hide WellFormed, SameDecisions, AppliedToChildren, Extended;
      SameReflexive(nodes);
      if !Extended(nodes, node) {
        OpenNode(node);
      }
      BelowIsInside(nodes, depth, node);
      ghost var wide := nodes;
      DecideChildren(node, subnet, n, state, all);
      AppliedAfterSame(old(nodes), wide, nodes, node, subnet, subnet + n, state, all);
    }

    /** set_subnet. */
    method SetSubnet(ip: seq<nat>, bits: int, state: State, all: bool) returns (status: Status)
      requires Valid() && depth == 8 * |ip|
      requires 0 <= bits <= 32 * |ip| ==> Fits(Rule(Nibbles(ip), bits, state, all), depth)
      modifies this
      ensures Valid()
      ensures if bits < 0 || bits > 32 * |ip|
              then status == BadSubnet && nodes == old(nodes) && log == old(log)
              else status == Success && log == old(log) + [Rule(Nibbles(ip), bits, state, all)]
    {
      if bits < 0 || bits > 32 * |ip| {
        return BadSubnet;
      }
      ghost var rule := Rule(Nibbles(ip), bits, state, all);
      SetNodes(ip, bits, state, all);
      log := log + [rule];
      NextRule(old(nodes), nodes, old(log), depth, rule);
      hide WellFormed, AllFit, Fits, Applied, Nibbles, StateOf, StateAfter;
      status := Success;
    }

    /** check_ip_in_node. */
    method CheckIpInNode(ip: seq<nat>) returns (allowed: bool)
      requires Valid() && depth == 8 * |ip|
      ensures allowed <==> Decision(log, depth, Nibbles(ip)) == Allow
    {
      hide WellFormed, AllFit, Logged, DecisionAt, StateAfter, StateOf, GetSubnet, Nibbles, Extended, Fits, Pow2;
      ghost var addr := Nibbles(ip);
      RootIsThere(nodes, depth);
      var node, consumed, state, finished := [], 0, Deny, false;
      while !finished
        invariant node in nodes && consumed == 4 * |node| && |node| <= depth && node == addr[..|node|]
        invariant node != [] && !finished ==> state == DecisionAt(log, depth, addr, |node| - 1)
        invariant finished ==> state == DecisionAt(log, depth, addr, |node|) && !Extended(nodes, node)
        decreases depth - |node|, !finished
      {
        NodeDecides(nodes, log, depth, addr, node, state);
        if nodes[node] != AsParent {
          state := nodes[node];
        }
        if Extended(nodes, node) {
          BelowIsInside(nodes, depth, node);
          NextNibble(ip, |node|);
          var subnet := GetSubnet(ip, consumed);
          node := node + [subnet];
          consumed := consumed + 4;
        } else {
          finished := true;
        }
      }
      NothingDeeper(nodes, log, depth, addr, node, |node|, |addr|);
      DecisionIsMade(log, depth, addr, |addr|);
      assert state != AsParent;
      allowed := state == Allow;
    }
  }

  /** The children of an extended node exist and are not too deep. */
  lemma BelowIsInside(t: Tree, depth: nat, p: Path)
    requires WellFormed(t, depth) && Extended(t, p)
    ensures p in t && |p| < depth && forall i: nat :: i < 16 ==> p + [i] in t
  {
    var q := p + [0];
    assert HasParent(t, q) && q[..|q| - 1] == p;
    assert HasChildren(t, p);
    assert |q| <= depth;
  }

  lemma RootIsThere(t: Tree, depth: nat)
    requires WellFormed(t, depth)
    ensures [] in t
  {
  }

  lemma SameReflexive(t: Tree)
    ensures SameDecisions(t, t)
  {
  }

  lemma AppliedAfterSame(t: Tree, u: Tree, v: Tree, node: Path, lo: nat, hi: nat, state: State, all: bool)
    requires SameDecisions(t, u) && AppliedToChildren(u, v, node, lo, hi, state, all)
    ensures AppliedToChildren(t, v, node, lo, hi, state, all)
  {
    forall p ensures StateOf(v, p) == ApplyToChildren(node, lo, hi, state, all, p, StateOf(t, p)) {
      assert StateOf(u, p) == StateOf(t, p);
    }
  }

  lemma SameTransitive(t: Tree, u: Tree, v: Tree)
    requires SameDecisions(t, u) && SameDecisions(u, v)
    ensures SameDecisions(t, v)
  {
    forall q ensures StateOf(v, q) == StateOf(t, q) {
      assert StateOf(u, q) == StateOf(t, q);
    }
  }

  lemma NextNibble(ip: seq<nat>, k: nat)
    requires 4 * k + 4 <= 32 * |ip|
    ensures k < |Nibbles(ip)| && (4 * k) % 4 == 0
    ensures Nibbles(ip)[k] == GetSubnet(ip, 4 * k) < 16
    ensures Nibbles(ip)[..k + 1] == Nibbles(ip)[..k] + [GetSubnet(ip, 4 * k)]
  {
    hide GetSubnet;
    assert Nibbles(ip)[..k + 1] == Nibbles(ip)[..k] + [Nibbles(ip)[k]];
  }

  lemma {:induction false} AncestorExtended(t: Tree, depth: nat, p: Path, q: Path)
    requires WellFormed(t, depth) && q in t && p < q
    ensures Extended(t, p) && q[|p|] < 16
    decreases |q|
  {
    var a := q[..|q| - 1];
    assert HasParent(t, q);
    if |q| == |p| + 1 {
      assert a == p;
    } else {
      AncestorExtended(t, depth, p, a);
    }
  }

  lemma NothingBelow(t: Tree, depth: nat, p: Path)
    requires WellFormed(t, depth) && p in t && !Extended(t, p)
    ensures Pruned(t, p) == t
  {
    forall q | q in t ensures !(p < q) {
      if p < q {
        AncestorExtended(t, depth, p, q);
      }
    }
  }

  lemma AllChildrenPruned(t: Tree, depth: nat, p: Path, u: Tree)
    requires WellFormed(t, depth)
    requires u == map q | q in ChildrenPruned(t, p, 16) && !(p < q && |q| == |p| + 1) :: ChildrenPruned(t, p, 16)[q]
    ensures u == Pruned(t, p)
  {
    forall q | q in t && p < q ensures q[|p|] < 16 {
      AncestorExtended(t, depth, p, q);
    }
  }

  lemma NoChildren(t: Tree, node: Path, lo: nat, state: State, all: bool)
    ensures AppliedToChildren(t, t, node, lo, lo, state, all)
  {
    forall p ensures ApplyToChildren(node, lo, lo, state, all, p, StateOf(t, p)) == StateOf(t, p) {
    }
  }

  lemma NextChild(t: Tree, u: Tree, node: Path, lo: nat, i: nat, state: State, all: bool)
    requires lo <= i < 16 && AppliedToChildren(t, u, node, lo, i, state, all) && Extended(u, node)
    ensures AppliedToChildren(t, Decided(u, node + [i], state, all), node, lo, i + 1, state, all)
    ensures Extended(Decided(u, node + [i], state, all), node)
  {
    var v := Decided(u, node + [i], state, all);
    forall p ensures StateOf(v, p) == ApplyToChildren(node, lo, i + 1, state, all, p, StateOf(t, p)) {
      DecidedMeans(u, node + [i], state, all, p);
      if |p| > |node| && node < p {
        assert p[..|node| + 1] == node + [p[|node|]];
      }
      assert StateOf(u, p) == ApplyToChildren(node, lo, i, state, all, p, StateOf(t, p));
    }
    assert !(node + [i] < node + [0]);
  }

  lemma RuleIsPlaced(r: Rule, depth: nat, k: nat)
    requires Fits(r, depth) && 4 * k <= r.bits < 4 * k + 4
    ensures |r.ip| == depth && k <= depth && r.bits / 4 == k
    ensures r.bits % 4 == 0 ==> Depth(r) == k
    ensures r.bits % 4 != 0 ==>
              && k < depth && Depth(r) == k + 1 && Span(r.bits) in {2, 4, 8}
              && r.ip[k] + Span(r.bits) <= 16
  {
  }

  lemma WholeNibbles(t: Tree, u: Tree, r: Rule, k: nat)
    requires r.bits == 4 * k && Depth(r) <= |r.ip| && SameDecisions(t, u)
    ensures Applied(t, Decided(u, r.ip[..k], r.state, r.all), r)
  {
    var node := r.ip[..k];
    forall p ensures StateOf(Decided(u, node, r.state, r.all), p) == Apply(r, p, StateOf(t, p)) {
      DecidedMeans(u, node, r.state, r.all, p);
      assert StateOf(u, p) == StateOf(t, p);
      assert InSubnet(p, r) <==> node <= p;
      if node <= p && |p| == |node| {
        assert p == node;
      }
    }
  }

  lemma PartNibbles(t: Tree, u: Tree, v: Tree, r: Rule, k: nat)
    requires r.bits / 4 == k && r.bits % 4 != 0 && Depth(r) <= |r.ip|
    requires SameDecisions(t, u)
    requires AppliedToChildren(u, v, r.ip[..k], r.ip[k], r.ip[k] + Span(r.bits), r.state, r.all)
    ensures Applied(t, v, r)
  {
    forall p ensures StateOf(v, p) == Apply(r, p, StateOf(t, p)) {
      assert StateOf(u, p) == StateOf(t, p);
      PartOfNibble(r, p, StateOf(t, p));
    }
  }

  lemma PartOfNibble(r: Rule, p: Path, before: State)
    requires r.bits % 4 != 0 && Depth(r) <= |r.ip|
    ensures var k := r.bits / 4;
            Apply(r, p, before) ==
              ApplyToChildren(r.ip[..k], r.ip[k], r.ip[k] + Span(r.bits), r.state, r.all, p, before)
  {
    var k := r.bits / 4;
    if |p| > k {
      assert p[..k] == r.ip[..k] <==> r.ip[..k] < p;
    }
  }

  lemma NextRule(t: Tree, u: Tree, log: seq<Rule>, depth: nat, r: Rule)
    requires AllFit(log, depth) && Fits(r, depth)
    requires Logged(t, log, depth) && Applied(t, u, r)
    ensures AllFit(log + [r], depth) && Logged(u, log + [r], depth)
  {
    var more := log + [r];
    assert more[..|more| - 1] == log;
    assert AllFit(more, depth);
    forall p ensures StateOf(u, p) == StateAfter(more, depth, p) {
      assert StateAfter(more, depth, p) == Apply(r, p, StateAfter(log, depth, p));
    }
  }

  // ---------- looking an address up ----------

  lemma AbsentBelow(t: Tree, depth: nat, p: Path, q: Path)
    requires WellFormed(t, depth) && p in t && !Extended(t, p) && p < q
    ensures StateOf(t, q) == AsParent
  {
    if q in t {
      AncestorExtended(t, depth, p, q);
    }
  }

  /** Below a node without children every subnet follows its ancestors. */
  lemma {:induction false} NothingDeeper(t: Tree, log: seq<Rule>, depth: nat, addr: Path, p: Path, k: nat, m: nat)
    requires WellFormed(t, depth) && AllFit(log, depth) && p in t && !Extended(t, p)
    requires |p| == k <= m <= |addr| && p <= addr && Logged(t, log, depth)
    ensures DecisionAt(log, depth, addr, m) == DecisionAt(log, depth, addr, k)
    decreases m
  {
    hide *;
    if k < m {
      NothingDeeper(t, log, depth, addr, p, k, m - 1);
      NothingAt(t, log, depth, addr, p, k, m);
      SkipLevel(log, depth, addr, m);
    }
  }

  lemma NothingAt(t: Tree, log: seq<Rule>, depth: nat, addr: Path, p: Path, k: nat, m: nat)
    requires WellFormed(t, depth) && AllFit(log, depth) && p in t && !Extended(t, p)
    requires |p| == k < m <= |addr| && p <= addr && Logged(t, log, depth)
    ensures StateAfter(log, depth, addr[..m]) == AsParent
  {
    hide WellFormed, AllFit, Extended, StateAfter, Logged;
    var q := addr[..m];
    assert p < q;
    AbsentBelow(t, depth, p, q);
    LoggedAt(t, log, depth, q);
  }

  lemma SkipLevel(log: seq<Rule>, depth: nat, addr: Path, m: nat)
    requires AllFit(log, depth) && 0 < m <= |addr| && StateAfter(log, depth, addr[..m]) == AsParent
    ensures DecisionAt(log, depth, addr, m) == DecisionAt(log, depth, addr, m - 1)
  {
    hide AllFit, StateAfter;
  }

  lemma LoggedAt(t: Tree, log: seq<Rule>, depth: nat, q: Path)
    requires AllFit(log, depth) && Logged(t, log, depth)
    ensures StateOf(t, q) == StateAfter(log, depth, q)
  {
  }

  /** The verdict so far once a node on the way has been looked at. */
  lemma NodeDecides(t: Tree, log: seq<Rule>, depth: nat, addr: Path, p: Path, before: State)
    requires WellFormed(t, depth) && AllFit(log, depth) && Logged(t, log, depth)
    requires p in t && |p| <= |addr| && p == addr[..|p|]
    requires p != [] ==> before == DecisionAt(log, depth, addr, |p| - 1)
    ensures DecisionAt(log, depth, addr, |p|) == if t[p] != AsParent then t[p] else before
  {
    LoggedAt(t, log, depth, p);
    RootIsDecided(t, depth);
    hide WellFormed, AllFit, StateAfter, Logged;
  }

  lemma RootIsDecided(t: Tree, depth: nat)
    requires WellFormed(t, depth)
    ensures [] in t && t[[]] != AsParent
  {
  }

  lemma {:induction false} RootDecides(log: seq<Rule>, depth: nat)
    requires AllFit(log, depth)
    ensures StateAfter(log, depth, []) != AsParent
  {
    if log != [] {
      RootDecides(log[..|log| - 1], depth);
    }
  }

  /** AS_PARENT is never the verdict. */
  lemma {:induction false} DecisionIsMade(log: seq<Rule>, depth: nat, addr: Path, k: nat)
    requires AllFit(log, depth) && k <= |addr|
    ensures DecisionAt(log, depth, addr, k) != AsParent
  {
    if k == 0 {
      assert addr[..0] == [];
      RootDecides(log, depth);
    } else {
      DecisionIsMade(log, depth, addr, k - 1);
    }
  }

  // ---------- which rule decides ----------

  /** A rule that covers the address and that no later rule for the address overrides: neither one of
      the same depth nor an "all" rule of a wider subnet. */
  ghost predicate Survives(log: seq<Rule>, depth: nat, i: nat, addr: Path)
    requires AllFit(log, depth)
  {
    && i < |log| && InSubnet(addr, log[i])
    && forall j :: i < j < |log| && InSubnet(addr, log[j]) ==>
         Depth(log[j]) != Depth(log[i]) && !(log[j].all && Depth(log[j]) < Depth(log[i]))
  }

  lemma SubnetOfPrefix(r: Rule, addr: Path, d: nat)
    requires Depth(r) <= |r.ip| && d <= |addr|
    ensures InSubnet(addr[..d], r) <==> Depth(r) <= d && InSubnet(addr, r)
  {
    if Depth(r) <= d {
      assert addr[..d][..r.bits / 4] == addr[..r.bits / 4];
    }
  }

  lemma SurvivesLonger(log: seq<Rule>, depth: nat, i: nat, addr: Path)
    requires AllFit(log, depth) && i < |log| - 1
    ensures var r := log[|log| - 1];
            Survives(log, depth, i, addr) <==>
              Survives(log[..|log| - 1], depth, i, addr)
              && !(InSubnet(addr, r) && (Depth(r) == Depth(log[i]) || (r.all && Depth(r) < Depth(log[i]))))
  {
    var old' := log[..|log| - 1];
    assert forall j :: 0 <= j < |old'| ==> old'[j] == log[j];
  }

  /** The state of the d-th node towards an address is that of the surviving rule of depth d. */
  lemma {:induction false} StateOfSurvivor(log: seq<Rule>, depth: nat, addr: Path, d: nat) returns (i: int)
    requires AllFit(log, depth) && d <= |addr|
    ensures -1 <= i < |log|
    ensures i >= 0 ==> && Survives(log, depth, i, addr) && Depth(log[i]) == d
                       && StateAfter(log, depth, addr[..d]) == log[i].state
    ensures i < 0 ==> && (forall j: nat :: Survives(log, depth, j, addr) ==> Depth(log[j]) != d)
                      && StateAfter(log, depth, addr[..d]) == if d == 0 then Deny else AsParent
  {
    if log == [] {
      i := -1;
    } else {
      var n, r := |log| - 1, log[|log| - 1];
      var before := StateOfSurvivor(log[..n], depth, addr, d);
      SubnetOfPrefix(r, addr, d);
      hide InSubnet;
      if InSubnet(addr, r) && Depth(r) == d {
        i := n;
      } else if InSubnet(addr, r) && Depth(r) < d && r.all {
        i := -1;
        forall j: nat | Survives(log, depth, j, addr) ensures Depth(log[j]) != d {
          if j < n {
            SurvivesLonger(log, depth, j, addr);
          }
        }
      } else {
        i := before;
        if i >= 0 {
          SurvivesLonger(log, depth, i, addr);
        } else {
          forall j: nat | Survives(log, depth, j, addr) ensures Depth(log[j]) != d {
            if j < n {
              SurvivesLonger(log, depth, j, addr);
            }
          }
        }
      }
    }
  }

  /** The deepest survivor of depth at most k decides; without one, access is denied. */
  lemma {:induction false} DeepestDecides(log: seq<Rule>, depth: nat, addr: Path, k: nat) returns (i: int)
    requires AllFit(log, depth) && k <= |addr|
    ensures -1 <= i < |log|
    ensures i >= 0 ==> && Survives(log, depth, i, addr) && Depth(log[i]) <= k
                       && DecisionAt(log, depth, addr, k) == log[i].state
    ensures forall j: nat :: Survives(log, depth, j, addr) && Depth(log[j]) <= k ==>
                               i >= 0 && Depth(log[j]) <= Depth(log[i])
    ensures i < 0 ==> DecisionAt(log, depth, addr, k) == Deny
  {
    var here := StateOfSurvivor(log, depth, addr, k);
    hide Survives;
    if here >= 0 {
      i := here;
      assert Fits(log[i], depth);
    } else if k == 0 {
      i := -1;
    } else {
      i := DeepestDecides(log, depth, addr, k - 1);
    }
  }

  lemma SurvivorsDiffer(log: seq<Rule>, depth: nat, addr: Path, i: nat, j: nat)
    requires AllFit(log, depth) && Survives(log, depth, i, addr) && Survives(log, depth, j, addr)
    requires Depth(log[i]) == Depth(log[j])
    ensures i == j
  {
  }

  lemma {:induction false} SomeRuleSurvives(log: seq<Rule>, depth: nat, addr: Path, i: nat) returns (k: nat)
    requires AllFit(log, depth) && i < |log| && InSubnet(addr, log[i])
    ensures i <= k && Survives(log, depth, k, addr)
    decreases |log| - i
  {
    if j :| i < j < |log| && InSubnet(addr, log[j]) {
      k := SomeRuleSurvives(log, depth, addr, j);
    } else {
      k := i;
    }
  }

  /** The verdict on an address after any series of rules: the state of the deepest surviving rule that
      covers it, and refusal when no rule covers it. */
  lemma DeepestRuleDecides(log: seq<Rule>, depth: nat, addr: Path)
    requires AllFit(log, depth) && |addr| == depth
    ensures forall i: nat :: Survives(log, depth, i, addr)
              && (forall j: nat :: Survives(log, depth, j, addr) ==> Depth(log[j]) <= Depth(log[i]))
              ==> Decision(log, depth, addr) == log[i].state
    ensures (forall i :: 0 <= i < |log| ==> !InSubnet(addr, log[i])) ==> Decision(log, depth, addr) == Deny
    ensures (exists i :: 0 <= i < |log| && InSubnet(addr, log[i])) ==>
              exists i: nat :: Survives(log, depth, i, addr)
                && forall j: nat :: Survives(log, depth, j, addr) ==> Depth(log[j]) <= Depth(log[i])
  {
    var d := DeepestDecides(log, depth, addr, depth);
    forall j: nat | Survives(log, depth, j, addr) ensures Depth(log[j]) <= depth {
      assert Fits(log[j], depth);
    }
    forall i: nat | Survives(log, depth, i, addr)
        && (forall j: nat :: Survives(log, depth, j, addr) ==> Depth(log[j]) <= Depth(log[i]))
      ensures Decision(log, depth, addr) == log[i].state
    {
      SurvivorsDiffer(log, depth, addr, i, d);
    }
    if i :| 0 <= i < |log| && InSubnet(addr, log[i]) {
      var k := SomeRuleSurvives(log, depth, addr, i);
      assert Survives(log, depth, d, addr);
    }
  }

  // ---------- subnets as numbers ----------

  /** The number a row of nibbles writes in base sixteen. */
  function Number(p: Path): nat {
    if p == [] then 0 else 16 * Number(p[..|p| - 1]) + p[|p| - 1]
  }

  predicate AreNibbles(p: Path) {
    forall k :: 0 <= k < |p| ==> p[k] < 16
  }

  lemma DivideTwice(x: nat, a: nat)
    requires a > 0
    ensures x / (16 * a) == (x / 16) / a
  {
    var q := (x / 16) / a;
    var r := (x / 16) % a;
    assert x / 16 == a * q + r;
    var d := 16 * r + x % 16;
    assert d < 16 * a;
    assert x == (16 * a) * q + d;
    QuotientOf(x, 16 * a, q, d);
  }

  lemma MultipleIsFar(a: int, k: int)
    requires a > 0
    ensures k >= 1 ==> a * k >= a
    ensures k <= -1 ==> a * k <= -a
  {
    if k >= 1 {
      assert a * (k - 1) >= 0;
    } else if k <= -1 {
      assert a * (-1 - k) >= 0;
    }
  }

  lemma QuotientOf(x: nat, a: nat, q: nat, d: nat)
    requires d < a && x == a * q + d
    ensures x / a == q
  {
    var t, s := x / a, x % a;
    assert x == a * t + s;
    assert a * (t - q) == a * t - a * q;
    MultipleIsFar(a, t - q);
  }

  lemma Pow2Nibble(n: nat)
    ensures Pow2(n + 4) == 16 * Pow2(n)
  {
    assert Pow2(n + 4) == 2 * Pow2(n + 3);
    assert Pow2(n + 3) == 2 * Pow2(n + 2);
    assert Pow2(n + 2) == 2 * Pow2(n + 1);
  }

  lemma NumberAppends(p: Path, x: nat)
    ensures Number(p + [x]) == 16 * Number(p) + x
  {
    assert (p + [x])[..|p|] == p;
  }

  lemma DropNibble(p: Path, e: nat)
    requires p != []
    requires AreNibbles(p)
    ensures Number(p) / Pow2(e + 4) == Number(p[..|p| - 1]) / Pow2(e)
  {
    var s := p[..|p| - 1];
    Pow2Nibble(e);
    assert Number(p) == 16 * Number(s) + p[|s|];
    hide Pow2, Number;
    DivideTwice(Number(p), Pow2(e));
  }

  /** Dividing by a power of sixteen drops the last nibbles. */
  lemma {:induction false} NumberOfPrefix(p: Path, m: nat)
    requires m <= |p| && AreNibbles(p)
    ensures Number(p) / Pow2(4 * (|p| - m)) == Number(p[..m])
  {
    if m == |p| {
      assert p[..m] == p;
    } else {
      var s := p[..|p| - 1];
      DropNibble(p, 4 * (|s| - m));
      hide Pow2, Number;
      NumberOfPrefix(s, m);
      assert s[..m] == p[..m];
    }
  }

  lemma {:induction false} NumberIsInjective(p: Path, q: Path)
    requires |p| == |q| && AreNibbles(p) && AreNibbles(q)
    ensures Number(p) == Number(q) <==> p == q
  {
    if p != [] {
      var n := |p| - 1;
      NumberIsInjective(p[..n], q[..n]);
      assert p == p[..n] + [p[n]] && q == q[..n] + [q[n]];
    }
  }

  lemma TopBits(x: nat, n: nat, y: nat, m: nat, span: nat)
    requires n < 16 && m < 16 && span in {2, 4, 8}
    ensures (16 * x + n) / span == (16 * y + m) / span <==> x == y && n / span == m / span
  {
    if span == 2 {
      assert (16 * x + n) / 2 == 8 * x + n / 2 && (16 * y + m) / 2 == 8 * y + m / 2;
    } else if span == 4 {
      assert (16 * x + n) / 4 == 4 * x + n / 4 && (16 * y + m) / 4 == 4 * y + m / 4;
    } else {
      assert (16 * x + n) / 8 == 2 * x + n / 8 && (16 * y + m) / 8 == 2 * y + m / 8;
    }
  }

  // ---------- what a rule settles and what its subnet is ----------

  /** The address lies in the subnet as an administrator means it: the first bits of the two addresses,
      read as numbers, agree. */
  predicate SameFirstBits(p: Path, r: Rule)
    requires |p| == |r.ip| && r.bits <= 4 * |p|
  {
    Number(p) / Pow2(4 * |p| - r.bits) == Number(r.ip) / Pow2(4 * |p| - r.bits)
  }

  /** The rule's address has no bit set in the rest of its last nibble. */
  predicate Aligned(r: Rule)
    requires Depth(r) <= |r.ip|
  {
    r.bits % 4 != 0 ==> r.ip[r.bits / 4] % Span(r.bits) == 0
  }

  /** Agreement in the first bits, nibble by nibble. */
  lemma FirstBitsOf(p: Path, r: Rule)
    requires |p| == |r.ip| && AreNibbles(p) && AreNibbles(r.ip) && r.bits <= 4 * |p|
    ensures var k := r.bits / 4;
            SameFirstBits(p, r) <==>
              p[..k] == r.ip[..k] && (r.bits % 4 != 0 ==> p[k] / Span(r.bits) == r.ip[k] / Span(r.bits))
  {
    var k := r.bits / 4;
    hide Number, Pow2;
    NumberIsInjective(p[..k], r.ip[..k]);
    if r.bits % 4 == 0 {
      NumberOfPrefix(p, k);
      NumberOfPrefix(r.ip, k);
    } else {
      FractionPrefix(p, k, r.bits);
      FractionPrefix(r.ip, k, r.bits);
      TopBits(Number(p[..k]), p[k], Number(r.ip[..k]), r.ip[k], Span(r.bits));
    }
  }

  lemma SameSpan(x: nat, lo: nat, n: nat)
    requires (n == 2 || n == 4 || n == 8) && lo % n == 0
    ensures x / n == lo / n <==> lo <= x < lo + n
  {
  }

  /** With no bit set in the rest of its last nibble a rule always fits, and it settles its subnet. */
  lemma AlignedSettlesSubnet(p: Path, r: Rule)
    requires |p| == |r.ip| && AreNibbles(p) && AreNibbles(r.ip) && r.bits <= 4 * |p| && Aligned(r)
    ensures r.bits % 4 != 0 ==> r.ip[r.bits / 4] + Span(r.bits) <= 16
    ensures InSubnet(p, r) <==> SameFirstBits(p, r)
  {
    var k := r.bits / 4;
    FirstBitsOf(p, r);
    hide SameFirstBits;
    if r.bits % 4 != 0 {
      SameSpan(p[k], r.ip[k], Span(r.bits));
    }
  }

  /** A rule with such a bit set that still fits settles the wrong addresses: some of its subnet is
      missed and something outside it is taken. */
  lemma UnalignedMissesAndStrays(r: Rule, depth: nat) returns (missed: Path, stray: Path)
    requires Fits(r, depth) && AreNibbles(r.ip) && !Aligned(r)
    ensures |missed| == |stray| == depth && AreNibbles(missed) && AreNibbles(stray)
    ensures SameFirstBits(missed, r) && !InSubnet(missed, r)
    ensures InSubnet(stray, r) && !SameFirstBits(stray, r)
  {
    var k, n := r.bits / 4, Span(r.bits);
    var q := r.ip[k] / n;
    missed, stray := r.ip[k := q * n], r.ip[k := (q + 1) * n];
    Quotients(r.ip[k], n);
    assert missed[..k] == r.ip[..k] && stray[..k] == r.ip[..k];
    FirstBitsOf(missed, r);
    FirstBitsOf(stray, r);
  }

  lemma Quotients(x: nat, n: nat)
    requires (n == 2 || n == 4 || n == 8) && x % n != 0 && x + n <= 16
    ensures var q := x / n;
            q * n < x < (q + 1) * n < x + n && (q * n) / n == q && ((q + 1) * n) / n == q + 1
  {
  }

  /** What a rule settles is its subnet exactly when no bit is set in the rest of its last nibble. */
  lemma SettlesSubnetExactlyWhenAligned(r: Rule, depth: nat)
    requires Fits(r, depth) && AreNibbles(r.ip)
    ensures Aligned(r) <==>
              forall p: Path :: |p| == depth && AreNibbles(p) ==> (InSubnet(p, r) <==> SameFirstBits(p, r))
  {
    if Aligned(r) {
      forall p: Path | |p| == depth && AreNibbles(p) ensures InSubnet(p, r) <==> SameFirstBits(p, r) {
        AlignedSettlesSubnet(p, r);
      }
    } else {
      var missed, stray := UnalignedMissesAndStrays(r, depth);
    }
  }

  /** Size 29 with the last nibble 1, as in 10.0.0.1/29: the rule fits and settles the last nibbles 1 to
      8, that is, it leaves out 10.0.0.0 and takes in 10.0.0.8. */
  lemma UnalignedRuleIsShifted(state: State, all: bool)
    requires state != AsParent
    ensures var r := Rule([0, 10, 0, 0, 0, 0, 0, 1], 29, state, all);
            && Fits(r, 8)
            && !InSubnet([0, 10, 0, 0, 0, 0, 0, 0], r) && SameFirstBits([0, 10, 0, 0, 0, 0, 0, 0], r)
            && InSubnet([0, 10, 0, 0, 0, 0, 0, 8], r) && !SameFirstBits([0, 10, 0, 0, 0, 0, 0, 8], r)
  {
    var r := Rule([0, 10, 0, 0, 0, 0, 0, 1], 29, state, all);
    FirstBitsOf([0, 10, 0, 0, 0, 0, 0, 0], r);
    FirstBitsOf([0, 10, 0, 0, 0, 0, 0, 8], r);
  }

  /** Size 29 with the last nibble 9: the nodes to settle are numbered 9 to 16, one more than there are. */
  lemma UnalignedRuleMayOverrun(state: State, all: bool)
    requires state != AsParent
    ensures var r := Rule([0, 10, 0, 0, 0, 0, 0, 9], 29, state, all);
            AreNibbles(r.ip) && !Aligned(r) && !Fits(r, 8) && r.ip[7] + Span(29) - 1 == 16
  {
  }

  lemma DivideSplit(x: nat, a: nat, b: nat)
    requires a > 0 && b > 0
    ensures a * b > 0 && x / (a * b) == (x / a) / b
  {
    var y := x / a;
    DivMod(x, a);
    DivMod(y, b);
    DivideParts(x, a, b, y, y / b, y % b, x % a);
  }

  lemma DivMod(x: nat, a: nat)
    requires a > 0
    ensures x == a * (x / a) + x % a && x % a < a
  {
  }

  lemma DivideParts(x: nat, a: nat, b: nat, y: nat, q: nat, r: nat, s: nat)
    requires a > 0 && r < b && s < a && x == a * y + s && y == b * q + r
    ensures a * b > 0 && x / (a * b) == q
  {
    SplitBound(a, b, r, s);
    SplitSum(a, b, q, r, s, x, y);
    QuotientOf(x, a * b, q, a * r + s);
  }

  lemma SplitBound(a: nat, b: nat, r: nat, s: nat)
    requires a > 0 && r < b && s < a
    ensures a * r + s < a * b
  {
    assert a * (r + 1) <= a * b;
  }

  lemma SplitSum(a: nat, b: nat, q: nat, r: nat, s: nat, x: nat, y: nat)
    requires x == a * y + s && y == b * q + r
    ensures x == (a * b) * q + (a * r + s)
  {
    assert x == a * (b * q + r) + s;
    assert a * (b * q + r) == a * (b * q) + a * r;
    assert a * (b * q) == (a * b) * q;
  }

  lemma {:induction false} PowerOfSum(m: nat, n: nat)
    ensures Pow2(m + n) == Pow2(m) * Pow2(n)
  {
    if n > 0 {
      PowerOfSum(m, n - 1);
    }
  }

  lemma SpanIsPower(bits: nat)
    requires bits % 4 != 0
    ensures Pow2(4 - bits % 4) == Span(bits)
  {
  }

  lemma FractionPrefix(p: Path, k: nat, bits: nat)
    requires AreNibbles(p) && bits / 4 == k && bits % 4 != 0 && bits <= 4 * |p|
    ensures k < |p| && Number(p) / Pow2(4 * |p| - bits) == (16 * Number(p[..k]) + p[k]) / Span(bits)
  {
    hide Pow2, Number, Span;
    var rest, part := 4 * (|p| - (k + 1)), 4 - bits % 4;
    assert 4 * |p| - bits == rest + part;
    assert p[..k + 1] == p[..k] + [p[k]];
    SpanIsPower(bits);
    NumberAppends(p[..k], p[k]);
    PowerOfSum(rest, part);
    DivideSplit(Number(p), Pow2(rest), Pow2(part));
    NumberOfPrefix(p, k + 1);
  }

  /** The number that the words of an address write in base 2^32. */
  function Value(words: seq<nat>): nat {
    if words == [] then 0 else 0x1_0000_0000 * Value(words[..|words| - 1]) + words[|words| - 1]
  }

  predicate AreWords(words: seq<nat>) {
    forall i :: 0 <= i < |words| ==> words[i] < 0x1_0000_0000
  }

  /** The first k of the eight hexadecimal digits of a word. */
  ghost function Digits(w: nat, k: nat): (p: Path)
    requires k <= 8
    ensures |p| == k
  {
    if k == 0 then [] else Digits(w, k - 1) + [w / Pow2(32 - 4 * k) % 16]
  }

  lemma {:induction false} DigitsAt(w: nat, k: nat, j: nat)
    requires j < k <= 8
    ensures Digits(w, k)[j] == w / Pow2(28 - 4 * j) % 16 < 16
  {
    if j < k - 1 {
      DigitsAt(w, k - 1, j);
    }
  }

  lemma NextDigit(w: nat, a: nat, A: nat, n: nat, m: nat)
    requires a > 0 && m == A * n + w / (16 * a)
    ensures 16 * m + w / a % 16 == (16 * A) * n + w / a
  {
    DivideTwiceBy(w, a);
    var t := A * n;
    Associates(A, n);
    assert w / a == 16 * (w / a / 16) + w / a % 16;
  }

  lemma DivideTwiceBy(w: nat, a: nat)
    requires a > 0
    ensures w / (16 * a) == w / a / 16
  {
    DivideSplit(w, a, 16);
  }

  lemma Associates(a: nat, x: nat)
    ensures 16 * a * x == 16 * (a * x)
  {
  }

  lemma {:induction false} NumberOfDigits(p: Path, w: nat, k: nat)
    requires w < Pow2(32) && k <= 8
    ensures Number(p + Digits(w, k)) == Pow2(4 * k) * Number(p) + w / Pow2(32 - 4 * k)
  {
    hide Pow2, Number;
    if k == 0 {
      assert p + Digits(w, 0) == p;
      NoDigits(w, Pow2(32), Number(p));
    } else {
      hide Digits;
      NumberOfDigits(p, w, k - 1);
      OneMoreDigit(p, w, k, 32 - 4 * k, 4 * (k - 1));
    }
  }

  lemma OneMoreDigit(p: Path, w: nat, k: nat, e: nat, f: nat)
    requires 1 <= k <= 8 && e == 32 - 4 * k && f == 4 * (k - 1)
    requires Number(p + Digits(w, k - 1)) == Pow2(f) * Number(p) + w / Pow2(e + 4)
    ensures Number(p + Digits(w, k)) == Pow2(f + 4) * Number(p) + w / Pow2(e)
  {
    assert p + Digits(w, k) == p + Digits(w, k - 1) + [w / Pow2(e) % 16];
    NumberAppends(p + Digits(w, k - 1), w / Pow2(e) % 16);
    Pow2Nibble(f);
    Pow2Nibble(e);
    hide Number, Digits, Pow2;
    NextDigit(w, Pow2(e), Pow2(f), Number(p), Number(p + Digits(w, k - 1)));
  }

  lemma NoDigits(w: nat, a: nat, n: nat)
    requires w < a
    ensures n == Pow2(0) * n + w / a
  {
  }

  lemma WordSize()
    ensures Pow2(32) == 0x1_0000_0000
  {
    Pow2Nibble(0);
    Pow2Nibble(4);
    Pow2Nibble(8);
    Pow2Nibble(12);
    Pow2Nibble(16);
    Pow2Nibble(20);
    Pow2Nibble(24);
    Pow2Nibble(28);
  }

  lemma NibblesOfLastWord(words: seq<nat>)
    requires words != []
    ensures Nibbles(words) == Nibbles(words[..|words| - 1]) + Digits(words[|words| - 1], 8)
  {
    var n, w := |words| - 1, words[|words| - 1];
    hide Pow2, Digits;
    var all, early, late := Nibbles(words), Nibbles(words[..n]), Digits(w, 8);
    forall k: nat | k < 8 * n ensures all[k] == early[k] {
      assert words[..n][4 * k / 32] == words[4 * k / 32];
    }
    forall j: nat | j < 8 ensures all[8 * n + j] == late[j] {
      DigitsAt(w, 8, j);
      LastWord(n, j);
    }
  }

  lemma LastWord(n: nat, j: nat)
    requires j < 8
    ensures 4 * (8 * n + j) / 32 == n && 4 * (8 * n + j) % 32 == 4 * j
  {
  }

  /** The nibbles get_subnet takes from an address are the hexadecimal digits of its value. */
  lemma {:induction false} NibblesAreDigits(words: seq<nat>)
    requires AreWords(words)
    ensures AreNibbles(Nibbles(words)) && Number(Nibbles(words)) == Value(words)
  {
    if words != [] {
      var n := |words| - 1;
      NibblesAreDigits(words[..n]);
      NibblesOfLastWord(words);
      WordSize();
      assert Pow2(0) == 1;
      forall j: nat | j < 8 ensures Digits(words[n], 8)[j] < 16 {
        DigitsAt(words[n], 8, j);
      }
      hide GetSubnet, Number, Pow2, Digits, Nibbles;
      NumberOfDigits(Nibbles(words[..n]), words[n], 8);
    } else {
      assert Nibbles(words) == [];
    }
  }

  // ---------- both address families ----------

  datatype Address = Ip4(word: nat) | Ip6(bytes: seq<nat>) | Unspecified

  predicate ValidAddress(a: Address) {
    match a
    case Ip4(word) => word < 0x1_0000_0000
    case Ip6(bytes) => |bytes| == 16 && forall i :: 0 <= i < 16 ==> bytes[i] < 256
    case Unspecified => true
  }

  /** split_ip6: four words of four bytes, the most significant first. */
  function SplitIp6(bytes: seq<nat>): (words: seq<nat>)
    requires |bytes| == 16
    ensures |words| == 4
  {
    seq(4, i requires 0 <= i < 4 =>
      0x100_0000 * bytes[4 * i] + 0x1_0000 * bytes[4 * i + 1] + 0x100 * bytes[4 * i + 2] + bytes[4 * i + 3])
  }

  /** The bit string of an address as a row of words; the unspecified address is all zeros. */
  function Words(a: Address): (words: seq<nat>)
    requires ValidAddress(a)
    ensures !a.Ip4? ==> |words| == 4
    ensures a.Ip4? ==> |words| == 1
  {
    match a
    case Ip4(word) => [word]
    case Ip6(bytes) => SplitIp6(bytes)
    case Unspecified => [0, 0, 0, 0]
  }

  predicate SizeFits(a: Address, bits: int) {
    match a
    case Ip4(_) => 0 <= bits <= 32
    case Ip6(_) => 0 <= bits <= 128
    case Unspecified => bits == 0
  }

  /** An access table: one tree for each address family. */
  class AuthTable {
    const base4: AuthTree
    const base6: AuthTree

    ghost predicate Valid()
      reads this, base4, base6
    {
      && base4 != base6 && base4.Valid() && base6.Valid()
      && base4.depth == 8 && base6.depth == 32
    }

    constructor ()
      ensures Valid() && fresh(base4) && fresh(base6) && base4.log == [] && base6.log == []
    {
      base4 := new AuthTree(1);
      base6 := new AuthTree(4);
    }

    /** set_subnet_: the rule joins the tree of its family, or both trees for the unspecified address. */
    method SetSubnet(a: Address, bits: int, state: State, all: bool) returns (status: Status)
      requires Valid() && ValidAddress(a)
      requires SizeFits(a, bits) ==> Fits(Rule(Nibbles(Words(a)), bits, state, all), 8 * |Words(a)|)
      modifies base4, base6
      ensures Valid()
      ensures status == if SizeFits(a, bits) then Success else BadSubnet
      ensures base4.log == old(base4.log)
                + if status == Success && a.Ip4? then [Rule(Nibbles(Words(a)), bits, state, all)]
                  else if status == Success && a.Unspecified? then [Rule(Nibbles([0]), 0, state, all)] else []
      ensures base6.log == old(base6.log)
                + if status == Success && !a.Ip4? then [Rule(Nibbles(Words(a)), bits, state, all)] else []
    {
      hide WellFormed, AllFit, Logged, Nibbles;
      match a {
        case Ip4(word) =>
          status := base4.SetSubnet([word], bits, state, all);
        case Ip6(bytes) =>
          status := base6.SetSubnet(SplitIp6(bytes), bits, state, all);
        case Unspecified =>
          if bits != 0 {
            return BadSubnet;
          }
          status := base4.SetSubnet([0], 0, state, all);
          status := base6.SetSubnet([0, 0, 0, 0], 0, state, all);
      }
    }

    /** ADF_IsAllowed. */
    method IsAllowed(a: Address) returns (allowed: bool)
      requires Valid() && ValidAddress(a)
      ensures a.Ip4? ==> (allowed <==> Decision(base4.log, 8, Nibbles(Words(a))) == Allow)
      ensures a.Ip6? ==> (allowed <==> Decision(base6.log, 32, Nibbles(Words(a))) == Allow)
      ensures a.Unspecified? ==> !allowed
    {
      hide WellFormed, Logged, Nibbles, Decision;
      match a {
        case Ip4(word) => allowed := base4.CheckIpInNode([word]);
        case Ip6(bytes) => allowed := base6.CheckIpInNode(SplitIp6(bytes));
        case Unspecified => allowed := false;
      }
    }
  }
}
