/** Which group members a client connects to (add_to_closest of group.c): the ring neighbours of its own key,
    two on either side, chosen by eviction. */
module GroupClosest {
  import opened Bytes

  const DESIRED_CLOSE_CONNECTIONS: nat := 4
  const RING: nat := 0x1_0000_0000_0000_0000

  datatype Node = Node(realPk: Key, tempPk: Key)

  /** An entry of closest_peers, which may be unused. */
  datatype Entry = Vacant | Held(node: Node)

  type Closest = c: seq<Entry> | |c| == 4 witness [Vacant, Vacant, Vacant, Vacant]

  // ---------- Distances on the ring ----------

  /** The place of a key on the ring of 2^64 places: its first eight bytes. */
  function Place(pk: Key): (n: nat)
    requires |pk| >= 8
  {
    Value(pk[..8])
  }

  /** calculate_comp_value: how far one goes down from pk1 to reach pk2. */
  function Down(pk1: Key, pk2: Key): (d: uint64)
    requires |pk1| >= 8 && |pk2| >= 8
  {
    (Place(pk1) - Place(pk2)) % RING
  }

  method CalculateCompValue(pk1: Key, pk2: Key) returns (d: uint64)
    requires |pk1| >= 8 && |pk2| >= 8
    ensures d == Down(pk1, pk2)
  {
    var cmp1, cmp2 := 0, 0;
    var i := 0;
    while i < 8
      invariant 0 <= i <= 8
      invariant cmp1 == Value(pk1[..i]) && cmp2 == Value(pk2[..i])
    {
      assert pk1[..i + 1] == pk1[..i] + [pk1[i]] && pk2[..i + 1] == pk2[..i] + [pk2[i]];
      ValueSnoc(pk1[..i], pk1[i]);
      ValueSnoc(pk2[..i], pk2[i]);
      cmp1 := cmp1 * 256 + pk1[i];
      cmp2 := cmp2 * 256 + pk2[i];
      i := i + 1;
    }
    return (cmp1 - cmp2) % RING;
  }

  /** How far pk is from own in the metric of entry i: below it for the first two entries, above it for the
      last two. */
  function Distance(own: Key, i: nat, pk: Key): (d: uint64)
    requires |own| >= 8 && |pk| >= 8
  {
    if i < DESIRED_CLOSE_CONNECTIONS / 2 then Down(own, pk) else Down(pk, own)
  }

  /** Going down the ring by the distance in the first two entries, or up by that in the last two, leads from own
      to pk, and nothing shorter does. */
  lemma {:induction false} RingDistance(own: Key, i: nat, pk: Key, d: uint64)
    requires |own| >= 8 && |pk| >= 8 && i < 4
    ensures d == Distance(own, i, pk) <==>
              (if i < 2 then Value(own[..8]) - d else Value(own[..8]) + d) % 0x1_0000_0000_0000_0000 == Value(pk[..8])
  {
    assert Pow256(8) == RING by {
      assert Pow256(4) == 0x1_0000_0000;
    }
    var a, b := Value(own[..8]), Value(pk[..8]);
    if i < 2 {
      RingStep(b, a, d);
    } else {
      RingStep(a, b, d);
    }
  }

  /** d steps lead up from a to b exactly if d is the difference on the ring. */
  lemma {:induction false} RingStep(a: nat, b: nat, d: nat)
    requires a < RING && b < RING && d < RING
    ensures d == (b - a) % RING <==> (a + d) % RING == b
    ensures d == (b - a) % RING <==> (b - d) % RING == a
  {
  }

  // ---------- The choice ----------

  ghost predicate KeysOk(c: Closest) {
    forall i :: 0 <= i < 4 ==> c[i].Held? ==> |c[i].node.realPk| >= 8
  }

  predicate Holds(c: Closest, pk: Key) {
    exists i :: 0 <= i < 4 && c[i].Held? && c[i].node.realPk == pk
  }

  function FirstVacant(c: Closest, i: nat): (r: nat)
    requires i <= 4
    ensures i <= r <= 4 && (r < 4 ==> c[r] == Vacant)
    ensures forall k :: i <= k < r ==> c[k].Held?
    decreases 4 - i
  {
    if i == 4 || c[i] == Vacant then i else FirstVacant(c, i + 1)
  }

  ghost predicate Full(c: Closest) {
    forall i :: 0 <= i < 4 ==> c[i].Held? && |c[i].node.realPk| >= 8
  }

  /** The distances of the entries, each in its own metric. */
  function Distances(own: Key, c: Closest): (ds: seq<uint64>)
    requires |own| >= 8 && Full(c)
    ensures |ds| == 4 && forall k :: 0 <= k < 4 ==> ds[k] == Distance(own, k, c[k].node.realPk)
  {
    [Distance(own, 0, c[0].node.realPk), Distance(own, 1, c[1].node.realPk),
     Distance(own, 2, c[2].node.realPk), Distance(own, 3, c[3].node.realPk)]
  }

  /** The distances pk would have in each entry. */
  function DistancesOf(own: Key, pk: Key): (ds: seq<uint64>)
    requires |own| >= 8 && |pk| >= 8
    ensures |ds| == 4 && forall k :: 0 <= k < 4 ==> ds[k] == Distance(own, k, pk)
  {
    [Distance(own, 0, pk), Distance(own, 1, pk), Distance(own, 2, pk), Distance(own, 3, pk)]
  }

  /** The two loops that look for the entry to evict: among the entries that are farther than the node, one
      whose distance none of the later ones exceeds. */
  function Scan(comps: seq<uint64>, vals: seq<uint64>, i: nat, index: nat, best: nat): (r: nat)
    requires |comps| == |vals| == 4 && i <= 4 && index <= 4 && (index == 4 ==> best == 0)
    decreases 4 - i
  {
    if i == 4 then index
    else if comps[i] > vals[i] && comps[i] > best then Scan(comps, vals, i + 1, i, comps[i])
    else Scan(comps, vals, i + 1, index, best)
  }

  lemma {:induction false} ScanFinds(comps: seq<uint64>, vals: seq<uint64>, i: nat, index: nat, best: nat)
    requires |comps| == |vals| == 4 && i <= 4 && index <= 4 && (index == 4 ==> best == 0)
    ensures var r := Scan(comps, vals, i, index, best);
      && (r == index || (i <= r < 4 && comps[r] > vals[r]))
      && (r == 4 ==> forall k :: i <= k < 4 ==> comps[k] <= vals[k])
    decreases 4 - i
  {
    if i < 4 {
      if comps[i] > vals[i] && comps[i] > best {
        ScanFinds(comps, vals, i + 1, i, comps[i]);
      } else {
        ScanFinds(comps, vals, i + 1, index, best);
      }
    }
  }

  /** The entry to evict for pk: one that is farther than pk, if there is one. */
  function Victim(own: Key, c: Closest, pk: Key): (r: nat)
    requires |own| >= 8 && |pk| >= 8 && Full(c)
    ensures r <= 4
    ensures r < 4 ==> Distance(own, r, c[r].node.realPk) > Distance(own, r, pk)
    ensures r == 4 ==> forall k :: 0 <= k < 4 ==> Distance(own, k, c[k].node.realPk) <= Distance(own, k, pk)
  {
    ScanFinds(Distances(own, c), DistancesOf(own, pk), 0, 4, 0);
    Scan(Distances(own, c), DistancesOf(own, pk), 0, 4, 0)
  }

  /** The sum of the distances of the entries, each in its own metric. */
  function Total(own: Key, c: Closest): nat
    requires |own| >= 8 && KeysOk(c)
  {
    EntryDistance(own, c, 0) + EntryDistance(own, c, 1) + EntryDistance(own, c, 2) + EntryDistance(own, c, 3)
  }

  function EntryDistance(own: Key, c: Closest, i: nat): nat
    requires |own| >= 8 && i < 4 && KeysOk(c)
  {
    if c[i].Held? then Distance(own, i, c[i].node.realPk) else 0
  }

  /** Every eviction brings the sum down. */
  lemma {:induction false} EvictionFalls(own: Key, c: Closest, i: nat, node: Node)
    requires |own| >= 8 && Full(c) && i < 4 && |node.realPk| >= 8
    requires Distance(own, i, c[i].node.realPk) > Distance(own, i, node.realPk)
    ensures KeysOk(c[i := Held(node)]) && Full(c[i := Held(node)])
    ensures Total(own, c[i := Held(node)]) < Total(own, c)
  {
    var c' := c[i := Held(node)];
    assert forall k :: 0 <= k < 4 && k != i ==> c'[k] == c[k];
  }

  /** add_to_closest: offer a node; one that is evicted for it is offered again. */
  function Add(own: Key, c: Closest, node: Node): (c': Closest)
    requires |own| >= 8 && KeysOk(c) && |node.realPk| >= 8
    ensures KeysOk(c')
    decreases Total(own, c)
  {
    if node.realPk == own || Holds(c, node.realPk) then c
    else if FirstVacant(c, 0) < 4 then c[FirstVacant(c, 0) := Held(node)]
    else
      var i := Victim(own, c, node.realPk);
      if i == 4 then c
      else
        EvictionFalls(own, c, i, node);
        Add(own, c[i := Held(node)], c[i].node)
  }

  // ---------- What the choice is worth ----------

  /** No key is held twice, and never the own one. */
  ghost predicate Distinct(own: Key, c: Closest) {
    && (forall i, j :: 0 <= i < j < 4 && c[i].Held? && c[j].Held? ==> c[i].node.realPk != c[j].node.realPk)
    && (forall i :: 0 <= i < 4 && c[i].Held? ==> c[i].node.realPk != own)
  }

  /** pk is held, or every entry is taken by a node that is at least as near in the metric of the entry. */
  ghost predicate Placed(own: Key, c: Closest, pk: Key)
    requires |own| >= 8 && |pk| >= 8
  {
    Holds(c, pk) ||
    (Full(c) && forall i :: 0 <= i < 4 ==> Distance(own, i, c[i].node.realPk) <= Distance(own, i, pk))
  }

  lemma {:induction false} AddDistinct(own: Key, c: Closest, node: Node)
    requires |own| >= 8 && KeysOk(c) && |node.realPk| >= 8 && Distinct(own, c)
    ensures Distinct(own, Add(own, c, node))
    decreases Total(own, c)
  {
    if node.realPk == own || Holds(c, node.realPk) || FirstVacant(c, 0) < 4 {
    } else {
      var i := Victim(own, c, node.realPk);
      if i < 4 {
        EvictionFalls(own, c, i, node);
        AddDistinct(own, c[i := Held(node)], c[i].node);
      }
    }
  }

  /** Who is held before or after an eviction. */
  lemma {:induction false} EvictionPlaces(own: Key, c: Closest, i: nat, node: Node, pk: Key)
    requires |own| >= 8 && Full(c) && i < 4 && |node.realPk| >= 8 && |pk| >= 8
    requires Distance(own, i, c[i].node.realPk) > Distance(own, i, node.realPk)
    requires Placed(own, c, pk) && pk != c[i].node.realPk
    ensures Placed(own, c[i := Held(node)], pk)
  {
    var c' := c[i := Held(node)];
    if Holds(c, pk) {
      var j :| 0 <= j < 4 && c[j].Held? && c[j].node.realPk == pk;
      assert c'[j] == c[j];
    } else {
      forall k | 0 <= k < 4 ensures Distance(own, k, c'[k].node.realPk) <= Distance(own, k, pk) {
        assert c'[k] == if k == i then Held(node) else c[k];
      }
    }
  }

  /** Offering a node places it, and every node that was placed stays placed: whoever loses an entry is
      offered again. */
  lemma {:induction false} AddPlaces(own: Key, c: Closest, node: Node, pk: Key)
    requires |own| >= 8 && KeysOk(c) && |node.realPk| >= 8 && |pk| >= 8
    requires pk != own && (Placed(own, c, pk) || pk == node.realPk)
    ensures Placed(own, Add(own, c, node), pk)
    decreases Total(own, c)
  {
    if node.realPk == own || Holds(c, node.realPk) {
    } else if FirstVacant(c, 0) < 4 {
      var i := FirstVacant(c, 0);
      var c' := c[i := Held(node)];
      if pk == node.realPk {
        assert c'[i].node.realPk == pk;
      } else {
        var j :| 0 <= j < 4 && c[j].Held? && c[j].node.realPk == pk;
        assert c'[j] == c[j];
      }
    } else {
      var i := Victim(own, c, node.realPk);
      if i < 4 {
        EvictionFalls(own, c, i, node);
        var c', evicted := c[i := Held(node)], c[i].node;
        if pk == node.realPk {
          assert c'[i].node.realPk == pk;
        } else if pk != evicted.realPk {
          EvictionPlaces(own, c, i, node, pk);
        }
        AddPlaces(own, c', evicted, pk);
      }
    }
  }

  /** Nodes offered one after the other. */
  function Offer(own: Key, c: Closest, nodes: seq<Node>): (c': Closest)
    requires |own| >= 8 && KeysOk(c) && forall i :: 0 <= i < |nodes| ==> |nodes[i].realPk| >= 8
    ensures KeysOk(c')
  {
    if nodes == [] then c else Add(own, Offer(own, c, nodes[..|nodes| - 1]), nodes[|nodes| - 1])
  }

  /** After any offers: no key is held twice, and no node that was offered, or held at the beginning, is left
      out for one that is strictly farther in the metric of its entry. */
  lemma {:induction false} OfferPlaces(own: Key, c: Closest, nodes: seq<Node>, pk: Key)
    requires |own| >= 8 && KeysOk(c) && forall i :: 0 <= i < |nodes| ==> |nodes[i].realPk| >= 8
    requires Distinct(own, c) && |pk| >= 8 && pk != own
    requires Placed(own, c, pk) || exists i :: 0 <= i < |nodes| && nodes[i].realPk == pk
    ensures Distinct(own, Offer(own, c, nodes)) && Placed(own, Offer(own, c, nodes), pk)
  {
    OfferDistinct(own, c, nodes);
    if nodes != [] {
      var n := |nodes| - 1;
      if pk != nodes[n].realPk {
        if i :| 0 <= i < |nodes| && nodes[i].realPk == pk {
          assert nodes[..n][i].realPk == pk;
        }
        OfferPlaces(own, c, nodes[..n], pk);
      }
      AddPlaces(own, Offer(own, c, nodes[..n]), nodes[n], pk);
    }
  }

  lemma {:induction false} OfferDistinct(own: Key, c: Closest, nodes: seq<Node>)
    requires |own| >= 8 && KeysOk(c) && Distinct(own, c) && forall i :: 0 <= i < |nodes| ==> |nodes[i].realPk| >= 8
    ensures Distinct(own, Offer(own, c, nodes))
  {
    if nodes != [] {
      OfferDistinct(own, c, nodes[..|nodes| - 1]);
      AddDistinct(own, Offer(own, c, nodes[..|nodes| - 1]), nodes[|nodes| - 1]);
    }
  }

  /** Whoever is held was held before or is the node that was offered. */
  lemma {:induction false} AddOrigin(own: Key, c: Closest, node: Node, pk: Key)
    requires |own| >= 8 && KeysOk(c) && |node.realPk| >= 8 && Holds(Add(own, c, node), pk)
    ensures Holds(c, pk) || pk == node.realPk
    decreases Total(own, c)
  {
    if node.realPk == own || Holds(c, node.realPk) || FirstVacant(c, 0) < 4 {
    } else {
      var i := Victim(own, c, node.realPk);
      if i < 4 {
        EvictionFalls(own, c, i, node);
        AddOrigin(own, c[i := Held(node)], c[i].node, pk);
      }
    }
  }

  // ---------- In place ----------

  /** The loops of add_to_closest that look for an entry to evict. */
  method FindVictim(own: Key, closest: array<Entry>, pk: Key) returns (index: nat)
    requires closest.Length == 4 && |own| >= 8 && |pk| >= 8 && Full(closest[..])
    ensures index == Victim(own, closest[..], pk)
  {
    ghost var c: Closest := closest[..];
    ghost var comps, vals := Distances(own, c), DistancesOf(own, pk);
    var best := 0;
    var compVal := CalculateCompValue(own, pk);
    assert vals[0] == vals[1] == compVal;
    index, best := ScanHalf(own, closest, compVal, 0, DESIRED_CLOSE_CONNECTIONS, best, vals);
    compVal := CalculateCompValue(pk, own);
    assert vals[2] == vals[3] == compVal;
    index, best := ScanHalf(own, closest, compVal, 2, index, best, vals);
  }

  /** One of the two loops: over the two entries of one metric from lo on. */
  method ScanHalf(own: Key, closest: array<Entry>, compVal: uint64, lo: nat, index: nat, compD: nat, ghost vals: seq<uint64>)
    returns (index': nat, compD': nat)
    requires closest.Length == 4 && |own| >= 8 && Full(closest[..]) && lo <= 2 && index <= 4 && (index == 4 ==> compD == 0)
    requires |vals| == 4 && forall k :: lo <= k < lo + 2 ==> vals[k] == compVal
    ensures index' <= 4 && (index' == 4 ==> compD' == 0)
    ensures Scan(Distances(own, closest[..]), vals, lo, index, compD)
         == Scan(Distances(own, closest[..]), vals, lo + 2, index', compD')
  {
    ghost var comps := Distances(own, closest[..]);
    ghost var victim := Scan(comps, vals, lo, index, compD);
    index', compD' := index, compD;
    var i := lo;
    while i < lo + DESIRED_CLOSE_CONNECTIONS / 2
      invariant lo <= i <= lo + 2 && index' <= 4 && (index' == 4 ==> compD' == 0)
      invariant victim == Scan(comps, vals, i, index', compD')
    {
      var comp := CompAt(own, closest, i);
      if comp > compVal && comp > compD' {
        index' := i;
        compD' := comp;
      }
      i := i + 1;
    }
  }

  /** The distance of entry i in the metric of its slot. */
  method CompAt(own: Key, closest: array<Entry>, i: nat) returns (comp: uint64)
    requires closest.Length == 4 && |own| >= 8 && Full(closest[..]) && i < 4
    ensures comp == Distances(own, closest[..])[i]
  {
    if i < DESIRED_CLOSE_CONNECTIONS / 2 {
      comp := CalculateCompValue(own, closest[i].node.realPk);
    } else {
      comp := CalculateCompValue(closest[i].node.realPk, own);
    }
  }

  /** The loops of add_to_closest that look for the key and for an unused entry. */
  method Locate(closest: array<Entry>, pk: Key) returns (held: bool, vacant: nat)
    requires closest.Length == 4
    ensures held <==> Holds(closest[..], pk)
    ensures !held ==> vacant == FirstVacant(closest[..], 0)
  {
    ghost var c: Closest := closest[..];
    held, vacant := false, 0;
    var i := 0;
    while i < DESIRED_CLOSE_CONNECTIONS
      invariant 0 <= i <= 4
      invariant forall k :: 0 <= k < i ==> !(c[k].Held? && c[k].node.realPk == pk)
    {
      if closest[i].Held? && closest[i].node.realPk == pk {
        assert c[i].Held?;
        return true, 0;
      }
      i := i + 1;
    }
    while vacant < DESIRED_CLOSE_CONNECTIONS && closest[vacant].Held?
      invariant 0 <= vacant <= 4
      invariant FirstVacant(c, 0) == FirstVacant(c, vacant)
    {
      vacant := vacant + 1;
    }
  }

  /** The node has an entry, or is given one. */
  predicate Accepts(own: Key, c: Closest, node: Node)
    requires |own| >= 8 && |node.realPk| >= 8 && KeysOk(c)
  {
    node.realPk != own &&
    (Holds(c, node.realPk) || FirstVacant(c, 0) < 4 || Victim(own, c, node.realPk) < 4)
  }

  lemma {:induction false} AddFalls(own: Key, c: Closest, node: Node)
    requires |own| >= 8 && Full(c) && |node.realPk| >= 8
    ensures Full(Add(own, c, node)) && Total(own, Add(own, c, node)) <= Total(own, c)
    ensures Add(own, c, node) != c ==> Total(own, Add(own, c, node)) < Total(own, c)
    decreases Total(own, c)
  {
    if node.realPk != own && !Holds(c, node.realPk) && FirstVacant(c, 0) == 4 {
      var i := Victim(own, c, node.realPk);
      if i < 4 {
        EvictionFalls(own, c, i, node);
        AddFalls(own, c[i := Held(node)], c[i].node);
      }
    }
  }

  /** The answer says whether the node was held already or the entries have changed. */
  lemma {:induction false} AcceptsExactly(own: Key, c: Closest, node: Node)
    requires |own| >= 8 && |node.realPk| >= 8 && KeysOk(c)
    ensures Accepts(own, c, node) <==> node.realPk != own && (Holds(c, node.realPk) || Add(own, c, node) != c)
  {
    if node.realPk != own && !Holds(c, node.realPk) {
      var v := FirstVacant(c, 0);
      if v < 4 {
        assert c[v := Held(node)][v] != c[v];
      } else {
        var i := Victim(own, c, node.realPk);
        if i < 4 {
          EvictionFalls(own, c, i, node);
          AddFalls(own, c[i := Held(node)], c[i].node);
        }
      }
    }
  }

  /** add_to_closest. */
  method AddToClosest(own: Key, closest: array<Entry>, node: Node) returns (ok: bool)
    requires closest.Length == 4 && |own| >= 8 && |node.realPk| >= 8 && KeysOk(closest[..])
    modifies closest
    ensures closest[..] == Add(own, old(closest[..]), node) && KeysOk(closest[..])
    ensures ok == Accepts(own, old(closest[..]), node)
    decreases Total(own, closest[..])
  {
    ghost var c: Closest := closest[..];
    if node.realPk == own {
      return false;
    }
    var held, index := Locate(closest, node.realPk);
    if held {
      return true;
    }
    if index == DESIRED_CLOSE_CONNECTIONS {
      index := FindVictim(own, closest, node.realPk);
      if index == DESIRED_CLOSE_CONNECTIONS {
        return false;
      }
      EvictionFalls(own, c, index, node);
    }
    var old_entry := closest[index];
    closest[index] := Held(node);
    assert closest[..] == c[index := Held(node)];
    if old_entry.Held? {
      var _ := AddToClosest(own, closest, old_entry.node);
    }
    return true;
  }
}
