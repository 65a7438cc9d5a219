/** The nodes a DHT node answers a request with (DHT.c): the four known ones closest to the key asked for. */
module CloseNodes {
  import opened Bytes
  import opened XorMetric
  import opened Sets

  const MAX_SENT_NODES: nat := 4
  const BAD_NODE_TIMEOUT: nat := 122
  const HARDENING_ALL_OK: nat := 2

  /** lan says that LAN_ip holds of the address. */
  datatype IpPort = IpPort(address: seq<byte>, port: nat, lan: bool)

  datatype Node = Node(publicKey: Key, ipPort: IpPort)

  function ZeroKey(): (k: Key)
    ensures |k| == KEY_BYTES
  {
    seq(KEY_BYTES, _ => 0)
  }

  function ZeroNode(): Node {
    Node(ZeroKey(), IpPort([], 0, false))
  }

  function Far(pk: Key, node: Node): nat
    requires |pk| == |node.publicKey|
  {
    Distance(pk, node.publicKey)
  }

  ghost predicate SizedNodes(ns: seq<Node>) {
    forall i :: 0 <= i < |ns| ==> |ns[i].publicKey| == KEY_BYTES
  }

  // ---------- add_to_list ----------

  /** The first entry from place i on that is farther from pk than node, or the length of the list. */
  function FirstFarther(pk: Key, ns: seq<Node>, node: Node, i: nat): (r: nat)
    requires |pk| == |node.publicKey| == KEY_BYTES && SizedNodes(ns) && i <= |ns|
    ensures i <= r <= |ns| && (r < |ns| ==> Far(pk, ns[r]) > Far(pk, node))
    ensures forall k :: i <= k < r ==> Far(pk, ns[k]) <= Far(pk, node)
    decreases |ns| - i
  {
    if i == |ns| || Far(pk, ns[i]) > Far(pk, node) then i else FirstFarther(pk, ns, node, i + 1)
  }

  /** After node has taken the place of a farther entry, only later entries can be farther than that one. */
  lemma {:induction false} NextFarther(pk: Key, ns: seq<Node>, node: Node)
    requires |pk| == |node.publicKey| == KEY_BYTES && SizedNodes(ns) && FirstFarther(pk, ns, node, 0) < |ns|
    ensures var i := FirstFarther(pk, ns, node, 0);
      SizedNodes(ns[i := node]) && FirstFarther(pk, ns[i := node], ns[i], 0) > i
  {
    var i := FirstFarther(pk, ns, node, 0);
    var ns' := ns[i := node];
    assert forall k :: 0 <= k < |ns| && k != i ==> ns'[k] == ns[k];
  }

  /** add_to_list: the new list, and the node that is left over. */
  function AddToList(pk: Key, ns: seq<Node>, node: Node): (r: (seq<Node>, Node))
    requires |pk| == |node.publicKey| == KEY_BYTES && SizedNodes(ns)
    ensures |r.0| == |ns| && SizedNodes(r.0) && |r.1.publicKey| == KEY_BYTES
    decreases |ns| - FirstFarther(pk, ns, node, 0)
  {
    var i := FirstFarther(pk, ns, node, 0);
    if i == |ns| then (ns, node)
    else if i == |ns| - 1 then (ns[i := node], ns[i])
    else
      NextFarther(pk, ns, node);
      AddToList(pk, ns[i := node], ns[i])
  }

  /** The list keeps exactly the closest of its entries and the new node: what is left over is one of them,
      and none of the others is farther. */
  lemma {:induction false} AddToListEvictsFarthest(pk: Key, ns: seq<Node>, node: Node)
    requires |pk| == |node.publicKey| == KEY_BYTES && SizedNodes(ns)
    ensures var (ns', out) := AddToList(pk, ns, node);
      && multiset(ns') + multiset{out} == multiset(ns) + multiset{node}
      && forall k :: 0 <= k < |ns| ==> Far(pk, ns'[k]) <= Far(pk, out)
    decreases |ns| - FirstFarther(pk, ns, node, 0)
  {
    var i := FirstFarther(pk, ns, node, 0);
    if i < |ns| {
      Exchange(ns, i, node);
      if i < |ns| - 1 {
        NextFarther(pk, ns, node);
        AddToListEvictsFarthest(pk, ns[i := node], ns[i]);
      }
    }
  }

  lemma {:induction false} Exchange(ns: seq<Node>, i: nat, node: Node)
    requires i < |ns|
    ensures multiset(ns[i := node]) + multiset{ns[i]} == multiset(ns) + multiset{node}
  {
    assert ns == ns[..i] + [ns[i]] + ns[i + 1..];
    assert ns[i := node] == ns[..i] + [node] + ns[i + 1..];
  }

  /** add_to_list, in place. */
  method AddInPlace(nodes: array<Node>, node: Node, pk: Key) returns (added: bool)
    requires |pk| == |node.publicKey| == KEY_BYTES && SizedNodes(nodes[..])
    modifies nodes
    ensures SizedNodes(nodes[..]) && nodes[..] == AddToList(pk, old(nodes[..]), node).0
    ensures added <==> exists k :: 0 <= k < nodes.Length && Far(pk, old(nodes[..])[k]) > Far(pk, node)
    decreases nodes.Length - FirstFarther(pk, nodes[..], node, 0)
  {
    ghost var ns := nodes[..];
    var i := 0;
    while i < nodes.Length
      invariant 0 <= i <= nodes.Length
      invariant nodes[..] == ns && FirstFarther(pk, ns, node, 0) == FirstFarther(pk, ns, node, i)
    {
      assert nodes[i] == ns[i];
      var closer := IdClosest(pk, nodes[i].publicKey, node.publicKey);
      if closer == 2 {
        assert FirstFarther(pk, ns, node, 0) == i;
        NextFarther(pk, ns, node);
        var saved := nodes[i];
        nodes[i] := node;
        assert nodes[..] == ns[i := node];
        if i != nodes.Length - 1 {
          var _ := AddInPlace(nodes, saved, pk);
        }
        return true;
      }
      i := i + 1;
    }
    return false;
  }

  // ---------- Which clients are eligible ----------

  datatype Family = IPv4 | IPv6 | Either | Unknown

  datatype Address = Address(ipPort: IpPort, timestamp: nat, hardening: nat)

  datatype Client = Client(publicKey: Key, assoc4: Address, assoc6: Address)

  /** What the request is about: the key asked for, the addresses wanted, the time. */
  datatype Query = Query(pk: Key, family: Family, isLan: bool, wantGood: bool, now: nat)

  function Chosen(q: Query, c: Client): Address {
    match q.family
    case IPv4 => c.assoc4
    case IPv6 => c.assoc6
    case _ => if c.assoc4.timestamp >= c.assoc6.timestamp then c.assoc4 else c.assoc6
  }

  predicate Eligible(q: Query, c: Client) {
    var a := Chosen(q, c);
    && q.family != Unknown
    && !(a.timestamp + BAD_NODE_TIMEOUT <= q.now)
    && !(a.ipPort.lan && !q.isLan)
    && !(!a.ipPort.lan && q.wantGood && a.hardening != HARDENING_ALL_OK && q.pk != c.publicKey)
  }

  // ---------- The selection ----------

  ghost predicate DistinctNodes(ns: seq<Node>) {
    forall i, j :: 0 <= i < j < |ns| ==> ns[i].publicKey != ns[j].publicKey
  }

  function Keys(ns: seq<Node>, n: nat): (s: set<Key>)
    requires n <= |ns|
  {
    set i | 0 <= i < n :: ns[i].publicKey
  }

  /** ks are the closest keys of all, as many as there are up to four. */
  ghost predicate Closest(pk: Key, ks: set<Key>, all: set<Key>) {
    && (forall k :: k in all ==> |k| == |pk|)
    && ks <= all && |ks| == (if |all| < MAX_SENT_NODES then |all| else MAX_SENT_NODES)
    && (forall k, other :: k in ks && other in all - ks ==> Distance(pk, k) < Distance(pk, other))
  }

  /** The list after the eligible keys in all have been seen: num different nodes with the closest of them,
      then zeros. */
  ghost predicate Selected(pk: Key, ns: seq<Node>, num: nat, all: set<Key>) {
    && |ns| == MAX_SENT_NODES && |pk| == KEY_BYTES && SizedNodes(ns) && num <= |ns|
    && ZeroKey() !in all
    && DistinctNodes(ns[..num])
    && (forall i :: num <= i < |ns| ==> ns[i].publicKey == ZeroKey())
    && Closest(pk, Keys(ns, num), all)
  }

  lemma {:induction false} KeysSize(ns: seq<Node>, n: nat)
    requires n <= |ns| && DistinctNodes(ns[..n])
    ensures |Keys(ns, n)| == n
  {
    if n != 0 {
      assert ns[..n][..n - 1] == ns[..n - 1];
      KeysSize(ns, n - 1);
      LastKeyIsNew(ns, n);
    } else {
      assert Keys(ns, n) == {};
    }
  }

  lemma {:induction false} LastKeyIsNew(ns: seq<Node>, n: nat)
    requires 0 < n <= |ns| && DistinctNodes(ns[..n])
    ensures Keys(ns, n) == Keys(ns, n - 1) + {ns[n - 1].publicKey} && ns[n - 1].publicKey !in Keys(ns, n - 1)
  {
    forall i | 0 <= i < n - 1 ensures ns[i].publicKey != ns[n - 1].publicKey {
      assert ns[..n][i] == ns[i] && ns[..n][n - 1] == ns[n - 1];
    }
  }

  /** With room left, a new key is appended. */
  lemma {:induction false} AppendSelected(pk: Key, ns: seq<Node>, num: nat, all: set<Key>, node: Node)
    requires Selected(pk, ns, num, all) && num < MAX_SENT_NODES
    requires |node.publicKey| == KEY_BYTES && node.publicKey != ZeroKey() && node.publicKey !in Keys(ns, num)
    ensures Selected(pk, ns[num := node], num + 1, all + {node.publicKey})
  {
    KeysSize(ns, num);
    SubsetOfSameSize(Keys(ns, num), all);
    KeysAppend(ns, num, node);
    AppendedInOrder(ns, num, node);
    assert |all + {node.publicKey}| == num + 1;
    AllClosest(pk, all + {node.publicKey});
  }

  lemma {:induction false} AppendedInOrder(ns: seq<Node>, num: nat, node: Node)
    requires num < |ns| && SizedNodes(ns) && |node.publicKey| == KEY_BYTES && node.publicKey !in Keys(ns, num)
    requires DistinctNodes(ns[..num])
    ensures SizedNodes(ns[num := node]) && DistinctNodes(ns[num := node][..num + 1])
  {
    var ns' := ns[num := node][..num + 1];
    forall i, j | 0 <= i < j < num + 1 ensures ns'[i].publicKey != ns'[j].publicKey {
      assert ns'[i] == ns[i] == ns[..num][i];
      if j == num {
        assert ns[i].publicKey in Keys(ns, num);
      } else {
        assert ns'[j] == ns[..num][j];
      }
    }
  }

  lemma {:induction false} KeysAppend(ns: seq<Node>, num: nat, node: Node)
    requires num < |ns|
    ensures Keys(ns[num := node], num + 1) == Keys(ns, num) + {node.publicKey}
  {
    var ns' := ns[num := node];
    assert forall i :: 0 <= i < num ==> ns'[i] == ns[i];
    assert ns'[num] == node;
  }

  lemma {:induction false} AllClosest(pk: Key, all: set<Key>)
    requires |all| <= MAX_SENT_NODES && forall k :: k in all ==> |k| == |pk|
    ensures Closest(pk, all, all)
  {
  }

  /** Replacing the farthest of four and a new key leaves the closest four of all. */
  lemma {:induction false} ClosestReplaced(pk: Key, ks: set<Key>, all: set<Key>, key: Key, ks': set<Key>, out: Key)
    requires Closest(pk, ks, all) && |ks| == MAX_SENT_NODES && |key| == |pk| && key !in ks
    requires out in ks + {key} && ks' == ks + {key} - {out}
    requires forall k :: k in ks' ==> Distance(pk, k) <= Distance(pk, out)
    ensures Closest(pk, ks', all + {key})
  {
    var all' := all + {key};
    SubsetSize(ks, all);
    SubsetSize(ks, all');
    if out == key {
      assert ks' == ks;
    } else {
      assert ks' == ks - {out} + {key};
    }
    forall k, other | k in ks' && other in all' - ks' ensures Distance(pk, k) < Distance(pk, other) {
      if other == out {
        if Distance(pk, k) == Distance(pk, out) {
          DistanceInjective(pk, k, out);
        }
      } else {
        OutOfReach(pk, ks, all, key, ks', out, k, other);
      }
    }
  }

  /** A key that was left out before is farther than any that is kept now. */
  lemma {:induction false} OutOfReach(pk: Key, ks: set<Key>, all: set<Key>, key: Key, ks': set<Key>, out: Key, k: Key, other: Key)
    requires Closest(pk, ks, all) && |key| == |pk| && key !in ks && out in ks + {key} && ks' == ks + {key} - {out}
    requires forall k :: k in ks' ==> Distance(pk, k) <= Distance(pk, out)
    requires k in ks' && other in all + {key} - ks' && other != out
    ensures Distance(pk, k) < Distance(pk, other)
  {
    assert other in all - ks;
    if k !in ks {
      assert k == key && out in ks;
      assert Distance(pk, key) <= Distance(pk, out) < Distance(pk, other);
    }
  }

  /** With the list full, add_to_list keeps it the selection. */
  lemma {:induction false} ReplaceSelected(pk: Key, ns: seq<Node>, all: set<Key>, node: Node)
    requires Selected(pk, ns, MAX_SENT_NODES, all)
    requires |node.publicKey| == KEY_BYTES && node.publicKey != ZeroKey() && node.publicKey !in Keys(ns, MAX_SENT_NODES)
    ensures Selected(pk, AddToList(pk, ns, node).0, MAX_SENT_NODES, all + {node.publicKey})
  {
    var (ns', out) := AddToList(pk, ns, node);
    AddToListEvictsFarthest(pk, ns, node);
    assert ns[..4] == ns && ns'[..4] == ns';
    KeysSize(ns, 4);
    var ks, ks' := Keys(ns, 4), Keys(ns', 4);
    KeysAfterExchange(ns, ns', node, out);
    forall k | k in ks' ensures Distance(pk, k) <= Distance(pk, out.publicKey) {
      var i :| 0 <= i < 4 && ns'[i].publicKey == k;
      assert Far(pk, ns'[i]) <= Far(pk, out);
    }
    ClosestReplaced(pk, ks, all, node.publicKey, ks', out.publicKey);
  }

  /** Exchanging one node of a list without repetitions for another keeps it without repetitions. */
  lemma {:induction false} KeysAfterExchange(ns: seq<Node>, ns': seq<Node>, node: Node, out: Node)
    requires |ns| == |ns'| && DistinctNodes(ns) && node.publicKey !in Keys(ns, |ns|)
    requires multiset(ns') + multiset{out} == multiset(ns) + multiset{node}
    ensures DistinctNodes(ns') && out.publicKey in Keys(ns, |ns|) + {node.publicKey}
    ensures Keys(ns', |ns|) == Keys(ns, |ns|) + {node.publicKey} - {out.publicKey}
  {
    var all := ns + [node];
    assert DistinctNodes(all) by {
      forall i, j | 0 <= i < j < |all| ensures all[i].publicKey != all[j].publicKey {
        if j == |ns| {
          assert ns[i].publicKey in Keys(ns, |ns|);
        }
      }
    }
    assert multiset(ns' + [out]) == multiset(all);
    SameMultisetDistinct(all, ns' + [out]);
    var both := ns' + [out];
    assert Keys(both, |both|) == Keys(ns', |ns|) + {out.publicKey} by { KeysSnoc(ns', out); }
    assert Keys(all, |all|) == Keys(ns, |ns|) + {node.publicKey} by { KeysSnoc(ns, node); }
    assert out.publicKey !in Keys(ns', |ns|) by {
      forall i | 0 <= i < |ns'| ensures ns'[i].publicKey != out.publicKey {
        assert both[i] == ns'[i] && both[|ns'|] == out;
      }
    }
    forall i, j | 0 <= i < j < |ns'| ensures ns'[i].publicKey != ns'[j].publicKey {
      assert both[i] == ns'[i] && both[j] == ns'[j];
    }
  }

  lemma {:induction false} KeysSnoc(ns: seq<Node>, node: Node)
    ensures Keys(ns + [node], |ns| + 1) == Keys(ns, |ns|) + {node.publicKey}
  {
    var all := ns + [node];
    assert forall i :: 0 <= i < |ns| ==> all[i] == ns[i];
    assert all[|ns|] == node;
  }

  lemma {:induction false} SameMultisetDistinct(a: seq<Node>, b: seq<Node>)
    requires multiset(a) == multiset(b) && DistinctNodes(a)
    ensures DistinctNodes(b) && Keys(a, |a|) == Keys(b, |b|)
  {
    forall i, j | 0 <= i < j < |b| ensures b[i].publicKey != b[j].publicKey {
      assert b[i] in multiset(b) && b[j] in multiset(b);
      assert b[i] in a && b[j] in a;
      if b[i] == b[j] {
        TwiceInMultiset(b, i, j);
        OnceInMultiset(a, b[i]);
      }
    }
    forall k | k in Keys(a, |a|) ensures k in Keys(b, |b|) {
      var i :| 0 <= i < |a| && a[i].publicKey == k;
      assert a[i] in multiset(b);
      assert a[i] in b;
    }
    forall k | k in Keys(b, |b|) ensures k in Keys(a, |a|) {
      var i :| 0 <= i < |b| && b[i].publicKey == k;
      assert b[i] in multiset(a);
      assert b[i] in a;
    }
  }

  lemma {:induction false} TwiceInMultiset(s: seq<Node>, i: nat, j: nat)
    requires i < j < |s| && s[i] == s[j]
    ensures multiset(s)[s[i]] >= 2
  {
    assert s == s[..i] + [s[i]] + s[i + 1..j] + [s[j]] + s[j + 1..];
  }

  lemma {:induction false} OnceInMultiset(s: seq<Node>, x: Node)
    requires DistinctNodes(s) && x in s
    ensures multiset(s)[x] == 1
  {
    var i :| 0 <= i < |s| && s[i] == x;
    assert s == s[..i] + [x] + s[i + 1..];
    assert x !in s[..i] && x !in s[i + 1..];
  }

  // ---------- The search through the client lists ----------

  /** The keys of the clients that may be sent. */
  ghost function EligibleKeys(q: Query, cs: seq<Client>): set<Key> {
    set i | 0 <= i < |cs| && Eligible(q, cs[i]) :: cs[i].publicKey
  }

  /** Clients have proper keys; an unset entry, whose key is zero, has long timed out. */
  ghost predicate ClientsOk(q: Query, cs: seq<Client>) {
    forall i :: 0 <= i < |cs| ==> |cs[i].publicKey| == KEY_BYTES && (Eligible(q, cs[i]) ==> cs[i].publicKey != ZeroKey())
  }

  /** Every node in the list is an eligible client with the address chosen for it. */
  ghost predicate Backed(q: Query, ns: seq<Node>, num: nat, cs: seq<Client>)
    requires num <= |ns|
  {
    forall i :: 0 <= i < num ==> Backs(q, ns[i], cs)
  }

  ghost predicate Backs(q: Query, node: Node, cs: seq<Client>) {
    exists k :: 0 <= k < |cs| && Eligible(q, cs[k]) && node == Node(cs[k].publicKey, Chosen(q, cs[k]).ipPort)
  }

  lemma {:induction false} BacksMore(q: Query, node: Node, cs: seq<Client>, more: seq<Client>)
    requires Backs(q, node, cs)
    ensures Backs(q, node, cs + more)
  {
    var k :| 0 <= k < |cs| && Eligible(q, cs[k]) && node == Node(cs[k].publicKey, Chosen(q, cs[k]).ipPort);
    assert (cs + more)[k] == cs[k];
  }

  /** One more client seen. */
  lemma {:induction false} EligibleSnoc(q: Query, cs: seq<Client>, c: Client)
    ensures EligibleKeys(q, cs + [c]) == EligibleKeys(q, cs) + (if Eligible(q, c) then {c.publicKey} else {})
  {
    var cs' := cs + [c];
    assert forall i :: 0 <= i < |cs| ==> cs'[i] == cs[i];
    assert cs'[|cs|] == c;
  }

  /** client_in_nodelist over the whole list. */
  method ClientInList(nodes: array<Node>, key: Key) returns (r: bool)
    ensures r <==> exists i :: 0 <= i < nodes.Length && nodes[i].publicKey == key
  {
    var i := 0;
    while i < nodes.Length
      invariant 0 <= i <= nodes.Length && forall k :: 0 <= k < i ==> nodes[k].publicKey != key
    {
      if nodes[i].publicKey == key {
        return true;
      }
      i := i + 1;
    }
    return false;
  }

  /** What is known after the clients seen. "== true" keeps the verifier from taking it apart wherever it is to be shown. */
  ghost predicate Progress(q: Query, ns: seq<Node>, num: nat, seen: seq<Client>) {
    && |q.pk| == KEY_BYTES && num <= |ns|
    && (Selected(q.pk, ns, num, EligibleKeys(q, seen)) && Backed(q, ns, num, seen)) == true
  }

  lemma {:induction false} SkipKnown(q: Query, ns: seq<Node>, num: nat, seen: seq<Client>, c: Client)
    requires Progress(q, ns, num, seen) && (Eligible(q, c) ==> c.publicKey != ZeroKey())
    requires !Eligible(q, c) || exists i :: 0 <= i < |ns| && ns[i].publicKey == c.publicKey
    ensures Progress(q, ns, num, seen + [c])
  {
    EligibleSnoc(q, seen, c);
    if Eligible(q, c) {
      var i :| 0 <= i < |ns| && ns[i].publicKey == c.publicKey;
      assert c.publicKey in Keys(ns, num);
      assert EligibleKeys(q, seen + [c]) == EligibleKeys(q, seen);
    }
    forall i | 0 <= i < num ensures Backs(q, ns[i], seen + [c]) {
      BacksMore(q, ns[i], seen, [c]);
    }
  }

  lemma {:induction false} BackedByNew(q: Query, seen: seq<Client>, c: Client)
    requires Eligible(q, c)
    ensures Backs(q, Node(c.publicKey, Chosen(q, c).ipPort), seen + [c])
  {
    assert (seen + [c])[|seen|] == c;
  }

  lemma {:induction false} AppendNew(q: Query, ns: seq<Node>, num: nat, seen: seq<Client>, c: Client)
    requires Progress(q, ns, num, seen) && num < MAX_SENT_NODES && Eligible(q, c)
    requires |c.publicKey| == KEY_BYTES && c.publicKey != ZeroKey()
    requires forall i :: 0 <= i < |ns| ==> ns[i].publicKey != c.publicKey
    ensures Progress(q, ns[num := Node(c.publicKey, Chosen(q, c).ipPort)], num + 1, seen + [c])
  {
    var node := Node(c.publicKey, Chosen(q, c).ipPort);
    EligibleSnoc(q, seen, c);
    AppendSelected(q.pk, ns, num, EligibleKeys(q, seen), node);
    BackedByNew(q, seen, c);
    forall i | 0 <= i < num ensures Backs(q, ns[i], seen + [c]) {
      BacksMore(q, ns[i], seen, [c]);
    }
  }

  lemma {:induction false} ReplaceNew(q: Query, ns: seq<Node>, seen: seq<Client>, c: Client)
    requires Progress(q, ns, MAX_SENT_NODES, seen) && Eligible(q, c)
    requires |c.publicKey| == KEY_BYTES && c.publicKey != ZeroKey()
    requires forall i :: 0 <= i < |ns| ==> ns[i].publicKey != c.publicKey
    ensures Progress(q, AddToList(q.pk, ns, Node(c.publicKey, Chosen(q, c).ipPort)).0, MAX_SENT_NODES, seen + [c])
  {
    var node := Node(c.publicKey, Chosen(q, c).ipPort);
    EligibleSnoc(q, seen, c);
    ReplaceSelected(q.pk, ns, EligibleKeys(q, seen), node);
    AddToListEvictsFarthest(q.pk, ns, node);
    var (ns', out) := AddToList(q.pk, ns, node);
    BackedReplaced(q, ns, ns', node, out, seen, c);
  }

  lemma {:induction false} BackedReplaced(q: Query, ns: seq<Node>, ns': seq<Node>, node: Node, out: Node,
                                         seen: seq<Client>, c: Client)
    requires Backed(q, ns, |ns|, seen) && Eligible(q, c) && node == Node(c.publicKey, Chosen(q, c).ipPort)
    requires multiset(ns') + multiset{out} == multiset(ns) + multiset{node}
    ensures Backed(q, ns', |ns'|, seen + [c])
  {
    BackedByNew(q, seen, c);
    forall i | 0 <= i < |ns'| ensures Backs(q, ns'[i], seen + [c]) {
      assert ns'[i] in multiset(ns') + multiset{out};
      assert ns'[i] in ns || ns'[i] == node;
      if ns'[i] in ns {
        BacksMore(q, ns'[i], seen, [c]);
      }
    }
  }

  lemma {:induction false} SeenNext(seen: seq<Client>, cs: seq<Client>, i: nat)
    requires i < |cs|
    ensures seen + cs[..i] + [cs[i]] == seen + cs[..i + 1]
  {
  }

  /** get_close_nodes_inner: one client list searched. */
  method SearchList(nodes: array<Node>, cs: seq<Client>, q: Query, num: nat, ghost seen: seq<Client>) returns (num': nat)
    requires nodes.Length == MAX_SENT_NODES && ClientsOk(q, cs) && Progress(q, nodes[..], num, seen)
    modifies nodes
    ensures Progress(q, nodes[..], num', seen + cs)
  {
    num' := num;
    if q.family == Unknown {
      UnknownFamily(q, nodes[..], num, seen, cs);
      return;
    }
    var i := 0;
    assert seen + cs[..0] == seen;
    while i < |cs|
      invariant 0 <= i <= |cs| && Progress(q, nodes[..], num', seen + cs[..i])
    {
      num' := SearchClient(nodes, cs[i], q, num', seen + cs[..i]);
      SeenNext(seen, cs, i);
      i := i + 1;
    }
    assert cs[..i] == cs;
  }

  lemma {:induction false} UnknownFamily(q: Query, ns: seq<Node>, num: nat, seen: seq<Client>, cs: seq<Client>)
    requires q.family == Unknown && Progress(q, ns, num, seen)
    ensures Progress(q, ns, num, seen + cs)
  {
    assert EligibleKeys(q, seen + cs) == {} == EligibleKeys(q, seen);
    forall i | 0 <= i < num ensures Backs(q, ns[i], seen + cs) {
      BacksMore(q, ns[i], seen, cs);
    }
  }

  /** The body of its loop. */
  method SearchClient(nodes: array<Node>, c: Client, q: Query, num: nat, ghost seen: seq<Client>) returns (num': nat)
    requires nodes.Length == MAX_SENT_NODES && Progress(q, nodes[..], num, seen) && q.family != Unknown
    requires |c.publicKey| == KEY_BYTES && (Eligible(q, c) ==> c.publicKey != ZeroKey())
    modifies nodes
    ensures Progress(q, nodes[..], num', seen + [c])
  {
    ghost var ns := nodes[..];
    num' := num;
    var known := ClientInList(nodes, c.publicKey);
    if known || !Eligible(q, c) {
      SkipKnown(q, ns, num, seen, c);
      return;
    }
    var node := Node(c.publicKey, Chosen(q, c).ipPort);
    if num < MAX_SENT_NODES {
      AppendNew(q, ns, num, seen, c);
      nodes[num] := node;
      assert nodes[..] == ns[num := node];
      num' := num + 1;
    } else {
      ReplaceNew(q, ns, seen, c);
      var _ := AddInPlace(nodes, node, q.pk);
    }
  }

  /** The first n client lists one after the other. */
  function Joined(lists: seq<seq<Client>>, n: nat): seq<Client>
    requires n <= |lists|
  {
    if n == 0 then [] else Joined(lists, n - 1) + lists[n - 1]
  }

  /** What is sent for a client, said of its two addresses: the one of the family asked for, or the newer one when
      both will do, the first if they are of the same age; if it was heard of less than 122 seconds ago, and is not
      in a local network unless the asker is. Among good nodes it must also be tested, local, or the one asked for. */
  predicate Gives(q: Query, c: Client, ipPort: IpPort) {
    || ((q.family == IPv4 || (q.family == Either && c.assoc4.timestamp >= c.assoc6.timestamp))
        && ipPort == c.assoc4.ipPort && q.now < c.assoc4.timestamp + 122 && (ipPort.lan ==> q.isLan)
        && (q.wantGood ==> ipPort.lan || c.assoc4.hardening == 2 || c.publicKey == q.pk))
    || ((q.family == IPv6 || (q.family == Either && c.assoc4.timestamp < c.assoc6.timestamp))
        && ipPort == c.assoc6.ipPort && q.now < c.assoc6.timestamp + 122 && (ipPort.lan ==> q.isLan)
        && (q.wantGood ==> ipPort.lan || c.assoc6.hardening == 2 || c.publicKey == q.pk))
  }

  lemma {:induction false} GivesExactly(q: Query, c: Client)
    ensures forall ipPort :: Gives(q, c, ipPort) <==> Eligible(q, c) && ipPort == Chosen(q, c).ipPort
  {
  }

  /** The keys of the clients for which something is sent. */
  ghost function GivenKeys(q: Query, cs: seq<Client>): set<Key> {
    set i | 0 <= i < |cs| && exists ipPort :: Gives(q, cs[i], ipPort) :: cs[i].publicKey
  }

  lemma {:induction false} GivenExactly(q: Query, cs: seq<Client>, ns: seq<Node>, num: nat)
    requires num <= |ns| && Backed(q, ns, num, cs)
    ensures GivenKeys(q, cs) == EligibleKeys(q, cs)
    ensures forall i :: 0 <= i < num ==> Given(q, cs, ns[i])
  {
    forall i | 0 <= i < |cs| ensures Eligible(q, cs[i]) <==> exists ipPort :: Gives(q, cs[i], ipPort) {
      GivesExactly(q, cs[i]);
      assert Eligible(q, cs[i]) ==> Gives(q, cs[i], Chosen(q, cs[i]).ipPort);
    }
    forall i | 0 <= i < num ensures Given(q, cs, ns[i]) {
      assert Backs(q, ns[i], cs);
      var k :| 0 <= k < |cs| && Eligible(q, cs[k]) && ns[i] == Node(cs[k].publicKey, Chosen(q, cs[k]).ipPort);
      GivesExactly(q, cs[k]);
    }
  }

  ghost predicate Given(q: Query, cs: seq<Client>, node: Node) {
    exists k :: 0 <= k < |cs| && cs[k].publicKey == node.publicKey && Gives(q, cs[k], node.ipPort)
  }

  /** get_close_nodes with get_somewhat_close_nodes: the close list and the lists of all friends are searched,
      and hardening is not asked for, whatever the caller wants. The result is the closest four of all different
      eligible keys, or all of them if there are fewer, each once and with an address that was eligible. */
  method GetCloseNodes(nodes: array<Node>, closeList: seq<Client>, friendLists: seq<seq<Client>>, query: Query)
    returns (num: nat)
    requires nodes.Length == MAX_SENT_NODES && |query.pk| == KEY_BYTES
    requires ClientsOk(query.(wantGood := false), closeList)
    requires forall i :: 0 <= i < |friendLists| ==> ClientsOk(query.(wantGood := false), friendLists[i])
    modifies nodes
    ensures var q, all := query.(wantGood := false), closeList + Joined(friendLists, |friendLists|);
      && Progress(q, nodes[..], num, all)
      && Closest(q.pk, Keys(nodes[..], num), GivenKeys(q, all))
      && forall i :: 0 <= i < num ==> Given(q, all, nodes[..][i])
  {
    var q := query.(wantGood := false);
    forall i | 0 <= i < nodes.Length {
      nodes[i] := ZeroNode();
    }
    NothingSeen(q, nodes[..]);
    num := SearchList(nodes, closeList, q, 0, []);
    assert [] + closeList == closeList;
    num := SearchFriends(nodes, friendLists, q, num, closeList);
    GivenExactly(q, closeList + Joined(friendLists, |friendLists|), nodes[..], num);
  }

  /** The loop over the friends. */
  method SearchFriends(nodes: array<Node>, lists: seq<seq<Client>>, q: Query, num: nat, ghost seen: seq<Client>)
    returns (num': nat)
    requires nodes.Length == MAX_SENT_NODES && Progress(q, nodes[..], num, seen)
    requires forall i :: 0 <= i < |lists| ==> ClientsOk(q, lists[i])
    modifies nodes
    ensures Progress(q, nodes[..], num', seen + Joined(lists, |lists|))
  {
    num' := num;
    var i := 0;
    ghost var sofar := seen;
    assert seen + Joined(lists, 0) == seen;
    while i < |lists|
      modifies nodes
      invariant 0 <= i <= |lists| && sofar == seen + Joined(lists, i)
      invariant Progress(q, nodes[..], num', sofar)
    {
      num' := SearchList(nodes, lists[i], q, num', sofar);
      JoinedNext(seen, lists, i);
      sofar := sofar + lists[i];
      i := i + 1;
    }
  }

  lemma {:induction false} JoinedNext(seen: seq<Client>, lists: seq<seq<Client>>, i: nat)
    requires i < |lists|
    ensures seen + Joined(lists, i) + lists[i] == seen + Joined(lists, i + 1)
  {
  }

  lemma {:induction false} NothingSeen(q: Query, ns: seq<Node>)
    requires |ns| == MAX_SENT_NODES && |q.pk| == KEY_BYTES && forall i :: 0 <= i < |ns| ==> ns[i] == ZeroNode()
    ensures Progress(q, ns, 0, [])
  {
    assert EligibleKeys(q, []) == {} && Keys(ns, 0) == {};
    AllClosest(q.pk, {});
  }

  // ---------- What the wish for good nodes comes to ----------

  lemma {:induction false} EligibleFewer(q: Query, c: Client)
    requires Eligible(q, c)
    ensures Eligible(q.(wantGood := false), c) && Chosen(q.(wantGood := false), c) == Chosen(q, c)
  {
  }

  lemma {:induction false} EligibleKeysFewer(q: Query, cs: seq<Client>)
    ensures EligibleKeys(q, cs) <= EligibleKeys(q.(wantGood := false), cs)
  {
    forall i | 0 <= i < |cs| && Eligible(q, cs[i]) ensures cs[i].publicKey in EligibleKeys(q.(wantGood := false), cs) {
      EligibleFewer(q, cs[i]);
    }
  }

  lemma {:induction false} BackedKeys(q: Query, ns: seq<Node>, num: nat, cs: seq<Client>)
    requires num <= |ns| && Backed(q, ns, num, cs)
    ensures Keys(ns, num) <= EligibleKeys(q, cs)
  {
    forall i | 0 <= i < num ensures ns[i].publicKey in EligibleKeys(q, cs) {
      assert Backs(q, ns[i], cs);
    }
  }

  /** The closest of many are the closest of fewer, if they are among them. */
  lemma {:induction false} ClosestOfFewer(pk: Key, ks: set<Key>, all: set<Key>, fewer: set<Key>)
    requires Closest(pk, ks, all) && ks <= fewer <= all
    ensures Closest(pk, ks, fewer)
  {
    SubsetSize(fewer, all);
    SubsetSize(ks, fewer);
    if |all| < MAX_SENT_NODES {
      SubsetOfSameSize(ks, all);
    }
  }

  /** The selection, which is made without asking for good nodes, is also one that asks for them, addresses
      included, exactly when each of its nodes comes from a client that is eligible for that. */
  lemma {:induction false} GoodExactly(q: Query, ns: seq<Node>, num: nat, all: seq<Client>)
    requires Progress(q.(wantGood := false), ns, num, all)
    ensures Progress(q, ns, num, all) <==> Backed(q, ns, num, all)
  {
    if Backed(q, ns, num, all) {
      EligibleKeysFewer(q, all);
      BackedKeys(q, ns, num, all);
      ClosestOfFewer(q.pk, Keys(ns, num), EligibleKeys(q.(wantGood := false), all), EligibleKeys(q, all));
    }
  }

  /** The keys that are closer than k. */
  ghost function Closer(pk: Key, all: set<Key>, k: Key): set<Key>
    requires |k| == |pk| && forall x :: x in all ==> |x| == |pk|
  {
    set x | x in all && Distance(pk, x) < Distance(pk, k)
  }

  /** A key is among the closest exactly when fewer than four are closer. */
  lemma {:induction false} ClosestExactly(pk: Key, ks: set<Key>, all: set<Key>, k: Key)
    requires Closest(pk, ks, all) && k in all
    ensures k in ks <==> |Closer(pk, all, k)| < MAX_SENT_NODES
  {
    if k in ks {
      SubsetSize(Closer(pk, all, k), ks - {k});
    } else {
      SubsetSize(ks, Closer(pk, all, k));
      if |all| < MAX_SENT_NODES {
        SubsetOfSameSize(ks, all);
      }
    }
  }

  /** The keys sent are the closest of those that are good exactly when every key that is eligible but not good has
      four closer ones that are eligible. */
  lemma {:induction false} WishMetExactly(q: Query, ns: seq<Node>, num: nat, all: seq<Client>)
    requires Progress(q.(wantGood := false), ns, num, all)
    ensures var more, good := EligibleKeys(q.(wantGood := false), all), EligibleKeys(q, all);
      && (forall k :: k in more ==> |k| == |q.pk|)
      && (Closest(q.pk, Keys(ns, num), good) <==>
            forall k :: k in more - good ==> |Closer(q.pk, more, k)| >= MAX_SENT_NODES)
  {
    var more, good, ks := EligibleKeys(q.(wantGood := false), all), EligibleKeys(q, all), Keys(ns, num);
    assert Closest(q.pk, ks, more);
    EligibleKeysFewer(q, all);
    forall k | k in more - good ensures k in ks <==> |Closer(q.pk, more, k)| < MAX_SENT_NODES {
      ClosestExactly(q.pk, ks, more, k);
    }
    if forall k :: k in more - good ==> |Closer(q.pk, more, k)| >= MAX_SENT_NODES {
      ClosestOfFewer(q.pk, ks, more, good);
    }
  }

  /** A client on the internet whose hardening has not been tested. */
  function Untested(pk: Key, now: nat): Client {
    Client(pk, Address(IpPort([10], 33445, false), now, 0), Address(IpPort([], 0, false), 0, 0))
  }

  /** It is sent although good nodes are wanted. */
  lemma {:induction false} UntestedIsSent(q: Query, pk: Key, ns: seq<Node>, num: nat)
    requires q == Query(q.pk, IPv4, false, true, q.now) && |pk| == KEY_BYTES && pk != q.pk && pk != ZeroKey()
    requires Progress(q.(wantGood := false), ns, num, [Untested(pk, q.now)])
    ensures num == 1 && ns[0].publicKey == pk && !Eligible(q, Untested(pk, q.now))
    ensures !Progress(q, ns, num, [Untested(pk, q.now)])
  {
    var c, q' := Untested(pk, q.now), q.(wantGood := false);
    assert Eligible(q', c) && !Eligible(q, c);
    assert [c][0] == c;
    assert EligibleKeys(q', [c]) == {pk} && EligibleKeys(q, [c]) == {};
    assert Keys(ns, num) == {pk};
    KeysSize(ns, num);
    assert ns[0].publicKey in Keys(ns, num);
  }
}
