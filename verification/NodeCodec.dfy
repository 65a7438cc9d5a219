/** Lists of DHT and relay nodes as bytes: pack_nodes and unpack_nodes of DHT.c. */
module NodeCodec {
  import opened Bytes
  import opened Wrappers

  const TOX_AF_INET: byte := 2
  const TOX_AF_INET6: byte := 10
  const TOX_TCP_INET: byte := 130
  const TOX_TCP_INET6: byte := 138

  datatype Family = UdpV4 | TcpV4 | UdpV6 | TcpV6 | OtherFamily

  /** The port is kept in network order. */
  datatype NodeFormat = NodeFormat(publicKey: Key, family: Family, address: seq<byte>, port: seq<byte>)

  function NetFamily(f: Family): Option<byte> {
    match f
    case UdpV4 => Some(TOX_AF_INET)
    case TcpV4 => Some(TOX_TCP_INET)
    case UdpV6 => Some(TOX_AF_INET6)
    case TcpV6 => Some(TOX_TCP_INET6)
    case OtherFamily => None
  }

  function HostFamily(b: byte, tcp: bool): Family {
    if b == TOX_AF_INET then UdpV4
    else if b == TOX_TCP_INET && tcp then TcpV4
    else if b == TOX_AF_INET6 then UdpV6
    else if b == TOX_TCP_INET6 && tcp then TcpV6
    else OtherFamily
  }

  function AddressBytes(f: Family): nat {
    if f == UdpV4 || f == TcpV4 then 4 else 16
  }

  /** PACKED_NODE_SIZE_IP4 or PACKED_NODE_SIZE_IP6. */
  function PackedSize(f: Family): nat {
    1 + AddressBytes(f) + 2 + KEY_BYTES
  }

  predicate WellFormed(n: NodeFormat) {
    |n.publicKey| == KEY_BYTES && |n.port| == 2 && |n.address| == AddressBytes(n.family)
  }

  predicate Packable(n: NodeFormat) {
    WellFormed(n) && n.family != OtherFamily
  }

  /** A node that unpack_nodes takes: TCP nodes only where they are expected. */
  predicate Expected(n: NodeFormat, tcp: bool) {
    Packable(n) && (n.family in {TcpV4, TcpV6} ==> tcp)
  }

  function PackNode(n: NodeFormat): (r: seq<byte>)
    requires Packable(n)
    ensures |r| == PackedSize(n.family)
  {
    [NetFamily(n.family).value] + n.address + n.port + n.publicKey
  }

  function PackAll(ns: seq<NodeFormat>): seq<byte>
    requires forall i :: 0 <= i < |ns| ==> Packable(ns[i])
  {
    if ns == [] then [] else PackAll(ns[..|ns| - 1]) + PackNode(ns[|ns| - 1])
  }

  /** The node at the front of data, if there is a whole one that is expected. */
  function ParseNode(data: seq<byte>, tcp: bool): (r: Option<NodeFormat>)
    requires data != []
    ensures r.Some? ==> Expected(r.value, tcp) && PackedSize(r.value.family) <= |data|
  {
    var f := HostFamily(data[0], tcp);
    var a := AddressBytes(f);
    if f == OtherFamily || PackedSize(f) > |data| then None
    else Some(NodeFormat(data[1 + a + 2..PackedSize(f)], f, data[1..1 + a], data[1 + a..1 + a + 2]))
  }

  datatype Unpacking = Malformed | Unpacked(nodes: seq<NodeFormat>, taken: nat)

  /** unpack_nodes: the nodes and the length of the bytes they took. */
  function Unpack(data: seq<byte>, max: nat, tcp: bool): Unpacking
    decreases max
  {
    if max == 0 || data == [] then Unpacked([], 0)
    else
      var n := ParseNode(data, tcp);
      if n.None? then Malformed
      else
        var size := PackedSize(n.value.family);
        var r := Unpack(data[size..], max - 1, tcp);
        if r.Malformed? then Malformed else Unpacked([n.value] + r.nodes, size + r.taken)
  }

  /** A packed node byte by byte: 2 or 10 for an address of four or sixteen bytes, 128 more for a TCP relay; the
      address, the port and the key. */
  lemma {:induction false} PackedBytes(n: NodeFormat)
    requires Packable(n)
    ensures var r, a := PackNode(n), if n.family == UdpV4 || n.family == TcpV4 then 4 else 16;
      && |r| == a + 35
      && r[0] == (if a == 4 then 2 else 10) + (if n.family == TcpV4 || n.family == TcpV6 then 128 else 0)
      && r[1..1 + a] == n.address && r[1 + a..3 + a] == n.port && r[3 + a..] == n.publicKey
  {
    var a := AddressBytes(n.family);
    Halves([NetFamily(n.family).value], n.address);
    Halves([NetFamily(n.family).value] + n.address, n.port);
    Halves([NetFamily(n.family).value] + n.address + n.port, n.publicKey);
    SliceOfFront(PackNode(n), 1 + a + 2, 1 + a, 1 + a + 2);
    SliceOfFront(PackNode(n), 1 + a + 2, 0, 1 + a);
    SliceOfFront(PackNode(n), 1 + a, 1, 1 + a);
  }

  // ---------- Both ways ----------

  lemma {:induction false} ParsePacked(n: NodeFormat, rest: seq<byte>, tcp: bool)
    requires Expected(n, tcp)
    ensures ParseNode(PackNode(n) + rest, tcp) == Some(n)
  {
    var data, a := PackNode(n) + rest, AddressBytes(n.family);
    var head := [NetFamily(n.family).value] + n.address;
    Halves(PackNode(n), rest);
    Halves(head + n.port, n.publicKey);
    Halves(head, n.port);
    Halves([NetFamily(n.family).value], n.address);
    SliceOfFront(data, PackedSize(n.family), 1 + a + 2, PackedSize(n.family));
    SliceOfFront(PackNode(n), 1 + a + 2, 0, 1 + a);
    SliceOfFront(PackNode(n), 1 + a + 2, 1 + a, 1 + a + 2);
    SliceOfFront(PackNode(n), 1 + a, 1, 1 + a);
    SliceOfFront(data, PackedSize(n.family), 1, 1 + a);
    SliceOfFront(data, PackedSize(n.family), 1 + a, 1 + a + 2);
    assert data[0] == PackNode(n)[0];
  }

  lemma {:induction false} PackParsed(data: seq<byte>, tcp: bool)
    requires data != [] && ParseNode(data, tcp).Some?
    ensures var n := ParseNode(data, tcp).value; PackNode(n) == data[..PackedSize(n.family)]
  {
    var n := ParseNode(data, tcp).value;
    var a, size := AddressBytes(n.family), PackedSize(n.family);
    SplitAt(data, 1, 1 + a);
    SplitAt(data, 1 + a, 1 + a + 2);
    SplitAt(data, 1 + a + 2, size);
    assert data[..1] == [NetFamily(n.family).value];
  }

  ghost predicate AllExpected(ns: seq<NodeFormat>, tcp: bool) {
    forall i :: 0 <= i < |ns| ==> Expected(ns[i], tcp)
  }

  lemma {:induction false} PackCons(n: NodeFormat, ns: seq<NodeFormat>)
    requires Packable(n) && forall i :: 0 <= i < |ns| ==> Packable(ns[i])
    ensures PackAll([n] + ns) == PackNode(n) + PackAll(ns)
    decreases |ns|
  {
    var all := [n] + ns;
    if ns == [] {
      assert all[..0] == [] && all[0] == n;
    } else {
      var front, last := ns[..|ns| - 1], ns[|ns| - 1];
      PackCons(n, front);
      assert all[..|ns|] == [n] + front && all[|ns|] == last;
      AppendAssoc(PackNode(n), PackAll(front), PackNode(last));
    }
  }

  lemma {:induction false} AppendAssoc(a: seq<byte>, b: seq<byte>, c: seq<byte>)
    ensures a + b + c == a + (b + c)
  {
  }

  /** data starts with the packed nodes ns, and no more can be taken from it. */
  ghost predicate Taken(data: seq<byte>, max: nat, tcp: bool, ns: seq<NodeFormat>, k: nat) {
    && AllExpected(ns, tcp) && |ns| <= max && k <= |data|
    && data[..k] == PackAll(ns) && (|ns| == max || k == |data|)
  }

  lemma {:induction false} TakenMore(data: seq<byte>, max: nat, tcp: bool, n: NodeFormat, ns: seq<NodeFormat>, k: nat)
    requires Expected(n, tcp) && Taken(data, max, tcp, ns, k)
    ensures Taken(PackNode(n) + data, max + 1, tcp, [n] + ns, PackedSize(n.family) + k)
  {
    var size := PackedSize(n.family);
    PackCons(n, ns);
    assert (PackNode(n) + data)[..size + k] == PackNode(n) + data[..k];
  }

  lemma {:induction false} TakenLess(data: seq<byte>, max: nat, tcp: bool, ns: seq<NodeFormat>, k: nat)
    requires Taken(data, max, tcp, ns, k) && ns != []
    ensures max > 0 && Expected(ns[0], tcp)
    ensures var size := PackedSize(ns[0].family);
      && size <= k && data == PackNode(ns[0]) + data[size..]
      && Taken(data[size..], max - 1, tcp, ns[1..], k - size)
  {
    assert ns == [ns[0]] + ns[1..];
    PackCons(ns[0], ns[1..]);
    FrontNode(data, k, ns[0], PackAll(ns[1..]));
  }

  lemma {:induction false} UnpackOne(n: NodeFormat, data: seq<byte>, max: nat, tcp: bool)
    requires Expected(n, tcp) && max > 0
    ensures var r := Unpack(data, max - 1, tcp);
      Unpack(PackNode(n) + data, max, tcp) ==
        if r.Malformed? then Malformed else Unpacked([n] + r.nodes, PackedSize(n.family) + r.taken)
  {
    ParsePacked(n, data, tcp);
    assert (PackNode(n) + data)[PackedSize(n.family)..] == data;
  }

  /** The parts of a successful unpacking. */
  lemma {:induction false} UnpackParts(data: seq<byte>, max: nat, tcp: bool) returns (n: NodeFormat, rest: seq<byte>, r: Unpacking)
    requires max != 0 && data != [] && Unpack(data, max, tcp).Unpacked?
    ensures Expected(n, tcp) && data == PackNode(n) + rest && |rest| < |data|
    ensures r == Unpack(rest, max - 1, tcp) && r.Unpacked?
    ensures Unpack(data, max, tcp) == Unpacked([n] + r.nodes, PackedSize(n.family) + r.taken)
  {
    n := ParseNode(data, tcp).value;
    var size := PackedSize(n.family);
    PackParsed(data, tcp);
    rest := data[size..];
    r := Unpack(rest, max - 1, tcp);
    assert data == data[..size] + rest;
  }

  /** Whenever unpacking succeeds, packing its result gives back exactly the bytes that were taken. */
  lemma {:induction false} PackOfUnpacked(data: seq<byte>, max: nat, tcp: bool, ns: seq<NodeFormat>, k: nat)
    requires Unpack(data, max, tcp) == Unpacked(ns, k)
    ensures Taken(data, max, tcp, ns, k)
    decreases max
  {
    if max != 0 && data != [] {
      var n, rest, r := UnpackParts(data, max, tcp);
      PackOfUnpacked(rest, max - 1, tcp, r.nodes, r.taken);
      TakenMore(rest, max - 1, tcp, n, r.nodes, r.taken);
    }
  }

  /** Any list of expected nodes that stands at the front of data is unpacked from it. */
  lemma {:induction false} UnpackOfPacked(data: seq<byte>, max: nat, tcp: bool, ns: seq<NodeFormat>, k: nat)
    requires Taken(data, max, tcp, ns, k)
    ensures Unpack(data, max, tcp) == Unpacked(ns, k)
    decreases max
  {
    if ns != [] {
      TakenLess(data, max, tcp, ns, k);
      var size := PackedSize(ns[0].family);
      UnpackOfPacked(data[size..], max - 1, tcp, ns[1..], k - size);
      UnpackFirst(data, data[size..], max, tcp, ns, k);
    }
  }

  lemma {:induction false} UnpackFirst(data: seq<byte>, rest: seq<byte>, max: nat, tcp: bool, ns: seq<NodeFormat>, k: nat)
    requires ns != [] && Expected(ns[0], tcp) && max > 0 && k >= PackedSize(ns[0].family)
    requires data == PackNode(ns[0]) + rest && Unpack(rest, max - 1, tcp) == Unpacked(ns[1..], k - PackedSize(ns[0].family))
    ensures Unpack(data, max, tcp) == Unpacked(ns, k)
  {
    UnpackOne(ns[0], rest, max, tcp);
    assert ns == [ns[0]] + ns[1..];
  }

  lemma {:induction false} FrontNode(data: seq<byte>, k: nat, n: NodeFormat, more: seq<byte>)
    requires Packable(n) && k <= |data| && data[..k] == PackNode(n) + more
    ensures var size := PackedSize(n.family);
      size <= k && data == PackNode(n) + data[size..] && data[size..][..k - size] == more
  {
    var size := PackedSize(n.family);
    assert |data[..k]| == size + |more|;
    assert data[..size] == data[..k][..size] == PackNode(n);
    assert data[size..][..k - size] == data[..k][size..] == more;
  }

  /** The round trip, for any mix of families: every node comes back and every byte is used. */
  lemma {:induction false} RoundTrip(ns: seq<NodeFormat>, tcp: bool)
    requires AllExpected(ns, tcp)
    ensures Unpack(PackAll(ns), |ns|, tcp) == Unpacked(ns, |PackAll(ns)|)
  {
    UnpackOfPacked(PackAll(ns), |ns|, tcp, ns, |PackAll(ns)|);
  }

  // ---------- The loops ----------

  lemma {:induction false} PackGrows(ns: seq<NodeFormat>, i: nat)
    requires i <= |ns| && forall k :: 0 <= k < |ns| ==> Packable(ns[k])
    ensures |PackAll(ns[..i])| <= |PackAll(ns)|
    decreases |ns|
  {
    if i < |ns| {
      assert ns[..|ns| - 1][..i] == ns[..i];
      PackGrows(ns[..|ns| - 1], i);
    } else {
      assert ns[..i] == ns;
    }
  }

  /** A copy into the buffer. */
  method CopyTo(data: array<byte>, at: nat, bytes: seq<byte>)
    requires at + |bytes| <= data.Length
    modifies data
    ensures data[..at + |bytes|] == old(data[..at]) + bytes
    ensures data[at + |bytes|..] == old(data[at..])[|bytes|..]
  {
    forall i | at <= i < at + |bytes| {
      data[i] := bytes[i - at];
    }
  }

  /** pack_nodes succeeds exactly when every family is known and the whole list fits in length bytes. */
  method PackNodes(data: array<byte>, length: nat, nodes: seq<NodeFormat>) returns (r: int)
    requires length <= data.Length && forall i :: 0 <= i < |nodes| ==> WellFormed(nodes[i])
    modifies data
    ensures r == -1 || r >= 0
    ensures r >= 0 <==> (forall i :: 0 <= i < |nodes| ==> Packable(nodes[i])) && |PackAll(nodes)| <= length
    ensures r >= 0 ==> r <= length && data[..r] == PackAll(nodes) && data[r..] == old(data[r..])
  {
    var i, packed := 0, 0;
    while i < |nodes|
      invariant 0 <= i <= |nodes| && 0 <= packed <= length && forall k :: 0 <= k < i ==> Packable(nodes[k])
      invariant data[..packed] == PackAll(nodes[..i]) && data[packed..] == old(data[packed..])
    {
      var n := nodes[i];
      var net := NetFamily(n.family);
      if net.None? {
        return -1;
      }
      var size := PackedSize(n.family);
      assert nodes[..i + 1][..i] == nodes[..i];
      if packed + size > length {
        if forall k :: 0 <= k < |nodes| ==> Packable(nodes[k]) {
          PackGrows(nodes, i + 1);
        }
        return -1;
      }
      CopyTo(data, packed, PackNode(n));
      packed := packed + size;
      i := i + 1;
    }
    assert nodes[..i] == nodes;
    return packed;
  }

  lemma {:induction false} MalformedLater(n: NodeFormat, rest: seq<byte>, max: nat, tcp: bool)
    requires Expected(n, tcp) && max > 0 && Unpack(rest, max - 1, tcp).Malformed?
    ensures Unpack(PackNode(n) + rest, max, tcp).Malformed?
  {
    UnpackOne(n, rest, max, tcp);
  }

  /** Nodes already taken do not make up for a rest that cannot be unpacked. */
  lemma {:induction false} UnpackAfter(front: seq<NodeFormat>, rest: seq<byte>, max: nat, tcp: bool)
    requires AllExpected(front, tcp) && |front| <= max && Unpack(rest, max - |front|, tcp).Malformed?
    ensures Unpack(PackAll(front) + rest, max, tcp).Malformed?
    decreases |front|
  {
    if front == [] {
      assert PackAll(front) + rest == rest;
    } else {
      var f, n := front[..|front| - 1], front[|front| - 1];
      AppendAssoc(PackAll(f), PackNode(n), rest);
      MalformedLater(n, rest, max - |f|, tcp);
      UnpackAfter(f, PackNode(n) + rest, max, tcp);
    }
  }

  /** unpack_nodes: on success nodes starts with what Unpack gives and processed is the length taken. */
  method UnpackNodes(nodes: array<NodeFormat>, max: nat, data: seq<byte>, tcp: bool) returns (num: int, processed: nat)
    requires max <= nodes.Length
    modifies nodes
    ensures num == -1 || 0 <= num <= max
    ensures num == -1 <==> Unpack(data, max, tcp).Malformed?
    ensures num >= 0 ==> Unpack(data, max, tcp) == Unpacked(nodes[..num], processed)
  {
    num, processed := 0, 0;
    while num < max && processed < |data|
      invariant 0 <= num <= max && processed <= |data| && AllExpected(nodes[..num], tcp)
      invariant data[..processed] == PackAll(nodes[..num])
      decreases max - num
    {
      ghost var front, rest := nodes[..num], data[processed..];
      assert data == PackAll(front) + rest;
      var n := ParseNode(data[processed..], tcp);
      if n.None? {
        UnpackAfter(front, rest, max, tcp);
        num := -1;
        return;
      }
      var size := PackedSize(n.value.family);
      PackParsed(rest, tcp);
      nodes[num] := n.value;
      assert nodes[..num] == front && nodes[..num + 1][..num] == front;
      assert data[..processed + size] == data[..processed] + rest[..size];
      processed := processed + size;
      num := num + 1;
    }
    UnpackOfPacked(data, max, tcp, nodes[..num], processed);
  }
}
