/** What the receiver of rtp.c makes of a message whose pieces may come more than once. */
module RtpRepeats {
  import opened Bytes
  import opened Wrappers
  import opened Rtp

  /** The bytes of pieces, each counted as often as it is there. */
  function Sizes(n: nat, acc: seq<nat>): nat
    requires forall k :: 0 <= k < |acc| ==> acc[k] < Count(n)
  {
    if acc == [] then 0 else Sizes(n, acc[..|acc| - 1]) + Size(n, acc[|acc| - 1])
  }

  /** The pieces taken of those that come: one that would make too many bytes is skipped. */
  function Taken(n: nat, order: seq<nat>): (acc: seq<nat>)
    requires forall k :: 0 <= k < |order| ==> order[k] < Count(n)
    ensures PiecesOf(n, acc)
  {
    if order == [] then []
    else
      var before, i := Taken(n, order[..|order| - 1]), order[|order| - 1];
      if Sizes(n, before) + Size(n, i) <= n then before + [i] else before
  }

  // ---------- Counting bytes ----------

  lemma {:induction false} GotMore(acc: seq<nat>, i: nat)
    ensures Got(acc + [i]) == Got(acc) + {i}
  {
    var all := acc + [i];
    assert forall k :: 0 <= k < |acc| ==> all[k] == acc[k];
    assert all[|acc|] == i;
  }

  lemma {:induction false} NoRepetitionMore(acc: seq<nat>, i: nat)
    ensures NoRepetition(acc + [i]) <==> NoRepetition(acc) && i !in Got(acc)
  {
    var all := acc + [i];
    assert all[|acc|] == i && forall k :: 0 <= k < |acc| ==> all[k] == acc[k];
    if NoRepetition(all) {
      forall j, k | 0 <= j < k < |acc| ensures acc[j] != acc[k] {
        assert all[j] != all[k];
      }
    }
  }

  /** Repetitions make the bytes taken more than the bytes there. */
  lemma {:induction false} SizesAndTotal(n: nat, acc: seq<nat>)
    requires n > 0 && PiecesOf(n, acc)
    ensures Sizes(n, acc) >= Total(n, Count(n), Got(acc))
    ensures Sizes(n, acc) == Total(n, Count(n), Got(acc)) <==> NoRepetition(acc)
    decreases |acc|
  {
    if acc == [] {
      assert Got(acc) == {};
      TotalNone(n, Count(n));
    } else {
      var front, i := acc[..|acc| - 1], acc[|acc| - 1];
      assert acc == front + [i];
      SizesAndTotal(n, front);
      GotMore(front, i);
      NoRepetitionMore(front, i);
      if i in Got(front) {
        assert Got(front) + {i} == Got(front);
      } else {
        TotalAdds(n, Count(n), Got(front), i);
      }
    }
  }

  /** When as many bytes were taken as the message has, every piece is there exactly if none was taken twice. */
  lemma {:induction false} FullExactly(n: nat, acc: seq<nat>)
    requires n > 0 && PiecesOf(n, acc) && Sizes(n, acc) == n
    ensures Full(Count(n), Got(acc)) <==> NoRepetition(acc)
  {
    SizesAndTotal(n, acc);
    TotalFull(n, Got(acc));
  }

  // ---------- The buffer ----------

  /** What stands where piece k belongs when it has not come: zeros, or what the first piece to come left behind. */
  function Stale(data: seq<byte>, first: nat, k: nat): (r: seq<byte>)
    requires first < Count(|data|) && k < Count(|data|)
    ensures |r| == Size(|data|, k)
  {
    if k == 0 then Piece(data, first) + seq(Size(|data|, 0) - |Piece(data, first)|, _ => 0)
    else seq(Size(|data|, k), _ => 0)
  }

  /** The buffer of a message of which the pieces in got have come, first being the first. */
  ghost predicate Buffered(data: seq<byte>, first: nat, got: set<nat>, buffer: seq<byte>)
    requires first < Count(|data|)
  {
    && |buffer| == |data|
    && forall k: nat :: k < Count(|data|) ==>
         Piece(buffer, k) == if k in got then Piece(data, k) else Stale(data, first, k)
  }

  lemma {:induction false} BufferedMore(data: seq<byte>, first: nat, got: set<nat>, buffer: seq<byte>, i: nat)
    requires first < Count(|data|) && i < Count(|data|) && Buffered(data, first, got, buffer)
    ensures Buffered(data, first, got + {i}, Overlay(buffer, i * PIECE, Piece(data, i)))
  {
    var buffer' := Overlay(buffer, i * PIECE, Piece(data, i));
    forall k: nat | k < Count(|data|)
      ensures Piece(buffer', k) == if k in got + {i} then Piece(data, k) else Stale(data, first, k)
    {
      PieceAfter(buffer, data, i, k);
    }
  }

  lemma {:induction false} BufferedFirst(m: Message, first: nat)
    requires Sendable(m) && first < Count(|m.data|)
    ensures Buffered(m.data, first, {first}, FirstPart(PartHeader(m, first), Piece(m.data, first)).data)
  {
    var data, buffer := m.data, FreshBuffer(m.data, first);
    forall k: nat | k < Count(|data|) ensures Piece(buffer, k) == Stale(data, first, k) {
      FreshPiece(data, first, k);
    }
    BufferedMore(data, first, {}, buffer, first);
    assert {} + {first} == {first};
    FirstPartBuffer(m, first);
  }

  /** The buffer that new_message makes, before the piece is moved. */
  function FreshBuffer(data: seq<byte>, first: nat): (r: seq<byte>)
    requires first < Count(|data|)
    ensures |r| == |data|
  {
    Piece(data, first) + seq(|data| - Size(|data|, first), _ => 0)
  }

  lemma {:induction false} FirstPartBuffer(m: Message, first: nat)
    requires Sendable(m) && first < Count(|m.data|)
    ensures FirstPart(PartHeader(m, first), Piece(m.data, first)).data
         == Overlay(FreshBuffer(m.data, first), first * PIECE, Piece(m.data, first))
  {
    var p := Piece(m.data, first);
    assert p + seq(|m.data| - |p|, _ => 0) == FreshBuffer(m.data, first);
  }

  lemma {:induction false} FreshPiece(data: seq<byte>, first: nat, k: nat)
    requires first < Count(|data|) && k < Count(|data|)
    ensures Piece(FreshBuffer(data, first), k) == Stale(data, first, k)
  {
    var p := Piece(data, first);
    assert |p| <= PIECE;
    if k > 0 {
      assert k * PIECE >= PIECE;
    }
  }

  /** The message is as it was sent exactly when what stands in place of each missing piece happens to be that
      piece. */
  lemma {:induction false} SameExactly(data: seq<byte>, first: nat, got: set<nat>, buffer: seq<byte>)
    requires first < Count(|data|) && Buffered(data, first, got, buffer)
    ensures buffer == data <==> forall k: nat :: k < Count(|data|) && k !in got ==> Stale(data, first, k) == Piece(data, k)
  {
    if forall k: nat :: k < Count(|data|) && k !in got ==> Stale(data, first, k) == Piece(data, k) {
      forall j | 0 <= j < |data| ensures buffer[j] == data[j] {
        var k := PieceOf(|data|, j);
        assert Piece(buffer, k) == Piece(data, k);
        SameByte(buffer, data, k * PIECE, k * PIECE + Size(|data|, k), j);
      }
    } else {
      var k: nat :| k < Count(|data|) && k !in got && Stale(data, first, k) != Piece(data, k);
      assert Piece(buffer, k) != Piece(data, k);
    }
  }

  // ---------- Runs ----------

  /** s comes from before by the pieces in acc, which make up less than the message, or all of it. */
  ghost predicate Partway(before: seq<Assembled>, s: Receiver, m: Message, acc: seq<nat>) {
    var n := |m.data|;
    && acc != [] && PiecesOf(n, acc) && Sizes(n, acc) <= n
    && s.rtimestamp == m.base.timestamp
    && (if Sizes(n, acc) == n then s.mp.None? && |s.handed| == |before| + 1 && s.handed[..|before|] == before
        else s.mp.Some? && s.handed == before)
    && Put(m, acc, if Sizes(n, acc) == n then s.handed[|before|] else s.mp.value)
  }

  ghost predicate Put(m: Message, acc: seq<nat>, a: Assembled)
    requires acc != [] && PiecesOf(|m.data|, acc)
  {
    && Sendable(m) && a.header == m.base.(cpart := a.header.cpart) && a.len == Sizes(|m.data|, acc)
    && Buffered(m.data, acc[0], Got(acc), a.data)
  }

  lemma {:induction false} FirstPut(m: Message, i: nat)
    requires Sendable(m) && i < Count(|m.data|)
    ensures Put(m, [i], FirstPart(PartHeader(m, i), Piece(m.data, i)))
  {
    BufferedFirst(m, i);
    GotMore([], i);
    assert [] + [i] == [i] && Got([]) == {};
    assert Sizes(|m.data|, [i]) == Sizes(|m.data|, []) + Size(|m.data|, i);
  }

  lemma {:induction false} FirstComes(s: Receiver, payloadType: byte, m: Message, i: nat)
    requires Proper(payloadType, m) && Ready(s, m) && i < Count(|m.data|)
    ensures Partway(Collected(s), Accept(s, true, PartHeader(m, i), Piece(m.data, i)), m, [i])
  {
    var a := FirstPart(PartHeader(m, i), Piece(m.data, i));
    FirstPut(m, i);
    var s' := AcceptFirst(s, payloadType, m, i);
    FirstSize(m, i);
    assert Collected(s')[..|Collected(s)|] == Collected(s) && Collected(s')[|Collected(s)|] == a;
  }

  lemma {:induction false} FirstSize(m: Message, i: nat)
    requires i < Count(|m.data|)
    ensures Sizes(|m.data|, [i]) == |Piece(m.data, i)| <= |m.data|
  {
    assert [i][..0] == [];
  }

  lemma {:induction false} MorePut(m: Message, acc: seq<nat>, a: Assembled, i: nat)
    requires acc != [] && PiecesOf(|m.data|, acc) && Put(m, acc, a) && i < Count(|m.data|)
    ensures Put(m, acc + [i], Assembled(a.header, a.len + Size(|m.data|, i), Overlay(a.data, i * PIECE, Piece(m.data, i))))
  {
    BufferedMore(m.data, acc[0], Got(acc), a.data, i);
    GotMore(acc, i);
    assert (acc + [i])[..|acc|] == acc && (acc + [i])[0] == acc[0];
  }

  lemma {:induction false} NextComes(before: seq<Assembled>, s: Receiver, payloadType: byte, m: Message, acc: seq<nat>, i: nat)
    requires Proper(payloadType, m) && Partway(before, s, m, acc) && Sizes(|m.data|, acc) < |m.data| && i < Count(|m.data|)
    ensures Partway(before, Accept(s, true, PartHeader(m, i), Piece(m.data, i)), m,
                    if Sizes(|m.data|, acc) + Size(|m.data|, i) <= |m.data| then acc + [i] else acc)
  {
    var n, h, p, a := |m.data|, PartHeader(m, i), Piece(m.data, i), s.mp.value;
    LongerMessage(n, acc, i);
    MorePut(m, acc, a, i);
    assert (acc + [i])[..|acc|] == acc;
    assert PiecesOf(n, acc + [i]);
  }

  /** A message that is not complete with the pieces in acc has more than one. */
  lemma {:induction false} LongerMessage(n: nat, acc: seq<nat>, i: nat)
    requires n > 0 && acc != [] && PiecesOf(n, acc) && Sizes(n, acc) < n && i < Count(n)
    ensures Size(n, i) != n
  {
  }

  /** The pieces that come, up to the one at which the message may be handed over. */
  lemma {:induction false} PiecesCome(s: Receiver, payloadType: byte, m: Message, order: seq<nat>)
    requires Proper(payloadType, m) && Ready(s, m) && order != [] && PiecesOf(|m.data|, order)
    requires Sizes(|m.data|, Taken(|m.data|, order[..|order| - 1])) < |m.data|
    ensures Partway(Collected(s), ReceiveAll(s, payloadType, ArrivalPackets(payloadType, m, order)), m, Taken(|m.data|, order))
    decreases |order|
  {
    var n, k := |m.data|, |order| - 1;
    var rest, i := order[..k], order[k];
    var ps := ArrivalPackets(payloadType, m, rest);
    ReceiveSnoc(s, payloadType, ps, m, i);
    if k == 0 {
      assert rest == [] && ps == [] && Taken(n, rest) == [] && [] + [i] == [i];
      FirstComes(s, payloadType, m, i);
    } else {
      TakenGrows(n, rest);
      PiecesCome(s, payloadType, m, rest);
      NextComes(Collected(s), ReceiveAll(s, payloadType, ps), payloadType, m, Taken(n, rest), i);
    }
  }

  lemma {:induction false} TakenGrows(n: nat, order: seq<nat>)
    requires order != [] && PiecesOf(n, order)
    ensures Sizes(n, Taken(n, order[..|order| - 1])) <= Sizes(n, Taken(n, order))
  {
    var before, i := Taken(n, order[..|order| - 1]), order[|order| - 1];
    assert (before + [i])[..|before|] == before;
  }

  /** Pieces in any order, each as often as it likes: when the receiver hands a message over, every piece of it is
      there if and only if none was taken twice; and the bytes are those that were sent if and only if what stands
      in place of each missing piece happens to be that piece. */
  lemma {:induction false} AtHandOver(s: Receiver, payloadType: byte, m: Message, order: seq<nat>)
    requires Proper(payloadType, m) && Ready(s, m) && order != [] && PiecesOf(|m.data|, order)
    requires Sizes(|m.data|, Taken(|m.data|, order[..|order| - 1])) < |m.data| == Sizes(|m.data|, Taken(|m.data|, order))
    ensures var s', acc, n := ReceiveAll(s, payloadType, ArrivalPackets(payloadType, m, order)), Taken(|m.data|, order), |m.data|;
      && s'.mp == None && |s'.handed| == |Collected(s)| + 1 && s'.handed[..|Collected(s)|] == Collected(s)
      && var a := s'.handed[|Collected(s)|];
         && a.len == n
         && (Full(Count(n), Got(acc)) <==> NoRepetition(acc))
         && (a.data == m.data <==>
               forall k: nat :: k < Count(n) && k !in Got(acc) ==> Stale(m.data, acc[0], k) == Piece(m.data, k))
         && (NoRepetition(acc) ==> a.data == m.data)
  {
    var s', acc := ReceiveAll(s, payloadType, ArrivalPackets(payloadType, m, order)), Taken(|m.data|, order);
    PiecesCome(s, payloadType, m, order);
    FullExactly(|m.data|, acc);
    SameExactly(m.data, acc[0], Got(acc), s'.handed[|Collected(s)|].data);
  }
}
