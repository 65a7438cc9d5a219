/** The header of an RTP packet: section 5.1 of RFC 3550, with all sixteen CSRC places present, then the offset
    of the part and the length of the whole message (rtp.h). */
module RtpHeader {
  import opened Bytes

  const HEADER_BYTES: nat := 80
  const CSRC_BYTES: nat := 64

  datatype Header = Header(ve: nat, pe: nat, xe: nat, cc: nat, ma: nat, pt: nat,
                           sequnum: nat, timestamp: nat, ssrc: nat, csrc: seq<byte>,
                           cpart: nat, tlen: nat)

  /** The widths of the fields. */
  predicate InRange(h: Header) {
    && h.ve < 4 && h.pe < 2 && h.xe < 2 && h.cc < 16 && h.ma < 2 && h.pt < 128
    && h.sequnum < TWO_16 && h.timestamp < TWO_32 && h.ssrc < TWO_32
    && |h.csrc| == CSRC_BYTES && h.cpart < TWO_16 && h.tlen < TWO_16
  }

  /** The two leading bytes: version, padding, extension and count; marker and payload type. */
  function Flags(h: Header): (r: seq<byte>)
    requires InRange(h)
    ensures |r| == 2
  {
    [h.ve * 64 + h.pe * 32 + h.xe * 16 + h.cc, h.ma * 128 + h.pt]
  }

  function Encode(h: Header): (r: seq<byte>)
    requires InRange(h)
    ensures |r| == HEADER_BYTES
  {
    Front(h) + h.csrc + Back(h)
  }

  function Front(h: Header): (r: seq<byte>)
    requires InRange(h)
    ensures |r| == 12
  {
    Flags(h) + Spell(h.sequnum, 2) + (Spell(h.timestamp, 4) + Spell(h.ssrc, 4))
  }

  function Back(h: Header): (r: seq<byte>)
    ensures |r| == 4
  {
    Spell(h.cpart, 2) + Spell(h.tlen, 2)
  }

  lemma {:induction false} Powers()
    ensures Pow256(2) == TWO_16 && Pow256(4) == TWO_32
  {
    assert Pow256(1) == 256;
    assert Pow256(3) == 256 * Pow256(2);
  }

  function Decode(b: seq<byte>): (h: Header)
    requires |b| == HEADER_BYTES
    ensures InRange(h)
  {
    Powers();
    Header(b[0] / 64, b[0] / 32 % 2, b[0] / 16 % 2, b[0] % 16, b[1] / 128, b[1] % 128,
           Value(b[2..4]), Value(b[4..8]), Value(b[8..12]), b[12..76], Value(b[76..78]), Value(b[78..80]))
  }

  lemma {:induction false} SplitByte(x: nat, ve: nat, pe: nat, xe: nat, cc: nat)
    requires ve < 4 && pe < 2 && xe < 2 && cc < 16 && x == ve * 64 + pe * 32 + xe * 16 + cc
    ensures x / 64 == ve && x / 32 % 2 == pe && x / 16 % 2 == xe && x % 16 == cc
  {
    assert x / 32 == ve * 2 + pe;
    assert x / 16 == ve * 4 + pe * 2 + xe;
  }

  lemma {:induction false} JoinByte(x: byte)
    ensures x == x / 64 * 64 + x / 32 % 2 * 32 + x / 16 % 2 * 16 + x % 16
  {
    assert x / 64 == x / 32 / 2 && x / 32 == x / 16 / 2;
  }

  lemma {:induction false} FlagsBack(h: Header, x: byte, y: byte)
    requires InRange(h) && Flags(h) == [x, y]
    ensures x / 64 == h.ve && x / 32 % 2 == h.pe && x / 16 % 2 == h.xe && x % 16 == h.cc
    ensures y / 128 == h.ma && y % 128 == h.pt
  {
    assert x == Flags(h)[0] && y == Flags(h)[1];
    SplitByte(x, h.ve, h.pe, h.xe, h.cc);
  }

  lemma {:induction false} FrontFields(h: Header)
    requires InRange(h)
    ensures var f := Front(h);
      && f[..2] == Flags(h) && f[2..4] == Spell(h.sequnum, 2)
      && f[4..8] == Spell(h.timestamp, 4) && f[8..12] == Spell(h.ssrc, 4)
  {
    var a, b, c, d := Flags(h), Spell(h.sequnum, 2), Spell(h.timestamp, 4), Spell(h.ssrc, 4);
    var f := (a + b) + (c + d);
    Halves(a, b);
    Halves(c, d);
    Halves(a + b, c + d);
    assert f[..2] == f[..4][..2] && f[2..4] == f[..4][2..];
    assert f[4..8] == f[4..][..4] && f[8..12] == f[4..][4..];
  }

  /** Where each field stands in the header. */
  lemma {:induction false} Fields(h: Header)
    requires InRange(h)
    ensures var b := Encode(h);
      && b[..12] == Front(h) && b[12..76] == h.csrc && b[76..78] == Spell(h.cpart, 2) && b[78..80] == Spell(h.tlen, 2)
  {
    var b, f, k := Encode(h), Front(h), Back(h);
    Halves(Spell(h.cpart, 2), Spell(h.tlen, 2));
    Halves(f + h.csrc, k);
    Halves(f, h.csrc);
    assert b[..12] == b[..76][..12] && b[12..76] == b[..76][12..];
    assert b[76..78] == b[76..][..2] && b[78..80] == b[76..][2..];
  }

  lemma {:induction false} SpellBack(v: nat, len: nat, s: seq<byte>)
    requires v < Pow256(len) && s == Spell(v, len)
    ensures Value(s) == v
  {
    ValueOfSpell(v, len);
    ModUnique(v, Pow256(len), 0, v);
  }

  lemma {:induction false} Numbers(h: Header)
    requires InRange(h)
    ensures var b := Encode(h);
      && [b[0], b[1]] == Flags(h)
      && Value(b[2..4]) == h.sequnum && Value(b[4..8]) == h.timestamp && Value(b[8..12]) == h.ssrc
      && Value(b[76..78]) == h.cpart && Value(b[78..80]) == h.tlen
  {
    var b, f := Encode(h), Front(h);
    Fields(h);
    FrontFields(h);
    Powers();
    assert b[2..4] == f[2..4] && b[4..8] == f[4..8] && b[8..12] == f[8..12];
    assert [b[0], b[1]] == f[..2];
    SpellBack(h.sequnum, 2, b[2..4]);
    SpellBack(h.timestamp, 4, b[4..8]);
    SpellBack(h.ssrc, 4, b[8..12]);
    SpellBack(h.cpart, 2, b[76..78]);
    SpellBack(h.tlen, 2, b[78..80]);
  }

  /** A header survives the wire. */
  lemma {:induction false} DecodeEncode(h: Header)
    requires InRange(h)
    ensures Decode(Encode(h)) == h
  {
    var b := Encode(h);
    Fields(h);
    Numbers(h);
    FlagsBack(h, b[0], b[1]);
  }

  lemma {:induction false} FlagsOfDecoded(b: seq<byte>)
    requires |b| == HEADER_BYTES
    ensures Flags(Decode(b)) == b[..2]
  {
    JoinByte(b[0]);
    var h := Decode(b);
    assert Flags(h)[0] == b[0] && Flags(h)[1] == b[1];
  }

  lemma {:induction false} FrontOfDecoded(b: seq<byte>)
    requires |b| == HEADER_BYTES
    ensures Front(Decode(b)) == b[..12]
  {
    var h := Decode(b);
    FlagsOfDecoded(b);
    SpellTwice(b[2..4], h.sequnum, 2);
    SpellTwice(b[4..8], h.timestamp, 4);
    SpellTwice(b[8..12], h.ssrc, 4);
    assert b[..12] == b[..2] + b[2..4] + (b[4..8] + b[8..12]);
  }

  lemma {:induction false} BackOfDecoded(b: seq<byte>)
    requires |b| == HEADER_BYTES
    ensures Back(Decode(b)) == b[76..]
  {
    var h := Decode(b);
    SpellTwice(b[76..78], h.cpart, 2);
    SpellTwice(b[78..80], h.tlen, 2);
    assert b[76..] == b[76..78] + b[78..80];
  }

  lemma {:induction false} SpellTwice(s: seq<byte>, v: nat, len: nat)
    requires |s| == len && v == Value(s)
    ensures Spell(v, len) == s
  {
    SpellOfValue(s);
  }

  /** No two byte strings stand for the same header. */
  lemma {:induction false} EncodeDecode(b: seq<byte>)
    requires |b| == HEADER_BYTES
    ensures Encode(Decode(b)) == b
  {
    FrontOfDecoded(b);
    BackOfDecoded(b);
    assert b == b[..12] + b[12..76] + b[76..];
  }
}
