/** Word-level datapath of the Kintex UltraScale SerWB PHY (KUSSerdes).

    The transmit side splits a 32-bit word and its four K-flags into four
    byte lanes for four 8b/10b encoders, or substitutes the comma word or
    the all-zero idle word; the four 10-bit code groups are concatenated
    into one 40-bit word with lane 0 in the low bits. The receive side cuts
    the aligned 40-bit word into four 10-bit groups, decodes them and
    reassembles rx_k/rx_d, and recognises the idle and comma words.

    The 8b/10b encoder and decoder (section 36.2.4 of IEEE 802.3) are not
    part of this model: every member that needs them takes them as the
    parameters `enc` and `dec`, and the facts about them that the proofs
    rely on are the hypotheses `IdealCodec` and `NonZeroCodes`. Both speak
    only of lanes the line code can carry: a data byte, or one of its
    twelve control characters. */
module Kusphy {

  /** One 8b/10b encoder/decoder lane: the K (control) flag and the byte. */
  datatype Lane = Lane(k: bool, d: bv8)

  /** A 10-bit code group. */
  type Code = bv10

  /** A well-formed set of lanes: exactly four, lane 0 first. */
  type Lanes = s: seq<Lane> | |s| == 4 witness [Lane(false, 0), Lane(false, 0), Lane(false, 0), Lane(false, 0)]

  /** Four 10-bit code groups, lane 0 first. */
  type Codes = s: seq<Code> | |s| == 4 witness [0, 0, 0, 0]

  /** The reassembled receive word: rx_k and rx_d. */
  datatype Word = Word(k: bv4, d: bv32)

  /** What the receiver presents each cycle. */
  datatype RxOutput = RxOutput(k: bv4, d: bv32, idle: bool, comma: bool)

  /** The comma character K28.5. */
  const CommaByte: bv8 := 0xBC

  /** The four encoder inputs of the comma word. */
  const CommaLanes: Lanes := [Lane(true, CommaByte), Lane(false, 0), Lane(false, 0), Lane(false, 0)]

  /** The twelve 8b/10b control characters: K28.0 to K28.7 (low five
      bits 28) and K23.7, K27.7, K29.7, K30.7. */
  predicate IsControlByte(b: bv8)
  {
    b & 0x1F == 0x1C || b == 0xF7 || b == 0xFB || b == 0xFD || b == 0xFE
  }

  /** A lane the line code has a code group for: any data byte, and as
      control only the control characters. */
  predicate Encodable(l: Lane)
  {
    l.k ==> IsControlByte(l.d)
  }

  /** All four lanes can be carried by the line code. */
  predicate AllEncodable(lanes: Lanes)
  {
    forall i :: 0 <= i < 4 ==> Encodable(lanes[i])
  }

  /** The decoder recovers every encodable lane the encoder was given. */
  ghost predicate IdealCodec(enc: Lane -> Code, dec: Code -> Lane)
  {
    forall l: Lane :: Encodable(l) ==> dec(enc(l)) == l
  }

  /** No encodable lane is encoded as the all-zero code group (every
      8b/10b code group carries at least four ones). */
  ghost predicate NonZeroCodes(enc: Lane -> Code)
  {
    forall l: Lane :: Encodable(l) ==> enc(l) != 0
  }

  // ---------------------------------------------------------------- transmit

  /** Bit `i` of the transmit K-flags, bit 0 being the least significant. */
  function KFlag(k: bv4, i: nat): bool
    requires i < 4
  {
    if i == 0 then k & 1 == 1 else KFlag(k >> 1, i - 1)
  }

  /** Byte `i` of a 32-bit word, byte 0 being the least significant. */
  function ByteOf(d: bv32, i: nat): bv8
    requires i < 4
  {
    if i == 0 then (d & 0xFF) as bv8 else ByteOf(d >> 8, i - 1)
  }

  /** The encoder inputs: the comma word when `txComma` is set (lanes the
      comma branch leaves unassigned keep their default 0), otherwise
      tx_d[0:8] and tx_k[0] on lane 0, tx_d[8:16] and tx_k[1] on lane 1,
      and so on. */
  function TxLanes(txComma: bool, txK: bv4, txD: bv32): (r: Lanes)
    ensures txComma ==> RxComma(r)
    ensures !txComma ==> Reassemble(r) == Word(txK, txD)
  {
    if txComma then
      CommaLanes
    else
      JoinFlagsOfBits(txK);
      JoinBytesOfBytes(txD);
      [Lane(txK & 1 == 1, (txD & 0xFF) as bv8),
       Lane((txK >> 1) & 1 == 1, ((txD >> 8) & 0xFF) as bv8),
       Lane((txK >> 2) & 1 == 1, ((txD >> 16) & 0xFF) as bv8),
       Lane((txK >> 3) & 1 == 1, ((txD >> 24) & 0xFF) as bv8)]
  }

  /** One coder per lane: coder i is applied to element i. Used for the
      four decoders and, lane by lane, for the four-word encoder (without
      running disparity its lanes do not depend on one another). */
  function Map4<A, B>(f: A -> B, s: seq<A>): (r: seq<B>)
    requires |s| == 4
    ensures |r| == 4
    ensures forall i :: 0 <= i < 4 ==> r[i] == f(s[i])
  {
    [f(s[0]), f(s[1]), f(s[2]), f(s[3])]
  }

  /** Four code groups side by side, the first in the low bits. */
  function Cat4(c0: Code, c1: Code, c2: Code, c3: Code): bv40
  {
    (c0 as bv40) | ((c1 as bv40) << 10) | ((c2 as bv40) << 20) | ((c3 as bv40) << 30)
  }

  /** Concatenation of four code groups, code i in bits [10i, 10i+10):
      the receiver's split gives the codes back, each in its own lane. */
  function CatCodes(c: Codes): (w: bv40)
    ensures Split(w) == c
  {
    GroupsOfCat4(c[0], c[1], c[2], c[3]);
    Cat4(c[0], c[1], c[2], c[3])
  }

  /** The word latched into the transmit gearbox: all zeros when idle,
      whatever comma and data say; otherwise the concatenated codes of
      the lanes. */
  function TxWord(enc: Lane -> Code, txIdle: bool, txComma: bool, txK: bv4, txD: bv32): (r: bv40)
    ensures txIdle ==> RxIdle(r)
    ensures !txIdle ==> Split(r) == Map4(enc, TxLanes(txComma, txK, txD))
  {
    if txIdle then 0
    else CatCodes(Map4(enc, TxLanes(txComma, txK, txD)))
  }

  // ----------------------------------------------------------------- receive

  /** The aligned 40-bit receive word cut into four 10-bit groups, group i
      being bits [10i, 10i+10). Nothing is lost: the groups side by side
      are the word again. */
  function Split(w: bv40): (r: Codes)
    ensures Cat4(r[0], r[1], r[2], r[3]) == w
  {
    Cat4OfGroups(w);
    [(w & 0x3FF) as bv10,
     ((w >> 10) & 0x3FF) as bv10,
     ((w >> 20) & 0x3FF) as bv10,
     ((w >> 30) & 0x3FF) as bv10]
  }

  /** rx_k and rx_d: the decoded lanes concatenated, lane 0 in the low
      bits, so that bit i of rx_k and byte i of rx_d come from lane i. */
  function Reassemble(lanes: Lanes): (r: Word)
    ensures forall i :: 0 <= i < 4 ==> KFlag(r.k, i) == lanes[i].k && ByteOf(r.d, i) == lanes[i].d
  {
    JoinsAt(lanes);
    Word(JoinFlags(lanes[0].k, lanes[1].k, lanes[2].k, lanes[3].k),
         JoinBytes(lanes[0].d, lanes[1].d, lanes[2].d, lanes[3].d))
  }

  /** Four K-flags as a 4-bit vector, the first in bit 0. */
  function JoinFlags(k0: bool, k1: bool, k2: bool, k3: bool): bv4
  {
    (if k0 then 1 else 0) | (if k1 then 2 else 0) | (if k2 then 4 else 0) | (if k3 then 8 else 0)
  }

  /** Four bytes as a 32-bit word, the first in the low bits. */
  function JoinBytes(b0: bv8, b1: bv8, b2: bv8, b3: bv8): bv32
  {
    (b0 as bv32) | ((b1 as bv32) << 8) | ((b2 as bv32) << 16) | ((b3 as bv32) << 24)
  }

  /** rx_idle: the aligned receive word is all zeros, that is, all four
      decoder inputs are the zero group. */
  predicate RxIdle(w: bv40)
    ensures RxIdle(w) <==> Split(w) == [0, 0, 0, 0]
  {
    w == 0
  }

  /** rx_comma: lane 0 decodes to K28.5 and lanes 1 to 3 to data 0x00,
      which holds exactly for the comma encoder inputs. */
  predicate RxComma(lanes: Lanes)
    ensures RxComma(lanes) <==> lanes == CommaLanes
  {
    assert RxCommaShape(lanes) ==> lanes == [lanes[0], lanes[1], lanes[2], lanes[3]];
    RxCommaShape(lanes)
  }

  /** The comparison of kusphy's rx_comma, lane by lane. */
  predicate RxCommaShape(lanes: Lanes)
  {
    && lanes[0].d == CommaByte && lanes[0].k
    && lanes[1].d == 0 && !lanes[1].k
    && lanes[2].d == 0 && !lanes[2].k
    && lanes[3].d == 0 && !lanes[3].k
  }

  /** Everything the receiver derives from one aligned 40-bit word: bit i
      of rx_k and byte i of rx_d are what decoder i makes of bits
      [10i, 10i+10); rx_idle and rx_comma as above. */
  function Receive(dec: Code -> Lane, w: bv40): (r: RxOutput)
    ensures forall i :: 0 <= i < 4 ==> KFlag(r.k, i) == dec(Split(w)[i]).k && ByteOf(r.d, i) == dec(Split(w)[i]).d
    ensures r.idle <==> Split(w) == [0, 0, 0, 0]
    ensures r.comma <==> Map4(dec, Split(w)) == CommaLanes
  {
    var lanes := Map4(dec, Split(w));
    var word := Reassemble(lanes);
    RxOutput(word.k, word.d, RxIdle(w), RxComma(lanes))
  }

  // ------------------------------------------------------------ master clock

  /** The forwarded clock of a master: four groups of 0b1111100000. */
  function MasterClockPattern(): (w: bv40)
    ensures Split(w) == [0x3E0, 0x3E0, 0x3E0, 0x3E0]
  {
    (0x3E0 << 30) | (0x3E0 << 20) | (0x3E0 << 10) | 0x3E0
  }

  /** Bit `i` of a 40-bit word. */
  function Bit(w: bv40, i: nat): bool
    requires i < 40
  {
    (w >> i) & 1 == 1
  }

  /** Number of ones among bits [0, n) of `w`. */
  function Ones(w: bv40, n: nat): nat
    requires n <= 40
  {
    if n == 0 then 0 else Ones(w, n - 1) + (if Bit(w, n - 1) then 1 else 0)
  }

  // ------------------------------------------------------ transmit register

  /** The sys0p2x register in front of the transmit gearbox. It resets to
      the all-zero word and latches the word of the current cycle, so the
      gearbox sees each word one clock after it was presented. */
  class TxRegister {
    var gearboxIn: bv40

    constructor ()
      ensures gearboxIn == 0
    {
      gearboxIn := 0;
    }

    /** One sys0p2x clock: returns the word the gearbox sees during this
        cycle and latches the word for the next one. */
    method Clock(enc: Lane -> Code, txIdle: bool, txComma: bool, txK: bv4, txD: bv32) returns (out: bv40)
      modifies this
      ensures out == old(gearboxIn)
      ensures gearboxIn == TxWord(enc, txIdle, txComma, txK, txD)
    {
      out := gearboxIn;
      if txIdle {
        gearboxIn := 0;
      } else {
        gearboxIn := CatCodes(Map4(enc, TxLanes(txComma, txK, txD)));
      }
    }
  }

  // ------------------------------------------------------------------ lemmas

  // Bit-level facts about the concatenations, on scalars.

  lemma JoinFlagsOfBits(k: bv4)
    ensures JoinFlags(k & 1 == 1, (k >> 1) & 1 == 1, (k >> 2) & 1 == 1, (k >> 3) & 1 == 1) == k
  {
  }

  lemma JoinBytesOfBytes(d: bv32)
    ensures JoinBytes((d & 0xFF) as bv8, ((d >> 8) & 0xFF) as bv8,
                      ((d >> 16) & 0xFF) as bv8, ((d >> 24) & 0xFF) as bv8) == d
  {
  }

  lemma BitsOfJoinFlags(k0: bool, k1: bool, k2: bool, k3: bool)
    ensures var k := JoinFlags(k0, k1, k2, k3);
      && (k & 1 == 1) == k0 && ((k >> 1) & 1 == 1) == k1
      && ((k >> 2) & 1 == 1) == k2 && ((k >> 3) & 1 == 1) == k3
  {
  }

  lemma BytesOfJoinBytes(b0: bv8, b1: bv8, b2: bv8, b3: bv8)
    ensures var d := JoinBytes(b0, b1, b2, b3);
      && (d & 0xFF) as bv8 == b0 && ((d >> 8) & 0xFF) as bv8 == b1
      && ((d >> 16) & 0xFF) as bv8 == b2 && ((d >> 24) & 0xFF) as bv8 == b3
  {
  }

  lemma GroupsOfCat4(c0: Code, c1: Code, c2: Code, c3: Code)
    ensures var w := Cat4(c0, c1, c2, c3);
      && (w & 0x3FF) as bv10 == c0 && ((w >> 10) & 0x3FF) as bv10 == c1
      && ((w >> 20) & 0x3FF) as bv10 == c2 && ((w >> 30) & 0x3FF) as bv10 == c3
  {
  }

  lemma Cat4OfGroups(w: bv40)
    ensures Cat4((w & 0x3FF) as bv10, ((w >> 10) & 0x3FF) as bv10,
                 ((w >> 20) & 0x3FF) as bv10, ((w >> 30) & 0x3FF) as bv10) == w
  {
  }

  /** In data mode lane i carries K-flag i and byte i of the word,
      byte 0 being the least significant. */
  lemma TxLaneOrder(txK: bv4, txD: bv32, i: nat)
    requires i < 4
    ensures TxLanes(false, txK, txD)[i] == Lane(KFlag(txK, i), ByteOf(txD, i))
  {
    if i == 0 {
    } else if i == 1 {
    } else if i == 2 {
      assert ByteOf(txD, 2) == ByteOf(txD >> 8, 1) == ByteOf((txD >> 8) >> 8, 0);
      assert KFlag(txK, 2) == KFlag(txK >> 1, 1) == KFlag((txK >> 1) >> 1, 0);
    } else {
      assert ByteOf(txD, 3) == ByteOf(txD >> 8, 2) == ByteOf((txD >> 8) >> 8, 1) == ByteOf(((txD >> 8) >> 8) >> 8, 0);
      assert KFlag(txK, 3) == KFlag(txK >> 1, 2) == KFlag((txK >> 1) >> 1, 1) == KFlag(((txK >> 1) >> 1) >> 1, 0);
    }
  }

  /** Packing the word four lanes join into gives back those lanes. */
  lemma LanesOfJoin(l0: Lane, l1: Lane, l2: Lane, l3: Lane)
    ensures TxLanes(false, JoinFlags(l0.k, l1.k, l2.k, l3.k), JoinBytes(l0.d, l1.d, l2.d, l3.d)) == [l0, l1, l2, l3]
  {
    BitsOfJoinFlags(l0.k, l1.k, l2.k, l3.k);
    BytesOfJoinBytes(l0.d, l1.d, l2.d, l3.d);
  }

  /** K-flag i of a join is flag i. */
  lemma FlagsOfJoin(k0: bool, k1: bool, k2: bool, k3: bool)
    ensures KFlag(JoinFlags(k0, k1, k2, k3), 0) == k0 && KFlag(JoinFlags(k0, k1, k2, k3), 1) == k1
    ensures KFlag(JoinFlags(k0, k1, k2, k3), 2) == k2 && KFlag(JoinFlags(k0, k1, k2, k3), 3) == k3
  {
    BitsOfJoinFlags(k0, k1, k2, k3);
    KFlagShifts(JoinFlags(k0, k1, k2, k3));
  }

  /** K-flag i is bit i. */
  lemma KFlagShifts(k: bv4)
    ensures KFlag(k, 0) == (k & 1 == 1) && KFlag(k, 1) == ((k >> 1) & 1 == 1)
    ensures KFlag(k, 2) == ((k >> 2) & 1 == 1) && KFlag(k, 3) == ((k >> 3) & 1 == 1)
  {
    assert (k >> 1) >> 1 == k >> 2 && ((k >> 1) >> 1) >> 1 == k >> 3;
    assert KFlag(k, 2) == KFlag(k >> 1, 1) == KFlag((k >> 1) >> 1, 0);
    assert KFlag(k, 3) == KFlag(k >> 1, 2) == KFlag((k >> 1) >> 1, 1) == KFlag(((k >> 1) >> 1) >> 1, 0);
  }

  /** Byte i of a join is byte i. */
  lemma BytesOfJoin(b0: bv8, b1: bv8, b2: bv8, b3: bv8)
    ensures ByteOf(JoinBytes(b0, b1, b2, b3), 0) == b0 && ByteOf(JoinBytes(b0, b1, b2, b3), 1) == b1
    ensures ByteOf(JoinBytes(b0, b1, b2, b3), 2) == b2 && ByteOf(JoinBytes(b0, b1, b2, b3), 3) == b3
  {
    BytesOfJoinBytes(b0, b1, b2, b3);
    ByteOfShifts(JoinBytes(b0, b1, b2, b3));
  }

  /** Byte i is bits [8i, 8i+8). */
  lemma ByteOfShifts(d: bv32)
    ensures ByteOf(d, 0) == (d & 0xFF) as bv8 && ByteOf(d, 1) == ((d >> 8) & 0xFF) as bv8
    ensures ByteOf(d, 2) == ((d >> 16) & 0xFF) as bv8 && ByteOf(d, 3) == ((d >> 24) & 0xFF) as bv8
  {
    assert (d >> 8) >> 8 == d >> 16 && ((d >> 8) >> 8) >> 8 == d >> 24;
    assert ByteOf(d, 2) == ByteOf(d >> 8, 1) == ByteOf((d >> 8) >> 8, 0);
    assert ByteOf(d, 3) == ByteOf(d >> 8, 2) == ByteOf((d >> 8) >> 8, 1) == ByteOf(((d >> 8) >> 8) >> 8, 0);
  }

  lemma JoinsAt(lanes: Lanes)
    ensures forall i :: 0 <= i < 4 ==>
      && KFlag(JoinFlags(lanes[0].k, lanes[1].k, lanes[2].k, lanes[3].k), i) == lanes[i].k
      && ByteOf(JoinBytes(lanes[0].d, lanes[1].d, lanes[2].d, lanes[3].d), i) == lanes[i].d
  {
    FlagsOfJoin(lanes[0].k, lanes[1].k, lanes[2].k, lanes[3].k);
    BytesOfJoin(lanes[0].d, lanes[1].d, lanes[2].d, lanes[3].d);
    forall i | 0 <= i < 4
      ensures KFlag(JoinFlags(lanes[0].k, lanes[1].k, lanes[2].k, lanes[3].k), i) == lanes[i].k
      ensures ByteOf(JoinBytes(lanes[0].d, lanes[1].d, lanes[2].d, lanes[3].d), i) == lanes[i].d
    {
      if i == 0 {
      } else if i == 1 {
      } else if i == 2 {
      } else {
      }
    }
  }

  /** Reassembly inverts data-mode lane packing: every four lanes are the
      packing of the word they reassemble to. */
  lemma PackReassemble(lanes: Lanes)
    ensures TxLanes(false, Reassemble(lanes).k, Reassemble(lanes).d) == lanes
  {
    LanesOfJoin(lanes[0], lanes[1], lanes[2], lanes[3]);
    assert lanes == [lanes[0], lanes[1], lanes[2], lanes[3]];
  }

  /** A data word is taken for a comma exactly when it is K-flags 0b0001
      with data 0x000000BC, the word the comma lanes reassemble to. */
  lemma DataMistakenForComma(txK: bv4, txD: bv32)
    ensures RxComma(TxLanes(false, txK, txD)) <==> txK == 1 && txD == 0xBC
  {
    var lanes := TxLanes(false, txK, txD);
    if RxComma(lanes) {
      assert Reassemble(lanes) == Reassemble(CommaLanes);
    }
  }

  /** The comma word can always be carried. */
  lemma CommaEncodable()
    ensures AllEncodable(CommaLanes)
  {
    forall i | 0 <= i < 4
      ensures Encodable(CommaLanes[i])
    {
      if i == 0 {
        assert IsControlByte(CommaByte);
      }
    }
  }

  /** A data word with no K-flag set can always be carried. */
  lemma PlainDataEncodable(txD: bv32)
    ensures AllEncodable(TxLanes(false, 0, txD))
  {
    forall i | 0 <= i < 4
      ensures Encodable(TxLanes(false, 0, txD)[i])
    {
      TxLaneOrder(0, txD, i);
      assert !KFlag(0, i) by {
        if i == 0 {
        } else if i == 1 {
        } else if i == 2 {
          assert KFlag(0, 2) == KFlag(0 >> 1, 1) == KFlag((0 >> 1) >> 1, 0);
        } else {
          assert KFlag(0, 3) == KFlag(0 >> 1, 2) == KFlag((0 >> 1) >> 1, 1) == KFlag(((0 >> 1) >> 1) >> 1, 0);
        }
      }
    }
  }

  /** Under an ideal codec the receiver decodes the lanes the transmitter
      encoded, for any word that is not idle and whose lanes the line code
      can carry. */
  lemma {:induction false} LanesSurviveLink(enc: Lane -> Code, dec: Code -> Lane, txComma: bool, txK: bv4, txD: bv32)
    requires IdealCodec(enc, dec)
    requires AllEncodable(TxLanes(txComma, txK, txD))
    ensures Map4(dec, Split(TxWord(enc, false, txComma, txK, txD))) == TxLanes(txComma, txK, txD)
  {
    var lanes := TxLanes(txComma, txK, txD);
    var got := Map4(dec, Split(TxWord(enc, false, txComma, txK, txD)));
    forall i | 0 <= i < 4
      ensures got[i] == lanes[i]
    {
      assert Encodable(lanes[i]);
      assert dec(enc(lanes[i])) == lanes[i];
    }
  }

  /** A data word sent is the data word received: rx_k/rx_d equal
      tx_k/tx_d, rx_idle is clear, and rx_comma is set only for the one
      data word that looks like a comma. K-flags are only carried on
      control characters, so the word's lanes must be encodable. */
  lemma DataRoundTrip(enc: Lane -> Code, dec: Code -> Lane, txK: bv4, txD: bv32)
    requires IdealCodec(enc, dec) && NonZeroCodes(enc)
    requires AllEncodable(TxLanes(false, txK, txD))
    ensures Receive(dec, TxWord(enc, false, false, txK, txD))
         == RxOutput(txK, txD, false, txK == 1 && txD == 0xBC)
  {
    var w := TxWord(enc, false, false, txK, txD);
    LanesSurviveLink(enc, dec, false, txK, txD);
    DataMistakenForComma(txK, txD);
    var lanes := TxLanes(false, txK, txD);
    assert Encodable(lanes[0]) && Split(w)[0] == enc(lanes[0]);
    assert !RxIdle(w);
    PackReassemble(lanes);
  }

  /** The comma word sent is recognised as comma and not as idle, whatever
      tx_k and tx_d hold. */
  lemma CommaRoundTrip(enc: Lane -> Code, dec: Code -> Lane, txK: bv4, txD: bv32)
    requires IdealCodec(enc, dec) && NonZeroCodes(enc)
    ensures Receive(dec, TxWord(enc, false, true, txK, txD)) == RxOutput(1, 0xBC, false, true)
  {
    var w := TxWord(enc, false, true, txK, txD);
    CommaEncodable();
    LanesSurviveLink(enc, dec, true, txK, txD);
    assert Encodable(CommaLanes[0]) && Split(w)[0] == enc(CommaLanes[0]);
    assert !RxIdle(w);
  }

  /** tx_idle overrides comma and data: the idle word is the only word the
      receiver sees as idle. */
  lemma IdleRoundTrip(enc: Lane -> Code, txIdle: bool, txComma: bool, txK: bv4, txD: bv32)
    requires NonZeroCodes(enc)
    requires !txIdle ==> AllEncodable(TxLanes(txComma, txK, txD))
    ensures RxIdle(TxWord(enc, txIdle, txComma, txK, txD)) <==> txIdle
  {
    if !txIdle {
      var w := TxWord(enc, txIdle, txComma, txK, txD);
      var lanes := TxLanes(txComma, txK, txD);
      assert Encodable(lanes[0]) && Split(w)[0] == enc(lanes[0]);
    }
  }

  /** Bit j of group g of the master clock word is one exactly in the
      upper half of the group: a square wave of period 10 bits. */
  lemma MasterClockBit(g: nat, j: nat)
    requires j < 10 && 10 * g + j < 40
    ensures Bit(MasterClockPattern(), 10 * g + j) <==> j >= 5
  {
    var w := MasterClockPattern();
    if g == 0 {
      assert w >> (10 * g + j) == (w >> 0) >> j;
    } else if g == 1 {
      assert w >> (10 * g + j) == (w >> 10) >> j;
    } else if g == 2 {
      assert w >> (10 * g + j) == (w >> 20) >> j;
    } else {
      assert w >> (10 * g + j) == (w >> 30) >> j;
    }
  }

  /** The master clock word repeats every 10 bits: a clock at linerate/10. */
  lemma MasterClockPeriodic(g: nat, j: nat)
    requires j < 10 && 10 * (g + 1) + j < 40
    ensures Bit(MasterClockPattern(), 10 * g + j) == Bit(MasterClockPattern(), 10 * (g + 1) + j)
  {
    MasterClockBit(g, j);
    MasterClockBit(g + 1, j);
  }

  /** Half a period (5 bits) later the master clock word is inverted. */
  lemma MasterClockHalfInverted(g: nat, j: nat)
    requires j < 5 && 10 * g + j + 5 < 40
    ensures Bit(MasterClockPattern(), 10 * g + j + 5) == !Bit(MasterClockPattern(), 10 * g + j)
  {
    MasterClockBit(g, j);
    MasterClockBit(g, j + 5);
  }

  /** Ones among the first 10g + j bits of the master clock word: five
      per whole group, plus those of the partial group. */
  lemma {:induction false} MasterClockOnes(g: nat, j: nat)
    requires j <= 10 && 10 * g + j <= 40
    ensures Ones(MasterClockPattern(), 10 * g + j) == 5 * g + (if j > 5 then j - 5 else 0)
  {
    if j > 0 {
      MasterClockOnes(g, j - 1);
      MasterClockBit(g, j - 1);
    } else if g > 0 {
      MasterClockOnes(g - 1, 10);
    }
  }

  /** The master clock word has a 50% duty cycle: 20 ones out of 40. */
  lemma MasterClockDutyCycle()
    ensures Ones(MasterClockPattern(), 40) == 20
  {
    MasterClockOnes(4, 0);
  }
}
