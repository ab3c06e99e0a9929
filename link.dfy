/** Two SerWB endpoints joined by a trained link: the sender's core
    drives its PHY, the PHY's 40-bit word reaches the receiver aligned,
    and the receiver's core feeds its descrambler. The serial transport,
    the gearboxes and the bit alignment are taken as ideal, so the
    receiver's aligned word is the sender's transmit word. One `LinkCycle`
    pairs a sender cycle with the receiver cycle in which its word
    arrives: the link's latency, the transmit register's clock included,
    is not modelled. */
module SerwbLink {
  import opened Kusphy
  import opened SerwbCore

  /** One cycle across the link: the sender's init.ready, idle and comma
      controls and scrambler output, and the receiver's init.ready in the
      cycle that word arrives. */
  datatype LinkCycle = LinkCycle(txReady: bool, txIdle: bool, txComma: bool, src: Beat, rxReady: bool)

  /** The link after training: both ends ready, the sender sending data. */
  predicate Trained(c: LinkCycle)
  {
    c.txReady && c.rxReady && !c.txIdle && !c.txComma
  }

  /** A valid scrambled word whose lanes the line code can carry: K-flags
      only on control characters. */
  predicate Carriable(c: LinkCycle)
  {
    c.src.valid ==> AllEncodable(TxLanes(false, c.src.k, c.src.d))
  }

  /** The 40-bit word the sender puts on the line in this cycle. */
  function LineWord(enc: Lane -> Code, c: LinkCycle): bv40
  {
    var drive := DrivePhy(c.txReady, c.src);
    TxWord(enc, c.txIdle, c.txComma, drive.tx.k, drive.tx.d)
  }

  /** What the receiver's descrambler is offered in this cycle. */
  function SinkOf(enc: Lane -> Code, dec: Code -> Lane, c: LinkCycle): Beat
  {
    var rx := Receive(dec, LineWord(enc, c));
    DescramblerSink(c.rxReady, Word(rx.k, rx.d))
  }

  /** On a trained link a word taken from the sender's scrambler is the
      word offered to the receiver's descrambler in the matching receiver
      cycle; a
      cycle without a valid word offers the zero word. */
  lemma TrainedCycleDelivers(enc: Lane -> Code, dec: Code -> Lane, c: LinkCycle)
    requires IdealCodec(enc, dec) && NonZeroCodes(enc)
    requires Trained(c) && Carriable(c)
    ensures c.src.valid ==> SinkOf(enc, dec, c) == Beat(true, c.src.k, c.src.d)
    ensures !c.src.valid ==> SinkOf(enc, dec, c) == Beat(true, 0, 0)
  {
    var drive := DrivePhy(c.txReady, c.src);
    if !c.src.valid {
      PlainDataEncodable(0);
    }
    DataRoundTrip(enc, dec, drive.tx.k, drive.tx.d);
  }

  /** The transmit side of each cycle. */
  function SenderCycles(t: seq<LinkCycle>): (r: seq<TxCycle>)
    ensures |r| == |t|
    ensures forall i :: 0 <= i < |t| ==> r[i] == TxCycle(t[i].txReady, t[i].src)
  {
    if t == [] then [] else SenderCycles(t[..|t| - 1]) + [TxCycle(t[|t| - 1].txReady, t[|t| - 1].src)]
  }

  /** Everything the receiver's descrambler is offered as valid, in order:
      all the receiver itself can observe. */
  function Received(enc: Lane -> Code, dec: Code -> Lane, t: seq<LinkCycle>): seq<Word>
  {
    if t == [] then []
    else
      var sink := SinkOf(enc, dec, t[|t| - 1]);
      Received(enc, dec, t[..|t| - 1]) + (if sink.valid then [Word(sink.k, sink.d)] else [])
  }

  /** Over any run of a trained link, the receiver's descrambler is offered
      one valid word per cycle, and it is exactly what the sender's PHY was
      driven with in that cycle: the scrambler's word when it was valid,
      the zero word otherwise. */
  lemma {:induction false} TrainedLinkReceivesDriven(enc: Lane -> Code, dec: Code -> Lane, t: seq<LinkCycle>)
    requires IdealCodec(enc, dec) && NonZeroCodes(enc)
    requires forall i :: 0 <= i < |t| ==> Trained(t[i]) && Carriable(t[i])
    ensures Received(enc, dec, t) == Driven(SenderCycles(t))
  {
    if t != [] {
      var init := t[..|t| - 1];
      TrainedLinkReceivesDriven(enc, dec, init);
      assert SenderCycles(t)[..|t| - 1] == SenderCycles(init);
      TrainedCycleDelivers(enc, dec, t[|t| - 1]);
    }
  }

  /** The descrambler inputs of the cycles in which the sender's scrambler
      handed over a word. The receiver cannot single these out: it takes
      the zero word of the other cycles as valid too. */
  function DeliveredWhenTaken(enc: Lane -> Code, dec: Code -> Lane, t: seq<LinkCycle>): seq<Word>
  {
    if t == [] then []
    else
      var c := t[|t| - 1];
      var sink := SinkOf(enc, dec, c);
      DeliveredWhenTaken(enc, dec, t[..|t| - 1])
        + (if Taken(c.txReady, c.src) && sink.valid then [Word(sink.k, sink.d)] else [])
  }

  /** Over any run of a trained link, the descrambler inputs of the
      cycles the sender's handshake completed are exactly the words the
      sender's scrambler handed over, in the same order, none lost and none
      repeated. */
  lemma {:induction false} TrainedLinkDeliversInOrder(enc: Lane -> Code, dec: Code -> Lane, t: seq<LinkCycle>)
    requires IdealCodec(enc, dec) && NonZeroCodes(enc)
    requires forall i :: 0 <= i < |t| ==> Trained(t[i]) && Carriable(t[i])
    ensures DeliveredWhenTaken(enc, dec, t) == Consumed(SenderCycles(t))
  {
    if t != [] {
      var init := t[..|t| - 1];
      TrainedLinkDeliversInOrder(enc, dec, init);
      assert SenderCycles(t)[..|t| - 1] == SenderCycles(init);
      TrainedCycleDelivers(enc, dec, t[|t| - 1]);
    }
  }
}
