/** The link-side glue of SERWBCore: the rule that hands scrambled words
    to the PHY and received words to the descrambler only once the link is
    ready, the two depth-16 clock-domain FIFOs, and the order of the
    pipeline stages around them.

    The scrambler, packetizer/depacketizer, etherbone and the PHY's init
    state machine are not part of this model; they appear only as the
    signals the glue reads (`ready`, the scrambler's output beat). */
module SerwbCore {
  import opened Kusphy

  datatype Option<T> = None | Some(value: T)

  // ------------------------------------------------------- ready gating

  /** A stream endpoint as seen in one cycle: valid, k, d. */
  datatype Beat = Beat(valid: bool, k: bv4, d: bv32)

  /** What the core drives towards the PHY and back to the scrambler. */
  datatype TxDrive = TxDrive(tx: Word, sourceReady: bool)

  /** One cycle of the transmit side: the PHY's init.ready and the
      scrambler's output. */
  datatype TxCycle = TxCycle(ready: bool, src: Beat)

  /** The scrambler's word goes to tx_k/tx_d only when the link is ready
      and the word is valid; otherwise tx_k/tx_d keep their default 0.
      The scrambler is told its word is taken exactly when the link is
      ready. */
  function DrivePhy(ready: bool, src: Beat): (r: TxDrive)
    ensures r.sourceReady == ready
    ensures ready && src.valid ==> r.tx == Word(src.k, src.d)
    ensures !(ready && src.valid) ==> r.tx == Word(0, 0)
  {
    if ready then
      TxDrive(if src.valid then Word(src.k, src.d) else Word(0, 0), true)
    else
      TxDrive(Word(0, 0), false)
  }

  /** The stream handshake: a scrambled word leaves the scrambler in
      this cycle when it is valid and the core says it is taken. */
  predicate Taken(ready: bool, src: Beat)
    ensures Taken(ready, src) <==> ready && src.valid
  {
    src.valid && DrivePhy(ready, src).sourceReady
  }

  /** The descrambler's input: valid exactly when the link is ready,
      carrying rx_k/rx_d unchanged. */
  function DescramblerSink(ready: bool, rx: Word): (r: Beat)
    ensures r.valid <==> ready
    ensures Word(r.k, r.d) == rx
  {
    Beat(ready, rx.k, rx.d)
  }

  /** The words the scrambler hands over along a sequence of cycles: at
      most one per cycle, in cycle order. */
  function Consumed(t: seq<TxCycle>): (r: seq<Word>)
    ensures |r| <= |t|
  {
    if t == [] then []
    else
      var c := t[|t| - 1];
      Consumed(t[..|t| - 1]) + (if Taken(c.ready, c.src) then [Word(c.src.k, c.src.d)] else [])
  }

  /** `w` is the word of a beat taken in some cycle of `t`. */
  predicate TakenIn(t: seq<TxCycle>, w: Word)
  {
    exists i :: 0 <= i < |t| && Taken(t[i].ready, t[i].src) && w == Word(t[i].src.k, t[i].src.d)
  }

  /** Every consumed word is the word of a beat taken in some cycle. */
  lemma {:induction false} ConsumedWereTaken(t: seq<TxCycle>)
    ensures forall j :: 0 <= j < |Consumed(t)| ==> TakenIn(t, Consumed(t)[j])
  {
    if t != [] {
      var init := t[..|t| - 1];
      ConsumedWereTaken(init);
      forall j | 0 <= j < |Consumed(t)|
        ensures TakenIn(t, Consumed(t)[j])
      {
        if j < |Consumed(init)| {
          var i :| 0 <= i < |init| && Taken(init[i].ready, init[i].src) && Consumed(init)[j] == Word(init[i].src.k, init[i].src.d);
          assert Consumed(t)[j] == Consumed(init)[j] && t[i] == init[i];
        } else {
          var i := |t| - 1;
          assert Taken(t[i].ready, t[i].src) && Consumed(t)[j] == Word(t[i].src.k, t[i].src.d);
        }
      }
    }
  }

  /** Before the link is ready no scrambled word is consumed, whatever the
      scrambler offers. */
  lemma {:induction false} NothingConsumedBeforeReady(t: seq<TxCycle>)
    requires forall i :: 0 <= i < |t| ==> !t[i].ready
    ensures Consumed(t) == []
  {
    if t != [] {
      NothingConsumedBeforeReady(t[..|t| - 1]);
    }
  }

  /** Once the link is ready every valid word is taken in its own cycle:
      the consumed words are exactly the valid words offered, in order,
      and each is what the PHY was driven with in that cycle. */
  lemma {:induction false} ReadyConsumesEveryValidWord(t: seq<TxCycle>)
    requires forall i :: 0 <= i < |t| ==> t[i].ready
    ensures Consumed(t) == ValidWords(t)
    ensures Consumed(t) == DrivenWhenValid(t)
  {
    if t != [] {
      ReadyConsumesEveryValidWord(t[..|t| - 1]);
    }
  }

  /** The words handed over along two runs one after the other are those
      of the first run followed by those of the second. */
  lemma {:induction false} ConsumedAppend(a: seq<TxCycle>, b: seq<TxCycle>)
    ensures Consumed(a + b) == Consumed(a) + Consumed(b)
    decreases |b|
  {
    if b == [] {
      assert a + b == a;
    } else {
      var ab := a + b;
      assert ab[..|ab| - 1] == a + b[..|b| - 1];
      assert ab[|ab| - 1] == b[|b| - 1];
      ConsumedAppend(a, b[..|b| - 1]);
    }
  }

  /** Bring-up: while the link is not ready nothing is consumed, and from
      the cycle it becomes ready every valid word is taken, in order. */
  lemma ConsumedAfterBringUp(pre: seq<TxCycle>, post: seq<TxCycle>)
    requires forall i :: 0 <= i < |pre| ==> !pre[i].ready
    requires forall i :: 0 <= i < |post| ==> post[i].ready
    ensures Consumed(pre + post) == ValidWords(post)
  {
    ConsumedAppend(pre, post);
    NothingConsumedBeforeReady(pre);
    ReadyConsumesEveryValidWord(post);
  }

  /** The words of the valid beats the scrambler offers. */
  function ValidWords(t: seq<TxCycle>): seq<Word>
  {
    if t == [] then []
    else
      var c := t[|t| - 1];
      ValidWords(t[..|t| - 1]) + (if c.src.valid then [Word(c.src.k, c.src.d)] else [])
  }

  /** What the PHY was driven with on the cycles where the scrambler's
      output was valid. */
  function DrivenWhenValid(t: seq<TxCycle>): seq<Word>
  {
    if t == [] then []
    else
      var c := t[|t| - 1];
      DrivenWhenValid(t[..|t| - 1]) + (if c.src.valid then [DrivePhy(c.ready, c.src).tx] else [])
  }

  /** What the PHY is driven with in each cycle, valid word or not. */
  function Driven(t: seq<TxCycle>): (r: seq<Word>)
    ensures |r| == |t|
    ensures forall i :: 0 <= i < |t| ==> r[i] == DrivePhy(t[i].ready, t[i].src).tx
  {
    if t == [] then [] else Driven(t[..|t| - 1]) + [DrivePhy(t[|t| - 1].ready, t[|t| - 1].src).tx]
  }

  // ----------------------------------------------------- clock-domain FIFOs

  /** Depth of each clock-domain-crossing FIFO. */
  const CdcDepth: nat := 16

  /** The read side of a FIFO as seen in one cycle. */
  datatype FifoSource = FifoSource(valid: bool, data: bv32)

  /** The handshake inputs of a FIFO in one cycle. */
  datatype FifoIn = FifoIn(sinkValid: bool, sinkData: bv32, sourceReady: bool)

  /** The new contents of a FIFO after a cycle, whether it accepted the
      offered word and the word it delivered, if any. */
  datatype FifoStep = FifoStep(items: seq<bv32>, pushed: bool, popped: Option<bv32>)

  /** The offered word, as a sequence, when it was accepted. */
  function PushedPart(input: FifoIn, pushed: bool): seq<bv32>
  {
    if pushed then [input.sinkData] else []
  }

  /** The delivered word, as a sequence. */
  function PoppedPart(popped: Option<bv32>): seq<bv32>
  {
    if popped.Some? then [popped.value] else []
  }

  /** One cycle of a FIFO under a single-clock abstraction: a word is
      accepted only when the FIFO was not full at the start of the cycle,
      and the head is delivered only when it was not empty. */
  function Step(depth: nat, q: seq<bv32>, input: FifoIn): (r: FifoStep)
    ensures r.pushed <==> input.sinkValid && |q| < depth
    ensures r.popped.Some? <==> input.sourceReady && q != []
    ensures |q| <= depth ==> |r.items| <= depth
    ensures PoppedPart(r.popped) + r.items == q + PushedPart(input, r.pushed)
  {
    var pushed := input.sinkValid && |q| < depth;
    if input.sourceReady && q != [] then
      FifoStep(q[1..] + PushedPart(input, pushed), pushed, Some(q[0]))
    else
      FifoStep(q + PushedPart(input, pushed), pushed, None)
  }

  /** A FIFO's history over a sequence of cycles. */
  datatype FifoRun = FifoRun(items: seq<bv32>, accepted: seq<bv32>, delivered: seq<bv32>)

  /** Runs a FIFO from contents `q` through the cycles `ins`. */
  function Run(depth: nat, q: seq<bv32>, ins: seq<FifoIn>): FifoRun
  {
    if ins == [] then FifoRun(q, [], [])
    else
      var prev := Run(depth, q, ins[..|ins| - 1]);
      var s := Step(depth, prev.items, ins[|ins| - 1]);
      FifoRun(s.items,
              prev.accepted + PushedPart(ins[|ins| - 1], s.pushed),
              prev.delivered + PoppedPart(s.popped))
  }

  /** A FIFO never holds more than its depth, and delivers the words it
      held and accepted in arrival order, without loss or duplication:
      what it delivered followed by what it still holds is what it held
      followed by what it accepted. */
  lemma {:induction false} RunPreservesOrder(depth: nat, q: seq<bv32>, ins: seq<FifoIn>)
    requires |q| <= depth
    ensures |Run(depth, q, ins).items| <= depth
    ensures Run(depth, q, ins).delivered + Run(depth, q, ins).items == q + Run(depth, q, ins).accepted
  {
    if ins != [] {
      var prev := Run(depth, q, ins[..|ins| - 1]);
      RunPreservesOrder(depth, q, ins[..|ins| - 1]);
      var input := ins[|ins| - 1];
      var s := Step(depth, prev.items, input);
      assert Run(depth, q, ins) == FifoRun(s.items, prev.accepted + PushedPart(input, s.pushed), prev.delivered + PoppedPart(s.popped));
      ConcatStep(q, prev.accepted, prev.delivered, prev.items, PushedPart(input, s.pushed), PoppedPart(s.popped), s.items);
    }
  }

  /** One step of the conservation argument, on plain sequences: if
      delivered + held == initial + accepted before a cycle, and the cycle
      moves `popped` out and `pushed` in, the balance still holds. */
  lemma ConcatStep<T>(q: seq<T>, accepted: seq<T>, delivered: seq<T>, held: seq<T>,
                      pushed: seq<T>, popped: seq<T>, after: seq<T>)
    requires delivered + held == q + accepted
    requires popped + after == held + pushed
    ensures (delivered + popped) + after == q + (accepted + pushed)
  {
    calc {
      (delivered + popped) + after;
      delivered + (popped + after);
      delivered + (held + pushed);
      (delivered + held) + pushed;
      (q + accepted) + pushed;
    }
  }

  /** Every word delivered from an initially empty FIFO was accepted
      earlier: the delivered words are a prefix of the accepted ones. */
  lemma DeliveredIsPrefixOfAccepted(depth: nat, ins: seq<FifoIn>)
    ensures Run(depth, [], ins).delivered <= Run(depth, [], ins).accepted
  {
    RunPreservesOrder(depth, [], ins);
    var r := Run(depth, [], ins);
    assert r.accepted == r.delivered + r.items;
  }

  /** A clock-domain-crossing FIFO of 32-bit words. */
  class AsyncFifo {
    const depth: nat
    var items: seq<bv32>

    ghost predicate Valid()
      reads this
    {
      0 < depth && |items| <= depth
    }

    constructor (depth: nat)
      requires depth > 0
      ensures Valid() && this.depth == depth && items == []
    {
      this.depth := depth;
      items := [];
    }

    /** sink.ready: there is room for a word. */
    function SinkReady(): (r: bool)
      reads this
      requires Valid()
      ensures r <==> Step(depth, items, FifoIn(true, 0, false)).pushed
    {
      |items| < depth
    }

    /** source.valid: a word is waiting; source.data is the oldest one. */
    function Source(): (r: FifoSource)
      reads this
      requires Valid()
      ensures r.valid <==> Step(depth, items, FifoIn(false, 0, true)).popped.Some?
      ensures r.valid ==> Step(depth, items, FifoIn(false, 0, true)).popped == Some(r.data)
    {
      if items != [] then FifoSource(true, items[0]) else FifoSource(false, 0)
    }

    /** One clock with the given handshake inputs. */
    method Cycle(input: FifoIn) returns (pushed: bool, popped: Option<bv32>)
      requires Valid()
      modifies this
      ensures Valid()
      ensures FifoStep(items, pushed, popped) == Step(depth, old(items), input)
    {
      pushed := input.sinkValid && |items| < depth;
      popped := None;
      if input.sourceReady && items != [] {
        popped := Some(items[0]);
        items := items[1..];
      }
      if pushed {
        items := items + [input.sinkData];
      }
    }
  }

  // ---------------------------------------------------------- structure

  /** The blocks SERWBCore connects. */
  datatype Stage = Etherbone | Packetizer | TxCdc | Scrambler | Phy | Descrambler | RxCdc | Depacketizer

  /** The stream connections of SERWBCore, source to sink, as made in
      liteiclink/serwb/core.py lines 35-54. */
  const Connections: seq<(Stage, Stage)> := [
    (Packetizer, TxCdc), (TxCdc, Scrambler), (Scrambler, Phy),
    (Phy, Descrambler), (Descrambler, RxCdc), (RxCdc, Depacketizer),
    (Depacketizer, Etherbone), (Etherbone, Packetizer)]

  /** The sink a stage's output is connected to. */
  function Next(s: Stage): Option<Stage>
  {
    NextIn(Connections, s)
  }

  /** The sink of the first connection in `cs` whose source is `s`. */
  function NextIn(cs: seq<(Stage, Stage)>, s: Stage): Option<Stage>
  {
    if cs == [] then None
    else if cs[0].0 == s then Some(cs[0].1)
    else NextIn(cs[1..], s)
  }

  /** The stages met from `s` following `n - 1` connections. */
  function Path(s: Stage, n: nat): seq<Stage>
    decreases n
  {
    if n == 0 then []
    else [s] + (match Next(s) case Some(t) => Path(t, n - 1) case None => [])
  }

  /** Transmit order: etherbone, packetizer, tx FIFO, scrambler, PHY. */
  lemma TransmitOrder()
    ensures Path(Etherbone, 5) == [Etherbone, Packetizer, TxCdc, Scrambler, Phy]
  {
    assert Next(Phy) == Some(Descrambler);
    assert Next(Scrambler) == Some(Phy);
    assert Next(TxCdc) == Some(Scrambler);
    assert Next(Packetizer) == Some(TxCdc);
    assert Next(Etherbone) == Some(Packetizer);
  }

  /** Receive order: PHY, descrambler, rx FIFO, depacketizer, etherbone. */
  lemma ReceiveOrder()
    ensures Path(Phy, 5) == [Phy, Descrambler, RxCdc, Depacketizer, Etherbone]
  {
    assert Next(Etherbone) == Some(Packetizer);
    assert Next(Depacketizer) == Some(Etherbone);
    assert Next(RxCdc) == Some(Depacketizer);
    assert Next(Descrambler) == Some(RxCdc);
    assert Next(Phy) == Some(Descrambler);
  }

  /** SERWBCore as built: one scrambling flag for both directions and two
      fresh depth-16 FIFOs. */
  class Core {
    const withScrambling: bool
    const scramblerEnabled: bool
    const descramblerEnabled: bool
    const txCdc: AsyncFifo
    const rxCdc: AsyncFifo

    constructor (withScrambling: bool := true)
      ensures this.withScrambling == withScrambling
      ensures scramblerEnabled == this.withScrambling && descramblerEnabled == this.withScrambling
      ensures fresh(txCdc) && fresh(rxCdc) && txCdc != rxCdc
      ensures txCdc.Valid() && txCdc.depth == CdcDepth && txCdc.items == []
      ensures rxCdc.Valid() && rxCdc.depth == CdcDepth && rxCdc.items == []
    {
      this.withScrambling := withScrambling;
      scramblerEnabled := withScrambling;
      descramblerEnabled := withScrambling;
      txCdc := new AsyncFifo(CdcDepth);
      rxCdc := new AsyncFifo(CdcDepth);
    }
  }
}
