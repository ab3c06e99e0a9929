# SerWB link layer: PHY word datapath and core glue, in Dafny

SerWB tunnels a Wishbone bus over one serial lane pair. This project
models the two deterministic pieces of its link layer that sit around the
line code:

- **Kintex UltraScale PHY datapath** (`KUSSerdes`, module `Kusphy`,
  `kusphy.dfy`). On transmit, the 32-bit word `tx_d` and its four K-flags
  `tx_k` are split into four byte lanes for four 8b/10b encoders. The comma
  word can replace them: K28.5 (0xBC) on lane 0 and data 0x00 on lanes 1–3.
  The all-zero idle word can replace everything. The four 10-bit code
  groups are concatenated into a 40-bit word, and a register latches that
  word for the gearbox. On receive, the aligned 40-bit word is cut into four
  10-bit groups. The decoded lanes are reassembled into `rx_k`/`rx_d`, and
  `rx_idle`/`rx_comma` are recognised. A master also forwards a constant
  40-bit clock pattern.
- **SERWBCore glue** (module `SerwbCore`, `core.dfy`). The scrambler's
  output reaches the PHY only when `phy.init.ready` holds. The descrambler
  is fed only when ready. Two 32-bit, depth-16 clock-domain FIFOs sit in
  the pipeline etherbone → packetizer → tx FIFO → scrambler → PHY →
  descrambler → rx FIFO → depacketizer → etherbone.
- **Two endpoints joined by a trained link** (module `SerwbLink`,
  `link.dfy`). This puts the two pieces together. The sender's core drives
  its PHY, and the receiver's core feeds its descrambler.

The 8b/10b encoder and decoder (section 36.2.4 of IEEE 802.3) are not part
of the model. Members that need them take them as parameters `enc` and
`dec`. The line code has a code group for every data byte but, as
control, only for its twelve control characters (K28.0 to K28.7, K23.7,
K27.7, K29.7, K30.7). A lane it can carry is `Encodable`. Two hypotheses
stand for the codec's behaviour, both on encodable lanes only:

- `IdealCodec(enc, dec)`: decoding an encoded lane gives the lane back.
- `NonZeroCodes(enc)`: no lane is encoded as the all-zero code group. Every
  8b/10b code group has at least four ones.

The round-trip lemmas therefore require the word's lanes to be encodable.
The comma word always is (`CommaEncodable`), and so is every data word
without K-flags (`PlainDataEncodable`).

Both the encoder and the decoders are built with least-significant-bit-first
ordering, so the bit order inside a code group is part of `enc`/`dec`. The
serial transport, gearboxes and bit alignment are treated as ideal in
`SerwbLink`: the receiver's aligned word is the sender's transmit word.
One link cycle pairs a sender cycle with the receiver cycle in which its
word arrives.

The FIFOs use a single-clock abstraction. In one cycle a FIFO accepts the
offered word only if it was not full at the start of the cycle. It
delivers its head only if it was not empty. `AsyncFifo` keeps its contents
in a sequence and is proved against the pure step function `Step`.

Behaviour worth knowing, which follows from the code:

- A data word with `tx_k = 0b0001` and `tx_d = 0x000000BC` is carried by
  exactly the same lanes as the comma word. The receiver raises `rx_comma`
  for it (`DataMistakenForComma`). The comma is reserved only by that
  convention, not by the line.
- On a ready cycle where the scrambler's output is not valid, the PHY is
  driven with the data word `(0, 0)`. The receiving core offers that word to
  its descrambler as a valid beat (`TrainedCycleDelivers`). On a trained
  link the receiver therefore sees one valid word per cycle, whether or not
  the sender had one (`TrainedLinkReceivesDriven`).

## Model

| member | source | states |
|---|---|---|
| `Kusphy.TxLanes` | liteiclink/serwb/kusphy.py:103-117 | In comma mode the encoder inputs are exactly what `rx_comma` recognises, whatever `tx_k`/`tx_d` hold. In data mode the lanes reassemble to `(tx_k, tx_d)`. |
| `Kusphy.TxLaneOrder` | liteiclink/serwb/kusphy.py:107-116 | In data mode lane i receives K-flag i and byte i of `tx_d`, taken from bits [8i, 8i+8) (little-endian). |
| `Kusphy.Map4` | liteiclink/serwb/kusphy.py:32-36 | Element i of the result is the coder applied to element i. The four `Decoder`s are exactly this. The single four-word `Encoder(4, True)` is modelled lane by lane with one `enc`, which is exact only because running disparity, passed from lane to lane in the real encoder, is left out. |
| `Kusphy.CatCodes` | liteiclink/serwb/kusphy.py:122 | Concatenating four code groups for the gearbox puts code i in bits [10i, 10i+10), so the receiver's split gives each code back in its own lane. |
| `Kusphy.Split` | liteiclink/serwb/kusphy.py:214-217 | The receiver's four 10-bit groups, concatenated again, are the aligned word. The split loses nothing. |
| `Kusphy.TxWord` | liteiclink/serwb/kusphy.py:118-123 | With `tx_idle` the gearbox word is all zeros (the receiver's idle), overriding comma and data. Otherwise the 10-bit group i of the word is lane i's code. |
| `Kusphy.TxRegister.constructor` | liteiclink/serwb/kusphy.py:118-123 | The transmit register resets to the all-zero (idle) word. |
| `Kusphy.TxRegister.Clock` | liteiclink/serwb/kusphy.py:118-123 | The gearbox sees each cycle's word one clock later. The register latches `TxWord` of the current inputs. |
| `Kusphy.Reassemble` | liteiclink/serwb/kusphy.py:218-219 | Bit i of `rx_k` is decoder i's K-flag and byte i of `rx_d` is decoder i's byte. |
| `Kusphy.RxIdle` | liteiclink/serwb/kusphy.py:220 | `rx_idle` holds if and only if all four decoder inputs are the zero group. |
| `Kusphy.RxComma` | liteiclink/serwb/kusphy.py:221-224 | `rx_comma` holds if and only if the decoded lanes are the comma encoder inputs. |
| `Kusphy.Receive` | liteiclink/serwb/kusphy.py:210-224 | `rx_k`/`rx_d` carry decoder i's output in position i; `rx_idle` holds if and only if every group is zero; `rx_comma` holds if and only if the decoders output the comma lanes. |
| `Kusphy.PackReassemble` | liteiclink/serwb/kusphy.py:218-219 | Reassembly into `rx_k`/`rx_d` inverts the transmit lane packing for every set of four lanes. |
| `Kusphy.DataMistakenForComma` | liteiclink/serwb/kusphy.py:221-224 | A data-mode word is recognised as comma if and only if `tx_k = 1` and `tx_d = 0xBC`. |
| `Kusphy.CommaEncodable` | liteiclink/serwb/kusphy.py:104-106 | The comma word's lanes (K28.5 and three data zeros) can all be carried by the line code. |
| `Kusphy.PlainDataEncodable` | liteiclink/serwb/kusphy.py:107-116 | A data word with no K-flag set can always be carried by the line code. |
| `Kusphy.LanesSurviveLink` | liteiclink/serwb/kusphy.py:210-217 | Under an ideal codec the receiver decodes exactly the lanes the transmitter encoded, for comma words and for data words whose lanes the line code can carry. |
| `Kusphy.DataRoundTrip` | liteiclink/serwb/kusphy.py:210-224 | A data word whose lanes the line code can carry arrives as the same `rx_k`/`rx_d`. `rx_idle` is clear, and `rx_comma` is set only for the comma-shaped data word. |
| `Kusphy.CommaRoundTrip` | liteiclink/serwb/kusphy.py:104-106 | The comma word sent is recognised as comma and not as idle, whatever `tx_k`/`tx_d` hold. |
| `Kusphy.IdleRoundTrip` | liteiclink/serwb/kusphy.py:118-120 | The receiver sees idle if and only if the transmitter sent idle (for non-idle words, when their lanes can be carried). |
| `Kusphy.MasterClockPattern` | liteiclink/serwb/kusphy.py:78-81 | The forwarded-clock word is four 10-bit groups, each 0b1111100000. |
| `Kusphy.MasterClockBit` | liteiclink/serwb/kusphy.py:78-81 | Bit j of each 10-bit group of the clock word is one if and only if j >= 5. |
| `Kusphy.MasterClockPeriodic` | liteiclink/serwb/kusphy.py:78-81 | The clock word repeats every 10 bits: a clock at linerate/10. |
| `Kusphy.MasterClockHalfInverted` | liteiclink/serwb/kusphy.py:78-81 | Within every group, 5 bits (half a period) later the clock word is inverted. |
| `Kusphy.MasterClockOnes` | liteiclink/serwb/kusphy.py:78-81 | The first 10g + j bits of the clock word hold 5g ones plus the ones of the partial group. |
| `Kusphy.MasterClockDutyCycle` | liteiclink/serwb/kusphy.py:78-81 | The clock word has 20 ones out of 40: a 50% duty cycle. |
| `SerwbCore.DrivePhy` | liteiclink/serwb/core.py:37-43 | `scrambler.source.ready` equals `init.ready`. When ready and valid, `tx_k`/`tx_d` equal the scrambler's k/d. Otherwise they stay 0. |
| `SerwbCore.Taken` | liteiclink/serwb/core.py:37-42 | The scrambler's word leaves it in a cycle if and only if the link is ready and the word is valid. |
| `SerwbCore.Consumed` | liteiclink/serwb/core.py:37-42 | Along a run no more words are handed over than the run has cycles. Which words, in which order and without duplicates, is stated by `ConsumedWereTaken`, `ConsumedAppend` and the run lemmas. |
| `SerwbCore.ConsumedWereTaken` | liteiclink/serwb/core.py:37-42 | Every consumed word is the word of a beat taken in some cycle of the run: the handshake invents no word. |
| `SerwbCore.Driven` | liteiclink/serwb/core.py:37-42 | In each cycle the PHY is driven with the scrambler's word when ready and valid, and with the zero word otherwise. |
| `SerwbCore.DescramblerSink` | liteiclink/serwb/core.py:46-48 | The descrambler's input is valid if and only if `init.ready`, and carries `rx_k`/`rx_d` unchanged. |
| `SerwbCore.NothingConsumedBeforeReady` | liteiclink/serwb/core.py:37-43 | Over any run before the link is ready, no scrambled word is consumed. |
| `SerwbCore.ReadyConsumesEveryValidWord` | liteiclink/serwb/core.py:37-43 | Once ready, the consumed words are exactly the valid words offered, in order. Each is what the PHY was driven with in its cycle. |
| `SerwbCore.ConsumedAppend` | liteiclink/serwb/core.py:37-42 | The handshake is decided cycle by cycle: the words consumed over two runs in sequence are those of the first followed by those of the second. |
| `SerwbCore.ConsumedAfterBringUp` | liteiclink/serwb/core.py:37-42 | Over a bring-up run (not ready, then ready) the consumed words are exactly the valid words offered once ready, in order: none before, none lost, none repeated. |
| `SerwbCore.Step` | liteiclink/serwb/core.py:21-24 | A FIFO cycle accepts a word if and only if it is offered and the FIFO is not full. It delivers if and only if the consumer is ready and the FIFO is not empty. The depth bound is kept, and words are conserved: delivered + remaining = held + accepted. |
| `SerwbCore.RunPreservesOrder` | liteiclink/serwb/core.py:21-25 | Over any sequence of cycles a FIFO holds at most its depth. It delivers its words in arrival order, with no loss and no duplication. |
| `SerwbCore.DeliveredIsPrefixOfAccepted` | liteiclink/serwb/core.py:21-25 | From an empty FIFO, the delivered words are always a prefix of the accepted words. |
| `SerwbCore.AsyncFifo.constructor` | liteiclink/serwb/core.py:21-24 | A new FIFO is empty and has the given depth. |
| `SerwbCore.AsyncFifo.SinkReady` | liteiclink/serwb/core.py:35 | `sink.ready` holds exactly when a word offered now would be accepted. |
| `SerwbCore.AsyncFifo.Source` | liteiclink/serwb/core.py:36 | `source.valid` holds exactly when a word would be delivered now. `source.data` is that word. |
| `SerwbCore.AsyncFifo.Cycle` | liteiclink/serwb/core.py:21-24 | One clock changes the contents and the handshake results exactly as `Step` says. |
| `SerwbCore.TransmitOrder` | liteiclink/serwb/core.py:35-54 | Following the connections from etherbone gives packetizer, tx FIFO, scrambler, PHY. |
| `SerwbCore.ReceiveOrder` | liteiclink/serwb/core.py:35-54 | Following the connections from the PHY gives descrambler, rx FIFO, depacketizer, etherbone. |
| `SerwbCore.Core.constructor` | liteiclink/serwb/core.py:11-30 | One `with_scrambling` flag (default true) configures both scrambler and descrambler. Both FIFOs are distinct, empty and of depth 16. |
| `SerwbLink.TrainedCycleDelivers` | liteiclink/serwb/core.py:37-48 | On a trained link, a carriable word taken from the sender's scrambler is the word offered to the receiver's descrambler in the matching receiver cycle. A cycle without a valid word offers `(0, 0)`. |
| `SerwbLink.TrainedLinkReceivesDriven` | liteiclink/serwb/core.py:37-48 | Over any run of a trained link carrying encodable words, the valid words the receiver's descrambler is offered are exactly what the sender's PHY was driven with, one per cycle, in order: the scrambler's word when valid, the zero word otherwise. |
| `SerwbLink.TrainedLinkDeliversInOrder` | liteiclink/serwb/core.py:37-48 | Corollary seen from the sender's handshake: the descrambler inputs of the cycles whose handshake completed are exactly the words the scrambler handed over, in order. The receiver alone cannot single out those cycles. |

## Left out

- The 8b/10b encoder and decoder are not part of this model. They appear as the parameters `enc`/`dec` with the hypotheses `IdealCodec` and `NonZeroCodes`. Running disparity, the decoders' `invalid` output and the codec's pipeline latency are not modelled.
- `Kusphy.LanesSurviveLink`, `Kusphy.DataRoundTrip`, `Kusphy.IdleRoundTrip`, `SerwbLink.TrainedCycleDelivers`, `SerwbLink.TrainedLinkReceivesDriven` and `SerwbLink.TrainedLinkDeliversInOrder` promise nothing for words with a K-flag on a byte that is not a control character. The line code has no code group for those, and what the encoder makes of them is not modelled.
- `SerwbLink.TrainedCycleDelivers`, `SerwbLink.TrainedLinkReceivesDriven` and `SerwbLink.TrainedLinkDeliversInOrder` do not model the link's latency. The sys0p2x transmit register (modelled on its own as `Kusphy.TxRegister.Clock`), the gearboxes, the SERDES, the bitslip and the decoders all delay the word. A `LinkCycle` pairs the sender's cycle with the receiver cycle in which its word arrives, and its `rxReady` is the receiver's `init.ready` in that later cycle.
- `Gearbox` and `BitSlip` are not part of this model. `SerwbLink` takes the receiver's aligned 40-bit word to be the sender's transmit word, and the bitslip value is not modelled.
- Xilinx primitives (OSERDESE3, ISERDESE3, IDELAYE3, IBUFDS/OBUFDS, BUFR/BUFG) are physical I/O and clocking. They are left out, and so is the slave's reference-clock input.
- Delay calibration (`rx_delay_*`) is analog tuning and is left out.
- `MultiReg`/`PulseSynchronizer` are left out: `tx_idle`, `tx_comma`, `rx_idle` and `rx_comma` are taken as already synchronised.
- The master/slave `mode` is not a parameter. `MasterClockPattern` is the pattern only a master forwards.
- `SerwbCore.AsyncFifo.Cycle`: the FIFO crosses two clock domains through gray-code pointers. The model uses one clock, so the latency of the crossing and any read/write skew are not captured.
- Scrambler/descrambler, packetizer/depacketizer, etherbone and the PHY init state machine are not part of this model. Only `init.ready` and the scrambler's output beat, which the glue reads, appear. `tx_idle`/`tx_comma` are driven by the init state machine; `SerwbLink` assumes both are clear once the link is trained.
- The board example, with its pins, clocking, reset countdown, analyzer and build commands, is out of scope.
