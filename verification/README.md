# LIRC in Dafny

LIRC turns the codes of remote control buttons into trains of infrared pulses and spaces, and
trains it receives back into codes. This project models the parts where that is done, step by step
as the C and C++ code does it, and proves what they keep.

Almost everywhere the source changes state in place. There the model is a class, or a method with
the loops of the source, whose contract ties the new state to a function of the old one; what the
code promises is then proved about that function, over whole runs where it takes several calls.
For example, `ReceiveBuffer.Decode` is `receive_decode` with its read position, running sum, pending
halves and give-backs, and its contract says that it computes `ReceiveDecode`; `CodecRoundTrip` is
about `ReceiveDecode`; and `Loopback` puts both mutable buffers together again.

## What is modelled

**The infrared codec** (`Words`, `Waveform`, `Remotes`, `SendBuffers`, `Transmit`, `RepeatSignals`,
`Decoding`, `ReceiveBuffers`, `OnAir`, `BitReading`, `RoundTrip`, `Codec`, `Tolerances`, `Matching`,
`PairCodes`, `PairSignals`, `PairRoundTrips`, `Chains`, `ChainProofs`, `GapProofs`, `MisplacedRepeats`,
`Toggles`). A word of
64 bits is a sequence of its bits, so that shifts lose bits as they do in C. A train of *halves* is
a sequence of pulses and spaces with their durations. The send buffer keeps the run-length normal
form of the train pushed into it, which is the only alternating train with the same waveform,
microsecond by microsecond. The decoder is proved to undo the encoder exactly under conditions on
the remote's timings and tolerances, and to refuse a signal that goes on where it should end. For the
space-encoded remotes it is proved, on any input, to match one item after the other, although it
tries and gives back.

**Configured actions** (`Lircrc`, `HeldKeys`, `Draining`, `Executions`). `lirc_iscode` is Knuth-Morris-Pratt
string matching over button presses, and says which repeats of a held key count; the calls of
`lirc_code2char` until it returns nothing are one pass over the entries. Over any run of events it is
told which entries execute, and which of its strings each gives.

**Replies** (`Replies`, `LineReading`, `CodeLists`). What `lircd` prints is what `lirc_command_run`
reads, line by line and through the client's buffer of 256 bytes.

**Recorded remotes** (`Factoring`, `FactoringProofs`, `Removing`, `Inverting`, `Lengths`). Rewriting a
remote so that it sends the same, and the histogram of lengths that its timings are computed from.

**Repeating in the daemon** (`Repeating`, `SignalLengths`, `RepeatRuns`, `SeveralCodes`, `TogglesInRuns`).
Commands, alarms and received buttons as steps of one state machine: what is sent and answered, and what
the toggle bits say meanwhile.

**The dictionary** (`Dictionaries`), **the carrier generator** (`Carrier`, `CarrierPhase`) and **the mouse
circle** (`Circles`). `Options` and `Numbers` are common to several of these.

## Where the code does not do what one would expect

Each of these is proved, most as one side of an if-and-only-if.

- A biphase remote without header and lead loses the first half of every code that begins with a 1
  (`Tolerances.BareRc5LosesFirstOne`). In a further signal of the same buffer that half is stored where
  a pulse is read, and the signal's last pulse is taken away (`ChainProofs.SpaceFirstMisplaced`). The
  buffer has the right waveform exactly if no further signal begins with a space
  (`ChainProofs.ChainAlternates`, `MisplacedRepeats.BareRc5RepeatsSpoilt`).
- A failed try for a 1 behind a lead pulse forgets the lead, so that the 0 is read against the merged
  pulse (`BitReading.LeadOneAgainstZero`, `Tolerances.LeadLosesFirstZero`). With the space first, it is
  the header's space that is forgotten (`BitReading.SpaceLedOneAgainstZero`, `Tolerances.HeaderLosesFirstZero`).
- The header of a `NO_HEAD_REP` remote is compared as a whole. A first bit that begins with a space makes
  its space longer, so that biphase codes beginning with a 1 are lost, and all codes of remotes that send
  the space first (`Tolerances.OptionalHeaderLosesFirstOne`, `BiphaseRoundTrip`, `SpaceFirstRoundTrip`).
- XMP accepts a larger error below nibble 0 than below any other, because C divides towards zero
  (`PairCodes.NibbleTolerance`).
- RC-MM and XMP read pulses and spaces together, so a lead pulse lengthens the first symbol, stays pending
  and is taken off the first pulse expected alone (`PairRoundTrips.PairRoundTrip`, `LeadSpoilsXmp`). Without a
  trailing pulse the silence is read as the last space (`PairRoundTrips.SilenceSpoilsXmp`).
- `get_pre_data` and `get_post_data` do not look at the codes that follow the first button's first
  one, and can damage them (`FactoringProofs.PreKeepsMeaning`, `FirstContinuationLost`).
- `get_post_data`, called alone on buttons with one and the same code, takes 64 bits off them
  (`FactoringProofs.PostWithinBitsExactly`, `SameCodesTakeTooMuch`).
- `remove_post_data` does not look at the separator in front of post data, as `remove_pre_data` does, and
  then changes what is sent (`Removing.PostRemovedSends`, `SeparatorLost`).
- `invert_data` changes what is sent if `toggle_bit_mask` has a single bit, since that bit is sent as
  kept in the state and not taken from the data (`Inverting.InvertKeepsWaveform`, `ToggleBitInverted`).
- The second test of `merge_lengths`, written with `100 + eps` and `100 - eps` but without the division
  by 100, never holds (`Lengths.OnlyAepsMerges`).
- A button name that makes a line of a `LIST` reply just fill its buffer takes the line's newline with
  it. The terminator in its place hides all that follows, and the client takes that one line again and
  again until it returns `EPROTO`, the rest of the reply unread (`CodeLists.CodesReadBack`,
  `LongNameStops`). An empty data line makes the client give up (`Replies.ReplyParsesBack`).
- `SEND_ONCE` of a button with several codes and without any repeat sends the first two of them and leaves
  out the others; with repeats, the codes sent first count as the first repeat (`SeveralCodes.SeveralOnce`),
  while for a single code they do not (`RepeatRuns.OnceRuns`).
- A client whose `SEND_ONCE` is cut off by another client's `SEND_STOP` is left without its reply
  (`RepeatRuns.EveryCommandAnswered`, `CutOff`).
- The carrier accumulator is the phase of the carrier only if the carrier is not faster than the
  sample rate, and at very high rates not always then (`CarrierPhase.PhaseIsModular`, `FastCarriersFail`).
- The mouse circle closes and its first octant is round, but the second is not the mirror image of the
  first: at the radius that is drawn it ends one step outside (`Circles.SecondOctantBulges`).

## Model

| member | source | states |
|---|---|---|
| `Words.GenMask` | lib/ir_remote.h:420-430 | the mask built by shifting in one bit per round has exactly the low `bits` bits set |
| `Words.Reverse` | lib/ir_remote.h:99-109 | bit i moves to bit bits-1-i; bits above the width disappear |
| `Words.ReverseTwice` | lib/ir_remote.h:99-109 | reversing twice gives back the low bits, and reading the reversed word low bit first gives the original high bit first |
| `Words.BitsSet` | lib/ir_remote.h:87-97 | the shifting loop counts the set bits |
| `Remotes.GenIrCodeBits` | lib/ir_remote.h:433-447 | the transmitted word is, bit by bit, post data, then code, then pre data, each cut to its width |
| `Remotes.PartsThere` | lib/ir_remote.h:241-279 | header, foot and separators are there if both their durations are given, pre and post data if they have bits |
| `Remotes.ExpectIsBand` | lib/ir_remote.h:343-354 | a duration meets its expectation exactly within the percentage, the absolute tolerance, or the resolution of the driver, whichever is the widest |
| `SendBuffers.SendBuffer.Add` | lib/transmit.c:74-84 | an item is stored and summed up, or too_long is set |
| `SendBuffers.SendBuffer.SendPulse` | lib/transmit.c:86-97 | the buffer does what Push does to its state: a pending pulse grows, a pending space is stored first |
| `SendBuffers.SendBuffer.SendSpace` | lib/transmit.c:99-114 | likewise for a space; a space at the very beginning is dropped |
| `SendBuffers.SendBuffer.Flush` | lib/transmit.c:147-157 | both pending halves are stored |
| `SendBuffers.SendBuffer.Sync` | lib/transmit.c:159-167 | a pending pulse is stored, a pending space left out, and the last item taken back if their number is even |
| `SendBuffers.SendBuffer.Check` | lib/transmit.c:125-145 | true exactly if something is stored and none of it is zero |
| `Waveform.MergeKeepsLevels` | lib/transmit.c:86-114 | merging like neighbours does not change the carrier level at any microsecond |
| `Waveform.NormalFormUnique` | lib/transmit.c:86-114 | two alternating trains with the same waveform are the same train: the normal form is the only one |
| `SendBuffers.PushAppends` | lib/transmit.c:86-114 | one push keeps the buffer in the normal form of all that was pushed |
| `SendBuffers.RunHolds` | lib/transmit.c:86-114 | from any buffer with nothing pending, a train is stored behind what was there as its normal form, last half pending; if nothing was there, it must start with a pulse |
| `SendBuffers.LeadingSpacesDrop` | lib/transmit.c:99-104 | spaces pushed into an empty buffer are dropped, and nothing else |
| `SendBuffers.BufferIsNormalForm` | lib/transmit.c:74-114 | for any positive durations that fit: stored items plus pending half are the unique alternating train with the waveform of the calls after the leading spaces, and sum + pendingp + pendings is its total |
| `SendBuffers.OverflowIsReported` | lib/transmit.c:74-123 | too_long is set by the pushes exactly if the normal form has more than one half too many; behind sync_send_buffer bad_send_buffer reports exactly the trains of which more than WBUF_SIZE halves would be sent, the last pulse being what sets too_long in the closest case |
| `Transmit.SendBits` | lib/transmit.c:197-294 | the bit loop pushes, for the bits most significant first, the halves of each bit after the toggle masks, doubled at rc6_mask bits |
| `Transmit.ToggledIsSent` | lib/transmit.c:251-268 | testing the walking one-bit mask against the toggle masks is testing the bit of the whole word it stands on |
| `Transmit.SendSymbols` | lib/transmit.c:204-233 | RC-MM: one pulse and space for every two bits, high bit first, in spite of the reversal |
| `Transmit.SendNibbles` | lib/transmit.c:234-248 | XMP: one pulse and space for every four bits, the space growing by sone per unit |
| `Transmit.SendData` | lib/transmit.c:197-295 | which of the three trains is pushed; nothing for a wrong number of RC-MM or XMP bits |
| `Transmit.SendPre` | lib/transmit.c:297-306 | pre data, then its separator if both its parts are positive |
| `Transmit.SendPost` | lib/transmit.c:308-317 | the separator, then the post data |
| `Transmit.SendRepeat` | lib/transmit.c:319-325 | lead, repeat pulse and space, trail |
| `Transmit.SendCode` | lib/transmit.c:327-341 | the whole signal in order, and the sum corrected for an optional header under constant length |
| `Transmit.CodeLayout` | lib/transmit.c:327-341 | header, lead, pre data, code, post data, trail and foot in this order, each there exactly if its durations or bits are; repeats lack the header and the foot that are marked so |
| `RepeatSignals.RepeatStored` | lib/transmit.c:411-414 | a repeat signal leaves exactly these durations in an empty buffer, whatever code is repeated: header if repeats have one, lead and repeat pulse as one, and the repeat space only in front of a trailing pulse |
| `RepeatSignals.RepeatIsCode` | lib/transmit.c:424-427 | without a repeat signal a repeat is the signal of the code under repeat_mask |
| `RepeatSignals.RepeatMaskFlips` | lib/transmit.c:424-427 | the bits sent under repeat_mask differ from those without it exactly where it is set, but for a bit that is sent as kept in the toggle state |
| `ReceiveBuffers.ReceiveBuffer.GetNext` | lib/receive.c:111-162 | reads the next item, from the buffer or from the driver, and adds it to the sum |
| `ReceiveBuffers.ReceiveBuffer.Unget` | lib/receive.c:277-287 | gives items back: read position and sum are those before they were read |
| `ReceiveBuffers.ReceiveBuffer.NextPulse` | lib/receive.c:296-308 | a pulse's length, or 0 for anything else, which is consumed all the same |
| `ReceiveBuffers.ReceiveBuffer.NextSpace` | lib/receive.c:310-322 | likewise a space |
| `ReceiveBuffers.ReceiveBuffer.SyncPulse` | lib/receive.c:324-337 | a pending pulse must come next and match |
| `ReceiveBuffers.ReceiveBuffer.SyncSpace` | lib/receive.c:339-352 | a pending space must come next and match |
| `ReceiveBuffers.ReceiveBuffer.ExpectedPulse` | lib/receive.c:354-377 | an expected pulse, a pending one before it taken off the length read |
| `ReceiveBuffers.ReceiveBuffer.ExpectedSpace` | lib/receive.c:379-402 | an expected space likewise |
| `ReceiveBuffers.ReceiveBuffer.ExpectedOne` | lib/receive.c:404-448 | a 1 in biphase, space or space-first encoding, with the pending halves and the items given back on failure |
| `ReceiveBuffers.ReceiveBuffer.ExpectedZero` | lib/receive.c:450-494 | a 0 likewise |
| `ReceiveBuffers.ReceiveBuffer.ReadBits` | lib/receive.c:967-981 | the bit loop: a 1 is tried first, then a 0, from the state the failed try left |
| `ReceiveBuffers.ReceiveBuffer.ReadSymbols` | lib/receive.c:669-705 | the RC-MM loop: the smallest symbol whose length matches |
| `ReceiveBuffers.ReceiveBuffer.ReadNibbles` | lib/receive.c:935-965 | the XMP loop: the rounded quotient of the length over the smallest one |
| `ReceiveBuffers.ReceiveBuffer.ReadHeader` | lib/receive.c:530-583 | header pulse and space, for biphase remotes possibly with the space pending, for RC-MM as one length |
| `ReceiveBuffers.ReceiveBuffer.ReadGap` | lib/receive.c:615-633 | the silence behind a signal is long enough |
| `ReceiveBuffers.ReceiveBuffer.ReadPre` | lib/receive.c:983-1017 | pre data and the separator behind it |
| `ReceiveBuffers.ReceiveBuffer.ReadPost` | lib/receive.c:1019-1036 | the separator and the post data |
| `ReceiveBuffers.ReceiveBuffer.Decode` | lib/receive.c:1038-1256 | receive_decode computes, from the items the driver delivers, exactly the value of the functional decoder ReceiveDecode |
| `OnAir.MatchPulse` | lib/receive.c:354-377 | a pulse that comes next on the air is found, alone, behind a pending space or merged with a pending pulse, and the decoder is ready for the rest |
| `OnAir.MatchSpace` | lib/receive.c:379-402 | likewise a space that a pulse follows |
| `BitReading.BiphaseOneRefused` | lib/receive.c:404-448 | trying a 1 against a biphase 0 fails and restores exactly the state it started from, pending half included, if the tolerance tells the 0 |
| `BitReading.SpaceOneAgainstZero` | lib/receive.c:404-448 | trying a 1 against a space-encoded 0 fails back to read position and sum of before exactly if the 0 does not pass for a 1 |
| `BitReading.LeadOneAgainstZero` | lib/receive.c:404-448 | with a lead pulse pending, a failed try whose pulse matched restores the buffer but has forgotten the lead |
| `BitReading.BitReadBack` | lib/receive.c:404-494 | a bit is read back exactly when it is a 1 or a 0 that is told from a 1, and then the decoder is where the next bit needs it |
| `RoundTrip.BitsReadBack` | lib/receive.c:967-981 | a run of bits is decoded to itself if every 0 is told, and to something else or nothing otherwise |
| `RoundTrip.SeparatorFound` | lib/receive.c:1001-1015 | the pulse between fields is found and its space left pending |
| `RoundTrip.FieldsReadBack` | lib/receive.c:983-1036 | pre data, code and post data come back as sent exactly if every 0 is told and no field is the failure value |
| `Codec.CodeShape` | lib/transmit.c:327-341 | a signal has positive durations and never too many for the send buffer |
| `Codec.SyncedTrain` | lib/transmit.c:159-167 | what sync_send_buffer leaves of a train is its normal form without a space at the end |
| `Codec.EndFound` | lib/receive.c:1210-1233 | behind trail and foot, the signal ends well if and only if the space that follows is what the tolerance leaves of the gap, or of what the signal leaves of a constant length; whatever comes behind it |
| `Codec.CodecRoundTrip` | lib/receive.c:1038-1256 | for every biphase, pulse-space or space-pulse remote, every code and whatever follows the signal: it is decoded to exactly the fields sent if and only if it starts with a pulse, no space lengthens the one of a NO_HEAD_REP header, every 0 is told from a 1, no field is sent as the failure value, and the silence behind it is long enough; if only the silence is too short, nothing is decoded |
| `Codec.Loopback` | lib/transmit.c:327-341 | the same through the two mutable buffers: what Decode returns for what SendCode and Sync left |
| `Tolerances.BiphaseRoundTrip` | lib/receive.c:404-494 | RC-5 and RC-6 with header or lead, any rc6_mask, words under 64 bits: where no tolerance takes a merged half for a single one: pre data, code and post data come back if and only if not both the header is optional and the first bit behind it a 1, and the silence is long enough |
| `Tolerances.SpaceRoundTrip` | lib/receive.c:404-494 | space encoding with a trailing pulse and no lead, words under 64 bits: they come back exactly if (pzero, szero) is not accepted as (pone, sone), or no 0 is sent, and the silence is long enough |
| `Tolerances.SpaceFirstRoundTrip` | lib/receive.c:404-494 | SPACE_FIRST with header or lead, words under 64 bits: they come back if and only if the header is not optional, the silence is long enough, and no 0 is sent, or a 0 is not accepted for a 1 in both halves and a first 0 is told in spite of the header's space |
| `Tolerances.ShortFields` | lib/receive.c:662-668 | fields of less than 64 bits never are the failure value (ir_code)-1 |
| `Tolerances.BareRc5LosesFirstOne` | lib/transmit.c:99-104 | without header and lead no RC-5 code that begins with a 1 comes back: its first space is dropped by send_space |
| `Tolerances.LeadLosesFirstZero` | lib/receive.c:404-448 | a remote whose ones and zeros have the same pulse, with a lead pulse: a code comes back if and only if it begins with a 1 and 70 ms of silence follow |
| `Tolerances.HeaderLosesFirstZero` | lib/receive.c:404-494 | a SPACE_FIRST remote whose ones and zeros have the same space, with a header: a code comes back if and only if it begins with a 1 and 70 ms of silence follow |
| `Tolerances.OptionalHeaderLosesFirstOne` | lib/receive.c:561-575 | an RC-5 remote with a NO_HEAD_REP header: a code comes back if and only if it begins with a 0 and 70 ms of silence follow |
| `Tolerances.LongerSignalRefused` | lib/receive.c:615-633 | a one-bit remote refuses the longer signal of another one, which begins with its own |
| `Matching.DecoderIsMatcher` | lib/receive.c:1038-1256 | space encoding with a trailing pulse and no lead: of anything the driver delivers, receive_decode makes what matching one item after the other makes of it, optional header, separators, foot, silence and failure values included; of the repeats without header too |
| `Matching.OtherHeaderRefused` | lib/receive.c:530-583 | in every protocol, a header that the tolerance does not accept, and that is not optional, refuses the signal |
| `Codec.LongHeader` | lib/receive.c:561-575 | the space of a NO_HEAD_REP header, lengthened by the first bit, leaves the decoder at a pulse, whether it is accepted or given back |
| `BitReading.SpaceLedOneAgainstZero` | lib/receive.c:404-448 | with the space first, a 1 tried against a 0 and refused at the pulse has forgotten a pending space |
| `PairCodes.SymbolToldExactly` | lib/receive.c:669-705 | a length is read as an RC-MM symbol if and only if the tolerance accepts it for that symbol and for no smaller one |
| `PairCodes.SymbolsReadBack` | lib/receive.c:669-705 | pulses and spaces of any lengths are decoded to a word if and only if each is accepted for its RC-MM symbol and for no smaller one; the failure value apart |
| `PairCodes.NibbleTolerance` | lib/receive.c:945-961 | XMP reads nibble n from a length off by e exactly for -floor(sone/2) <= e < sone - floor(sone/2), and for nibble 0 for e > -sone - floor(sone/2): the division rounds towards zero |
| `PairCodes.NibblesReadBack` | lib/receive.c:935-965 | XMP pulses and spaces of any lengths are decoded to a word if and only if each stands its error as a nibble of that word; the failure value apart |
| `PairSignals.PulseStep` | lib/receive.c:354-377 | the first pulse expected alone pays for a pending lead: it is accepted exactly if what is left of it without the lead meets the tolerance |
| `PairSignals.FieldStep` | lib/receive.c:669-705 | a field with a pulse behind it is read as sent exactly if its lengths, the first one increased by the lead, are read as its bits; the lead stays pending |
| `PairSignals.FieldLast` | lib/receive.c:669-705 | without a trailing pulse the last space of a field is heard as the silence, or with the foot's space added to it, and that decides |
| `PairRoundTrips.PairRoundTrip` | lib/transmit.c:204-248 | RC-MM and XMP signals, with or without lead, trailing pulse, foot, separators and fixed or optional header, are decoded to the fields sent if and only if the lengths heard are read as the bits sent, the lead is taken off a separator or the trailing pulse within tolerance, no field is the failure value, and a silence that a trailing pulse precedes is long enough; without a trailing pulse never with a foot, a lead left over, or anything behind the silence. Fields that are read, but not what was sent, are refused |
| `PairRoundTrips.PlainlyFaithful` | lib/transmit.c:204-248 | with a trailing pulse and no lead this comes to: no symbol is accepted for a smaller RC-MM symbol, and for XMP nothing at all |
| `PairRoundTrips.SilenceSpoilsXmp` | lib/receive.c:935-965 | no code of an XMP remote without a trailing pulse comes back once the silence is longer than every space |
| `PairRoundTrips.LeadSpoilsXmp` | lib/receive.c:354-377 | no code of an XMP remote whose lead pulse is as long as its trailing one comes back |
| `Chains.Sender.SendSignal` | lib/transmit.c:409-440 | one signal or repeat signal is pushed, the toggle state moved on, and the buffer synced |
| `Chains.Sender.ChooseGap` | lib/transmit.c:459-475 | which gap is left, and the refusal when a signal exceeds the constant length |
| `Chains.Sender.Step` | lib/transmit.c:408-507 | one round of the loop: fails, ends, or goes on with the gap stored, the next code chosen and a repeat used up |
| `Chains.Sender.InitSend` | lib/transmit.c:385-521 | the loop terminates, by repeats left and then codes left, with the state the chain function gives |
| `ChainProofs.ChainStored` | lib/transmit.c:408-507 | whatever was in the buffer, a chain whose further signals start with a pulse adds the normal form of all its signals and gaps, leading spaces dropped and without the last space |
| `ChainProofs.ChainAlternates` | lib/transmit.c:385-521 | success gives an odd number of positive durations, at most WBUF_SIZE; read as pulse, space, pulse ... they have the waveform of all signals and gaps, up to the silence at both ends, if and only if every signal after the first starts with a pulse |
| `ChainProofs.SpaceFirstMisplaced` | lib/transmit.c:159-167 | a further signal that begins with a space is stored from a place on where a pulse is read, and sync_send_buffer takes its last pulse away |
| `MisplacedRepeats.BareRc5RepeatsSpoilt` | lib/transmit.c:385-521 | an RC-5 remote without header and lead, with a short gap: a code that begins with a 1 and is repeated, up to seven times, is accepted, and never goes out with its waveform |
| `ChainProofs.SignalsCount` | lib/transmit.c:481-507 | a chain that succeeds sends the rest of the button's codes and then all of them once for every repeat if and only if every gap after which something is left is short, whatever makes the gaps; otherwise it sends fewer |
| `ChainProofs.SingleCodeSignals` | lib/transmit.c:401-507 | a single-code button is sent exactly 1 + min_repeat times at once if and only if those gaps are short, as a fixed short gap is |
| `GapProofs.GapCompletesSignal` | lib/transmit.c:459-475 | behind every signal that is sent the shorter and the longer gap are left; of a constant length what the signal's own duration leaves of them, a header that repeats lack not counted; behind a repeat signal repeat_gap. A signal that leaves nothing is refused |
| `GapProofs.ConstantPeriod` | lib/transmit.c:459-475 | with a constant length, the duration of the signal and the gap behind it are together the length described, for every code |
| `Toggles.FlipFields` | lib/ir_remote.c:493-515 | the loop over the mask flips post data, code and pre data each by its part of the mask |
| `Toggles.FlipIsXor` | lib/ir_remote.c:493-515 | flipping field by field is one exclusive or of the concatenated word with toggle_mask |
| `Toggles.OddStateSendsXor` | lib/transmit.c:250-268 | in the odd state and without toggle_bit_mask the bits of pre data, code and post data sent are those of that exclusive or, most significant first |
| `Toggles.TogglesCancel` | lib/ir_remote.c:493-515 | a signal sent in the odd state and decoded gives after the flips the fields of the remote's description |
| `Toggles.MapCode` | lib/ir_remote.c:279-312 | the word cut anew at the remote's field boundaries is the same concatenated word; refused exactly if the widths do not add up |
| `Toggles.RecutWord` | lib/ir_remote.c:297-311 | cutting any word that fits and concatenating the fields gives it back |
| `Lircrc.Overlap` | lib/lirc_client.c:1684-1706 | the comparison loop decides whether the first codes, moved j places, cover themselves |
| `Lircrc.RebaseSequence` | lib/lirc_client.c:1681-1722 | the rebase loop finds the place to go on from |
| `Lircrc.IsCode` | lib/lirc_client.c:1637-1723 | lirc_iscode with rep_filter: new state and level 0, 1 or 2 |
| `Lircrc.RebaseFinds` | lib/lirc_client.c:1681-1722 | the rebase loop finds the longest border of the history among those shorter than the one that failed |
| `Lircrc.FreshPress` | lib/lirc_client.c:1637-1723 | one fresh press completes exactly when the presses end with the whole sequence, and otherwise leads to the longest border |
| `Lircrc.SequenceMatchingIsKmp` | lib/lirc_client.c:1637-1723 | after any run of events next_code is the length of the longest proper prefix of the sequence that the fresh presses since the last completion end with |
| `Lircrc.CompletesExactly` | lib/lirc_client.c:1637-1723 | level 2 is returned exactly for a fresh press after which the presses end with the whole sequence; repeats never move the entry |
| `Lircrc.PartExactly` | lib/lirc_client.c:1637-1723 | level 1 is returned exactly for a fresh press that brings a sequence one code on |
| `Lircrc.MatchesWhom` | lib/lirc_client.c:1648-1652 | a code stands for any remote or button where it says so, and else for that name in capital or small letters |
| `Lircrc.SameLetters` | lib/lirc_client.c:1648-1652 | names are the same exactly if they are equal letter by letter, capital or small |
| `HeldKeys.RepeatCounts` | lib/lirc_client.c:1601-1635 | of a key held down, exactly these repeats count for an entry of one button or none: the press itself unless first events are ignored, the first repeat behind the delay or the ignored events, and with `repeat` k every k-th behind that; without `repeat` no further one |
| `HeldKeys.OneInEvery` | lib/lirc_client.c:1629-1633 | any k repeats in a row, from the first that can count on, give exactly one event, and where it lies |
| `HeldKeys.EveryFifth` | lib/lirc_client.c:1629-1633 | repeat = 5 without delay: the press and repeats 1 and 6 count, repeat 2 does not |
| `HeldKeys.OtherKey` | lib/lirc_client.c:1671-1680 | another key never counts for an entry of one button, and at most sets its strings back |
| `Draining.Config.ClearMode` | lib/lirc_client.c:1550-1566 | leaving a mode re-arms its `once` entries |
| `Draining.Config.Execute` | lib/lirc_client.c:1569-1598 | mode change, `once`, program filter and the next string of the entry, turning round at the end |
| `Draining.Config.Code2Char` | lib/lirc_client.c:1742-1810 | one call goes on where the last one stopped and ends at the first string or at the end |
| `Draining.CallIsPass` | lib/lirc_client.c:1742-1810 | one call is a pass over the entries, cut behind the entry that gives a string |
| `Draining.DrainIsOnePass` | lib/lirc_client.c:1742-1810 | calls until NULL give the strings, entry states and consultations of one single pass, in one call more than there are strings, and end at the first entry |
| `Draining.PassAsksAll` | lib/lirc_client.c:1742-1810 | a pass consults every entry exactly once, in list order |
| `Draining.QuitEndsPass` | lib/lirc_client.c:1742-1810 | nothing is executed behind the first executed entry that quits |
| `Draining.DrainEvent` | lib/lirc_client.c:1742-1810 | the client's loop collects exactly those strings and leaves the configuration at its start |
| `Executions.TurnLaw` | lib/lirc_client.c:1550-1598 | what one entry's turn does to the mode, to every entry, and which string comes out |
| `Executions.StringsInTurn` | lib/lirc_client.c:1591-1594 | over any run of turns the i-th string an entry has given, since toggle_reset set it back or since the beginning, is config[(began + i) % n] |
| `Executions.NeverSetBack` | lib/lirc_client.c:1674-1676 | without toggle_reset an entry is never set back |
| `Executions.PlayThenPause` | lib/lirc_client.c:1591-1594 | an entry with PLAY and PAUSE gives them alternately, whatever happens in between |
| `Executions.GivesExactly` | lib/lirc_client.c:1569-1598 | after any run, an entry gives a string if and only if its code is complete, the mode is its own or it has none, no other has quit, it has strings, it is for this program, and, marked `once`, it has not acted since the mode it leads to was left |
| `Executions.OnceUntilLeft` | lib/lirc_client.c:1550-1598 | a `once` entry that leads to a mode gives a second string only if that mode was left in between |
| `Executions.PassIsRun` | lib/lirc_client.c:1742-1810 | the pass of one event is such a run of turns and gives its strings |
| `Executions.QuitLaw` | lib/lirc_client.c:1775-1797 | an entry with `quit` ends the event for all behind it exactly if its code was at least begun, in its mode, before any other had quit |
| `Replies.CommandRun` | lib/lirc_client.c:215-319 | the response loop returns the code and leaves the lines that the line automaton gives |
| `Replies.CountReadBack` | lib/lirc_client.c:273-281 | a count printed with %d is read back by strtoul, up to 32 bits |
| `Replies.SendSuccess` | daemons/lircd.cpp:1120-1131 | the text printed is that of a reply without data |
| `Replies.SendError` | daemons/lircd.cpp:1134-1176 | whatever the formatted message is, it is cut at its last newline and printed as the data lines that the reply announces |
| `Replies.MessageText` | daemons/lircd.cpp:1134-1176 | the data of an error reply is the message up to and including its last newline, one being added if there is none |
| `Replies.SendRemoteList` | daemons/lircd.cpp:1321-1358 | one data line per remote, none and no DATA part without remotes |
| `Replies.NamesListed` | daemons/lircd.cpp:1321-1358 | a name of at most 255 characters stands in the list as itself, a longer one as the replacement |
| `Replies.SendVersion` | daemons/lircd.cpp:1702-1715 | a reply with one data line |
| `CodeLists.SendRemote` | daemons/lircd.cpp:1360-1401 | the text printed for a list of codes, each cut as snprintf cuts it |
| `CodeLists.SendName` | daemons/lircd.cpp:1403-1422 | the same for one code, for which two characters less are left |
| `CodeLists.CodeIsLine` | daemons/lircd.cpp:1388-1396 | a code is printed as a line of its own exactly if code and name do not just fill the buffer; then the newline is lost |
| `CodeLists.CodesReadBack` | daemons/lircd.cpp:1360-1422 | behind any event lines and foreign packets the client always returns: with exactly the reply read and 0 if and only if no name just fills the buffer, and with EPROTO if and only if some name does; then END and all that follows stay unread |
| `CodeLists.LongNameStops` | daemons/lircd.cpp:1360-1401 | a button name of 238 characters: the listing of its remote makes the client return EPROTO |
| `LineReading.Reader.FillString` | lib/lirc_client.c:133-155 | reading into what is left of the buffer hands over data without losing or reordering any |
| `LineReading.Reader.ReadString` | lib/lirc_client.c:159-187 | the line up to the first newline is taken off what has arrived; if a terminator comes first, the text in front of it is handed out and stays |
| `LineReading.RunReader` | lib/lirc_client.c:215-319 | the response loop on the 256-byte buffer returns the code and leaves unread what reading the arrived text line by line does |
| `LineReading.TextIsLines` | lib/lirc_client.c:159-187 | lines that fit the buffer are handed to the client as they are, however they lie in it |
| `LineReading.StuckText` | lib/lirc_client.c:159-187 | text behind which a terminator stands instead of a newline is handed out for every data line still missing and then makes the client return EPROTO, with everything behind it unread |
| `LineReading.ReplyTextParsesBack` | lib/lirc_client.c:159-319 | a whole reply is read through the buffer, exactly up to its end, if and only if no data line is empty |
| `Replies.ReplyIsItsLines` | daemons/lircd.cpp:1120-1176 | the printed text of a reply is read as exactly its lines |
| `Replies.ReplyParsesBack` | lib/lirc_client.c:215-319 | after any event lines and foreign packets the client consumes exactly its reply and returns 0 or EIO if and only if no data line is empty; an empty one gives EPROTO |
| `Replies.OtherLinesRefused` | lib/lirc_client.c:215-319 | once the reply has begun, any line but those of the protocol ends it with EPROTO |
| `Replies.ShortReplies` | lib/lirc_client.c:215-319 | a reply that ends behind the command returns 0, and one that announces no data needs no data lines |
| `Factoring.CommonAgrees` | lib/irrecord.c:284-293 | a bit of the mask survives the search exactly if all words compared agree in it |
| `Factoring.RecordedRemote.FindCommon` | lib/irrecord.c:275-293 | the search over the second and later buttons, and the last code compared |
| `Factoring.RecordedRemote.GetPreData` | lib/irrecord.c:269-324 | the remote and its codes after taking the common leading bits |
| `Factoring.RecordedRemote.GetPostData` | lib/irrecord.c:327-380 | the remote and its codes after taking the common trailing bits |
| `Factoring.RecordedRemote.RemovePreData` | lib/irrecord.c:383-400 | pre data put back in front of every code |
| `Factoring.RecordedRemote.RemovePostData` | lib/irrecord.c:403-421 | post data put back behind every code |
| `FactoringProofs.PreKeepsMeaning` | lib/irrecord.c:269-324 | get_pre_data keeps every code's transmitted word and the bit count if and only if it takes nothing or the codes following the first button's agree with the others in the bits taken |
| `FactoringProofs.PostKeepsMeaning` | lib/irrecord.c:327-380 | get_post_data likewise |
| `FactoringProofs.PreTakesAll` | lib/irrecord.c:269-324 | the number of bits taken is the largest number of leading bits in which all codes compared agree, cut down to a multiple of 8 unless it is one or leaves one |
| `FactoringProofs.PostTakesAll` | lib/irrecord.c:327-380 | likewise at the other end |
| `FactoringProofs.PostWithinBitsExactly` | lib/irrecord.c:327-380 | get_post_data takes more bits than the codes have if and only if there are two buttons or more and all codes it looks at are the same; it takes 64 then |
| `FactoringProofs.SameCodesTakeTooMuch` | lib/irrecord.c:327-380 | two buttons with the same 8-bit code are such a case |
| `FactoringProofs.PostWithinBitsAfterPre` | lib/irrecord.c:327-380 | after get_pre_data, get_post_data never takes more bits than are left |
| `FactoringProofs.FactoringKeepsMeaning` | lib/irrecord.c:269-380 | both in order keep the bit count of a fresh remote, and every button's words if and only if the codes following the first button's agree with the others in all bits taken; with one code on the first button they do |
| `FactoringProofs.FactoringUndone` | lib/irrecord.c:383-421 | remove_post_data and remove_pre_data then restore remote and codes exactly, if nothing was lost |
| `FactoringProofs.FirstContinuationLost` | lib/irrecord.c:281-292 | a code following the first button's is passed over by the search and loses its bits |
| `Removing.RemovalKeepsWords` | lib/irrecord.c:383-421 | remove_pre_data and remove_post_data, in either order, keep every transmitted word of every remote with its fields masked as the file reader leaves them |
| `Removing.PreRemovedSends` | lib/irrecord.c:383-400 | remove_pre_data keeps the pulses and spaces sent, the remotes with a separator being left alone |
| `Removing.PostRemovedSends` | lib/irrecord.c:403-421 | remove_post_data, which does not look at the separator, keeps the pulses and spaces of a code if and only if there is none |
| `Removing.RemovalKeepsSignals` | tools/irrecord-ui.cpp:447-451 | both removals, in the order of the tool, keep what every button sends, further codes included, if and only if no separator stands in front of post data; for RC-MM and XMP with fields of whole symbols |
| `Removing.SeparatorLost` | lib/irrecord.c:403-421 | a remote with a separator in front of its post data, none of whose codes is sent as before after remove_post_data |
| `Removing.FactoringKeepsSignals` | lib/irrecord.c:269-380 | if no word is lost, get_pre_data and get_post_data keep what every button of a fresh remote sends, codes of whole symbols for RC-MM and XMP, if and only if no post data is made behind a waiting separator |
| `Removing.FactoringUndoneExactly` | lib/irrecord.c:383-421 | the two removals restore a factored remote if and only if no word was lost |
| `Factoring.RecordedRemote.InvertData` | lib/irrecord.c:424-460 | timings swapped and every field complemented within its width |
| `Inverting.InvertKeepsWaveform` | lib/irrecord.c:424-460 | every code of a pulse-space remote sends the same pulses and spaces if and only if no sent bit is fixed by a single-bit toggle_bit_mask, or one and zero look the same |
| `Inverting.ToggleBitInverted` | lib/irrecord.c:424-460 | a remote with one toggle bit in front, and ones longer or shorter than zeros, sends every code differently once it is inverted |
| `Inverting.InvertKeepsButton` | lib/irrecord.c:451-459 | the same for every button with all its further codes |
| `Inverting.InvertTwice` | lib/irrecord.c:424-460 | inverting twice restores remote and codes |
| `Lengths.Histogram.AddLength` | lib/irrecord.c:617-644 | the length goes to the first bucket covering it or to a new one at the end |
| `Lengths.Histogram.MergeLengths` | lib/irrecord.c:682-731 | the nested loops take merged buckets out of the list in place, with the result of the merge function |
| `Lengths.HistogramPartitions` | lib/irrecord.c:617-731 | after any run of additions and merges the buckets describe a partition of all lengths added: count, sum, minimum and maximum are exactly those of a group each |
| `Lengths.HistogramConserves` | lib/irrecord.c:617-731 | total count and total sum over the list are those of the lengths added |
| `Lengths.SignalIsMean` | lib/irrecord.c:227-232 | calc_signal is the mean of a bucket's group and lies within [min, max]; min*count <= sum <= max*count |
| `Lengths.OnlyAepsMerges` | lib/irrecord.c:698-708 | the test meant as a percentage never holds of received lengths, so buckets merge exactly when within aeps of their common mean |
| `Lengths.BucketsStayNarrow` | lib/irrecord.c:617-731 | over any run no bucket's range exceeds 2*aeps + 198 |
| `Lengths.SamplesByHundreds` | lib/irrecord.c:617-644 | before any merge there is one bucket for each hundred that occurs, and it counts exactly the lengths in that hundred |
| `Lengths.FirstPartner` | lib/irrecord.c:682-731 | a bucket takes in the first later one that it merges with, those before it stay, and the search goes on behind it with the joined bucket |
| `Lengths.TwoMerge` | lib/irrecord.c:682-731 | two buckets become one exactly if they merge |
| `Repeating.Daemon.SendCore` | daemons/lircd.cpp:1581-1649 | SEND_ONCE and SEND_START: every refusal, the toggle states, the transmission, the countdown and the reply or the pending client |
| `Repeating.Daemon.SendStop` | daemons/lircd.cpp:1651-1699 | SEND_STOP: the refusals, the repeats still to do, or the end of repeating |
| `Repeating.Daemon.Alarm` | daemons/lircd.cpp:1207-1252 | the alarm: interruption, countdown, transmission, and the final reply |
| `RepeatRuns.BusyRefuses` | daemons/lircd.cpp:1602-1608 | while repeating, however many SEND_ONCE and SEND_START come, each client gets one error, in order, and nothing else changes |
| `SignalLengths.SignalWithin` | lib/transmit.c:327-341 | what the send buffer sums up for a signal never exceeds a bound computed from the description alone, whatever code, toggle state and repeat |
| `RepeatRuns.LongGapsExactly` | lib/transmit.c:461-495 | the gaps of a single-code button are long, in whatever toggle state, if and only if none of its signals is ever followed by another in its buffer |
| `RepeatRuns.LongGapsSuffice` | lib/transmit.c:461-479 | they are if the gap is at least the threshold, and for CONST_LENGTH at least the threshold behind the longest signal |
| `RepeatRuns.ConstantLengthStandsAlone` | test/tests/rc5/RC-5500.conf:13-24 | a CONST_LENGTH remote of the test suite is one of these, for any code |
| `RepeatRuns.OnceRuns` | daemons/lircd.cpp:1581-1649 | for a single-code button with long gaps, of constant length or not: an unstopped SEND_ONCE sends once and max(min_repeat, reps) times more, and gets exactly one reply, when the last one is out |
| `RepeatRuns.StartThenStop` | daemons/lircd.cpp:1651-1699 | for the same buttons SEND_START, k < repeat_max alarms and one SEND_STOP send once and max(k, min_repeat) times more, with one reply for each command |
| `RepeatRuns.EveryCommandAnswered` | daemons/lircd.cpp:1207-1252 | over any run, whatever fails or is received: at rest every client has got exactly one reply for each of its commands if and only if no SEND_STOP, naming the right remote and code, has arrived when the least repeats were out and a SEND_ONCE was still to be answered |
| `RepeatRuns.ReceptionInterrupts` | daemons/lircd.cpp:1207-1252 | another button of the repeated remote, received, ends the repeating at the next alarm without sending, and a waiting client is told; the same button, or one of another remote, does not |
| `RepeatRuns.FailureEnds` | daemons/lircd.cpp:1236-1251 | a repeat whose transmission fails is the last one, and the waiting client is answered |
| `RepeatRuns.FailureStartsNothing` | daemons/lircd.cpp:1618-1619 | a command whose transmission fails is answered with an error and starts nothing |
| `SeveralCodes.SeveralOnce` | daemons/lircd.cpp:1581-1649 | for a button of m codes, m >= 2, each signal alone in its buffer: an undisturbed SEND_ONCE sends R*m signals for R = max(min_repeat, reps) > 0, and just two for R = 0; one reply, at the end |
| `SeveralCodes.SendNext` | lib/transmit.c:476-485 | every send is of the next code, behind the last one of the first |
| `SeveralCodes.CodesInOrder` | lib/transmit.c:419-427 | the code a signal is made of is the one that the transmission stands at |
| `TogglesInRuns.PressesFlip` | daemons/lircd.cpp:1611-1614 | over any run in which the remote is not received its toggle bits are those of the beginning, flipped once for every command carried out |
| `TogglesInRuns.BitsOfPresses` | daemons/lircd.cpp:1611-1614 | two sends of a run differ exactly at toggle_bit_mask if the number of commands carried out in between is odd, and else in no bit: the repeats of one command are the same, and two commands in a row are not |
| `TogglesInRuns.TwoPresses` | daemons/lircd.cpp:1611-1614 | a remote of the test suite has its toggle bit set after one SEND_ONCE, and clear after a second one |
| `TogglesInRuns.CommandStartsEven` | daemons/lircd.cpp:1609-1610 | every command carried out sends its first signal with toggle_mask in the even state; a single one leaves it odd |
| `TogglesInRuns.TogglesInTurn` | lib/transmit.c:428-432 | the toggle states run 0, 1, 2, 3, 2, 3 ...: even and odd in turn, and 0 not again before the next command |
| `TogglesInRuns.StopLeavesEven` | daemons/lircd.cpp:1676-1695 | a SEND_STOP that ends the repeating leaves the even state |
| `RepeatRuns.CutOff` | daemons/lircd.cpp:1676-1695 | for such a button, SEND_ONCE and then another client's SEND_STOP: whenever repeat_max leaves it something to cut, the daemon is at rest with only the second client answered |
| `RepeatRuns.CutOffOccurs` | daemons/lircd.cpp:1676-1695 | this happens for a remote with one button and the default repeat_max of 600 |
| `Dictionaries.DictionaryHash` | lib/dictionary.c:74-90 | the loop computes the hash function, signed characters and 32-bit wrap-around included |
| `Dictionaries.GrownHasRoom` | lib/dictionary.c:173-194 | after the growth check an empty slot always exists |
| `Dictionaries.FindIsLookup` | lib/dictionary.c:128-145 | searching by hash and key finds exactly what is stored, whatever collides |
| `Dictionaries.SetIsUpdate` | lib/dictionary.c:147-204 | setting updates the map, keeps keys distinct and hashes right, and the occupied slots grow by one exactly for a new key |
| `Dictionaries.UnsetIsRemoval` | lib/dictionary.c:206-239 | unsetting removes the key from the map and nothing else |
| `Dictionaries.RunsRefineMap` | lib/dictionary.c:128-239 | over every run the slots stand for the map of the same updates, and the occupied slots are as many as its keys |
| `Dictionaries.Dictionary.Get` | lib/dictionary.c:128-145 | the value stored under the key, or the default |
| `Dictionaries.MemDouble` | lib/dictionary.c:60-70 | a copy in twice the room, the rest cleared |
| `Dictionaries.Dictionary.Grow` | lib/dictionary.c:172-186 | doubling keeps all entries in place and adds empty slots |
| `Dictionaries.Dictionary.SetKey` | lib/dictionary.c:147-204 | the new slots and the new map; n counts the occupied slots |
| `Dictionaries.Dictionary.UnsetKey` | lib/dictionary.c:206-239 | likewise for removal |
| `Carrier.ModulatePulses` | plugins/ftdi.c:549-613 | the buffer holds the samples and a final 0 and their number plus one is returned, exactly if they leave room; otherwise -1 with the buffer filled up to its last byte; bytes behind are untouched |
| `CarrierPhase.PhaseReached` | plugins/ftdi.c:586-593 | the largest phase that occurs is f_sample minus the greatest common divisor of f_sample and f_carrier |
| `CarrierPhase.PhaseIsModular` | plugins/ftdi.c:586-593 | the accumulator is k*f_carrier mod f_sample for all k if and only if the carrier is not faster than the sample rate and adding it to that largest phase does not wrap around, or f_sample is 2^31 |
| `CarrierPhase.FastCarriersFail` | plugins/ftdi.c:586-593 | two tunings for which it is not: a carrier faster than the sample rate, and a slower one close to 2^32 |
| `CarrierPhase.CarrierSwitches` | plugins/ftdi.c:566-602 | whatever the duty cycle, among the samples generated the carrier is on at some; off at others if and only if the on time is at most f_sample minus the greatest common divisor |
| `CarrierPhase.HalfRateSwitches` | plugins/ftdi.c:855-877 | at half the sample rate and half of the time on it is on and off |
| `CarrierPhase.SampleIsClosedForm` | plugins/ftdi.c:571-602 | under that condition sample k is 255 exactly if it lies in a pulse and its phase is below the duty, with the phase continuous over all segments of floor(f_sample*p/10^6) samples |
| `Circles.MouseCircle` | daemons/lircmd.cpp:461-489 | the moves emitted are those of eight octants with the same rounds; every octant terminates |
| `Circles.NextOnCircle` | daemons/lircmd.cpp:473-486 | each round keeps d = (x+1)^2 + y^2 - y - r^2 and x^2 + y^2 is off r^2 by at most y |
| `Circles.NearestPoint` | daemons/lircmd.cpp:473-486 | in every round y is the exact height of the circle over x rounded to the nearest integer |
| `Circles.FirstOctantTraces` | daemons/lircmd.cpp:473-486 | in the first octant the cursor is at (x, y) after every round |
| `Circles.CircleCloses` | daemons/lircmd.cpp:468-488 | for every radius and direction all moves cancel out |
| `Circles.QuarterTurn` | daemons/lircmd.cpp:478-482 | every octant makes the moves of the one two before it, turned by a quarter |
| `Circles.SecondOctantBulges` | daemons/lircmd.cpp:468-488 | the second octant repeats the rounds of the first instead of mirroring them and ends at (2x + y - r, y - x), which is to the right of the whole circle if and only if r >= 7 or r is 2, 4 or 5 |
| `Circles.DrawnCircleBulges` | daemons/lircmd.cpp:491-494 | so for the radius that lircmd draws: its quarter ends at (11, 0) |

## Left out

- CodecRoundTrip: durations of zero within a bit are excluded; so are space-first remotes with a trailing pulse or a separator, whose pulse runs into that of the bit before it. Repeats are not read back here, but by DecoderIsMatcher for its remotes.
- DecoderIsMatcher: remotes with a lead pulse or without a trailing one, and the other protocols; of those CodecRoundTrip and PairRoundTrip tell what becomes of the signals of send_code, and not of any input.
- OtherHeaderRefused: optional headers; without one the decoder goes on with what it finds.
- SpaceRoundTrip: a lead pulse and a missing trailing pulse are covered by CodecRoundTrip, not by this simpler condition; bits sent with pzero equal to 0 are not covered.
- PairRoundTrip: durations of zero, fields of broken symbols, and remotes with neither trailing pulse, code bits nor post data are excluded; so is a silence with more behind it where there is no trailing pulse and a lead is left to be taken off.
- PreRemovedSends: fields of broken RC-MM and XMP symbols, which are not sent at all before removal, are excluded; so in the three lemmas behind it.
- Loopback: the same remotes as CodecRoundTrip.
- TogglesCancel: toggle_mask only; with a toggle_bit_mask the receiver compares under a mask instead of flipping.
- ExpectedOne: and with it ExpectedZero, ReadBits, ReadPre, ReadPost and Decode: bits whose first half has no length are excluded, and space-first remotes when nothing but the silence ever arrives; there the source gives back more items than it has read.
- Decode: repeat codes (last_remote is NULL here), raw codes, drivers that deliver whole codes, repeat_flag and the remaining gaps, end-of-file items, timeouts in the middle of a signal and update_mode are not modelled; the input ends with the gap behind the signal.
- ChainAlternates: signals without any pulse, or with durations of zero, are excluded.
- ConstantPeriod: two different gaps, and headers that repeats lack, are in GapCompletesSignal.
- InitSend: raw codes, XMP and simulation are not modelled, nor the special remote named "lirc".
- SequenceMatchingIsKmp: sequences with wildcards are excluded; for those the source compares names that do not exist.
- Code2Char: only well-formed codes; what malformed input does is not modelled.
- CommandRun: whole lines, without the text collected in ctx->reply; how lines come out of the buffer is in LineReading.
- FillString: a read delivers all that has arrived as far as there is room, and is only made when it need not wait; reads that deliver part of a line, timeouts and errors are not modelled.
- ReadString: only when a line, or the text in front of a terminator, has arrived and fits the buffer.
- SendError: the message is given formatted and not longer than its buffer.
- CountReadBack: leading blanks and signs, which strtoul accepts too, are not modelled.
- GetPostData: required to leave a non-negative number of bits; PostWithinBitsExactly says when it does. Otherwise the source shifts by 64 bits, which C leaves undefined.
- InvertKeepsWaveform: biphase and multi-bit protocols, for which swapping the timings is not meant.
- AddLength: the totals are required to fit the source's int; what overflow does is undefined there. Failing allocation is not modelled.
- OnceRuns: concatenated signals (LongGaps says which) and failing transmissions are in the steps and in EveryCommandAnswered, but not in this count; buttons with several codes are in SeveralOnce. A failed transmission leaves the countdown as started; the source may leave it lower, and never reads it before setting it again.
- SeveralOnce: likewise, and without SEND_STOP; StartThenStop is about single codes only.
- CommandStartsEven: what the signals behind the first one leave is told for single codes with long gaps.
- PressesFlip: while the remote is not received; what reception does to its toggle states is part of ReceiveStep only.
- RepeatCounts: sequences of several buttons, whose repeats never count; CompletesExactly says that.
- StartThenStop: one SEND_STOP only; a second one computes from the countdown the first one has set.
- EveryCommandAnswered: a reply that cannot be written to the socket counts as given; clients that disconnect are not modelled.
- ModulatePulses: a pulse of more than INT_MAX samples is excluded.
- SetKey: failing allocation, and sizes beyond the source's int, are not modelled.
- Grundig, Bang & Olufsen and serial protocols, which the source cannot send.
- find_longest_match, and get_code beyond its toggle loop.
- Durations of 2^24 microseconds and more, and int overflow in the tolerance tests.
- Reading configuration files, reloading them, drivers, sockets, signals, polling and timing; alarms and commands are steps.
